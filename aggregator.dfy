/** The aggregator: the two `defaultdict(int)` frequency maps the analysis
    fills, one increment per label occurrence, across all matches. */
module Aggregator {

  /** One `(label, count)` item of a frequency map. */
  type Entry = (string, int)

  /** How often `x` occurs in `labels`. */
  function Count(labels: seq<string>, x: string): (n: nat)
    ensures n <= |labels|
    ensures n > 0 <==> x in labels
  {
    if labels == [] then 0
    else Count(labels[..|labels| - 1], x) + (if labels[|labels| - 1] == x then 1 else 0)
  }

  predicate Distinct(s: seq<string>)
  {
    forall i, j :: 0 <= i < j < |s| ==> s[i] != s[j]
  }

  /** The distinct labels in the order of their first occurrence: the
      insertion order of a dict that is incremented label by label. */
  function FirstSeen(labels: seq<string>): seq<string>
  {
    if labels == [] then []
    else
      var front := labels[..|labels| - 1];
      var last := labels[|labels| - 1];
      FirstSeen(front) + (if last in front then [] else [last])
  }

  /** The keys are distinct and are exactly the labels counted. */
  lemma {:induction false} FirstSeenMembers(labels: seq<string>)
    ensures Distinct(FirstSeen(labels))
    ensures forall x :: x in FirstSeen(labels) <==> x in labels
  {
    if labels != [] {
      var front := labels[..|labels| - 1];
      FirstSeenMembers(front);
      assert forall x :: x in labels <==> x in front || x == labels[|labels| - 1];
    }
  }

  /** The label-to-count mapping after counting `labels`. */
  function CountMap(labels: seq<string>): (r: map<string, int>)
    ensures forall x :: x in r <==> x in labels
    ensures forall x :: x in r ==> 1 <= r[x] <= |labels|
  {
    map x | x in labels :: Count(labels, x)
  }

  /** The items of a mapping, listed in the order of `keys`. */
  function Pairs(keys: seq<string>, m: map<string, int>): (r: seq<Entry>)
    requires forall k :: k in keys ==> k in m
    ensures |r| == |keys|
    ensures forall i :: 0 <= i < |r| ==> r[i] == (keys[i], m[keys[i]])
  {
    if keys == [] then []
    else Pairs(keys[..|keys| - 1], m) + [(keys[|keys| - 1], m[keys[|keys| - 1]])]
  }

  /** `totals.items()` after every label of `labels` was counted. */
  function Tally(labels: seq<string>): (r: seq<Entry>)
    ensures |r| == |FirstSeen(labels)|
  {
    FirstSeenMembers(labels);
    Pairs(FirstSeen(labels), CountMap(labels))
  }

  /** Every item of the frequency map is a label that occurs, with the
      number of its occurrences. */
  lemma TallyMembers(labels: seq<string>)
    ensures forall e :: e in Tally(labels) ==> e.0 in labels && e.1 == Count(labels, e.0)
  {
    var fs := FirstSeen(labels);
    var t := Tally(labels);
    FirstSeenMembers(labels);
    forall e | e in t ensures e.0 in labels && e.1 == Count(labels, e.0) {
      var i :| 0 <= i < |t| && t[i] == e;
      assert e == (fs[i], CountMap(labels)[fs[i]]);
    }
  }

  /** No label has two items. */
  lemma TallyDistinct(labels: seq<string>)
    ensures forall i, j :: 0 <= i < j < |Tally(labels)| ==> Tally(labels)[i].0 != Tally(labels)[j].0
  {
    var t := Tally(labels);
    FirstSeenMembers(labels);
    forall i, j | 0 <= i < j < |t| ensures t[i].0 != t[j].0 {
      assert t[i].0 == FirstSeen(labels)[i] && t[j].0 == FirstSeen(labels)[j];
    }
  }

  /** Every label counted has its item. */
  lemma TallyCovers(labels: seq<string>, x: string)
    requires x in labels
    ensures (x, Count(labels, x)) in Tally(labels)
  {
    var fs := FirstSeen(labels);
    FirstSeenMembers(labels);
    var i :| 0 <= i < |fs| && fs[i] == x;
    assert Tally(labels)[i] == (x, CountMap(labels)[x]);
  }

  /** The first index at which `x` occurs in `labels`. */
  function FirstIndex(labels: seq<string>, x: string): (r: nat)
    requires x in labels
    ensures r < |labels| && labels[r] == x && x !in labels[..r]
  {
    if labels[0] == x then 0
    else
      assert labels == [labels[0]] + labels[1..];
      var r := 1 + FirstIndex(labels[1..], x);
      assert labels[..r] == [labels[0]] + labels[1..][..r - 1];
      r
  }

  lemma FirstIndexSnoc(labels: seq<string>, y: string, x: string)
    requires x in labels
    ensures FirstIndex(labels + [y], x) == FirstIndex(labels, x)
  {
    var l := labels + [y];
    var r1, r2 := FirstIndex(l, x), FirstIndex(labels, x);
    assert l[r2] == x;
    assert l[..r2] == labels[..r2];
  }

  /** Counting one more label adds one to that label's count only. */
  lemma CountSnoc(labels: seq<string>, y: string)
    ensures forall x :: Count(labels + [y], x) == Count(labels, x) + (if x == y then 1 else 0)
  {
    var l := labels + [y];
    assert l[..|l| - 1] == labels;
  }

  /** A label seen for the first time is appended to the insertion order;
      one seen before leaves the order as it is. */
  lemma FirstSeenSnoc(labels: seq<string>, y: string)
    ensures FirstSeen(labels + [y]) == FirstSeen(labels) + (if y in labels then [] else [y])
  {
    var l := labels + [y];
    assert l[..|l| - 1] == labels;
  }

  lemma CountMapKeysSnoc(labels: seq<string>, y: string)
    ensures CountMap(labels + [y]).Keys == CountMap(labels)[y := Count(labels, y) + 1].Keys
  {
    var l := labels + [y];
    assert forall x :: x in l <==> x in labels || x == y;
  }

  /** Counting one more label is one increment of the mapping. */
  lemma CountMapSnoc(labels: seq<string>, y: string)
    ensures CountMap(labels + [y]) == CountMap(labels)[y := Count(labels, y) + 1]
  {
    var m, m' := CountMap(labels), CountMap(labels + [y]);
    var n := m[y := Count(labels, y) + 1];
    CountMapKeysSnoc(labels, y);
    forall x | x in m' ensures m'[x] == n[x] {
      CountSnoc(labels, y);
    }
  }

  /** The insertion order is the order of first occurrence. */
  lemma {:induction false} FirstSeenOrder(labels: seq<string>)
    ensures forall x :: x in FirstSeen(labels) ==> x in labels
    ensures forall i, j :: 0 <= i < j < |FirstSeen(labels)| ==>
      FirstIndex(labels, FirstSeen(labels)[i]) < FirstIndex(labels, FirstSeen(labels)[j])
  {
    if labels != [] {
      var front := labels[..|labels| - 1];
      var y := labels[|labels| - 1];
      assert labels == front + [y];
      FirstSeenOrder(front);
      FirstSeenSnoc(front, y);
      FirstSeenMembers(labels);
      var fs, fs' := FirstSeen(front), FirstSeen(labels);
      forall i, j | 0 <= i < j < |fs'|
        ensures FirstIndex(labels, fs'[i]) < FirstIndex(labels, fs'[j])
      {
        FirstIndexSnoc(front, y, fs'[i]);
        if j < |fs| {
          FirstIndexSnoc(front, y, fs'[j]);
        } else {
          assert fs'[j] == y && y !in front;
          assert labels[..|front|] == front;
        }
      }
    }
  }

  /** The sum of the counts of a list of items. */
  function SumCounts(es: seq<Entry>): int
  {
    if es == [] then 0 else SumCounts(es[..|es| - 1]) + es[|es| - 1].1
  }

  /** The summed counts of the labels `keys` in `labels`. */
  function SumOver(keys: seq<string>, labels: seq<string>): int
  {
    if keys == [] then 0 else SumOver(keys[..|keys| - 1], labels) + Count(labels, keys[|keys| - 1])
  }

  lemma {:induction false} SumCountsPairs(keys: seq<string>, labels: seq<string>)
    requires forall k :: k in keys ==> k in labels
    ensures SumCounts(Pairs(keys, CountMap(labels))) == SumOver(keys, labels)
  {
    if keys != [] {
      var front := keys[..|keys| - 1];
      var ps := Pairs(keys, CountMap(labels));
      assert ps[..|ps| - 1] == Pairs(front, CountMap(labels));
      SumCountsPairs(front, labels);
    }
  }

  lemma {:induction false} SumOverSnoc(keys: seq<string>, labels: seq<string>, y: string)
    requires Distinct(keys)
    ensures SumOver(keys, labels + [y]) == SumOver(keys, labels) + (if y in keys then 1 else 0)
  {
    CountSnoc(labels, y);
    if keys != [] {
      var front := keys[..|keys| - 1];
      assert forall x :: x in keys <==> x in front || x == keys[|keys| - 1];
      SumOverSnoc(front, labels, y);
    }
  }

  lemma {:induction false} SumOverFirstSeen(labels: seq<string>)
    ensures SumOver(FirstSeen(labels), labels) == |labels|
  {
    if labels != [] {
      var front := labels[..|labels| - 1];
      var y := labels[|labels| - 1];
      var fs := FirstSeen(front);
      assert SumOver(fs, labels) == |front| + (if y in front then 1 else 0) by {
        assert labels == front + [y];
        SumOverFirstSeen(front);
        FirstSeenMembers(front);
        assert (y in fs) == (y in front);
        SumOverSnoc(fs, front, y);
      }
      assert FirstSeen(labels) == fs + (if y in front then [] else [y]) by {
        assert labels == front + [y];
        FirstSeenSnoc(front, y);
      }
      if y !in front {
        var fs' := fs + [y];
        assert fs'[..|fs|] == fs;
        assert SumOver(fs', labels) == SumOver(fs, labels) + Count(labels, y);
        assert Count(labels, y) == 1 by {
          assert labels == front + [y];
          CountSnoc(front, y);
          assert Count(front, y) == 0;
        }
      } else {
        assert FirstSeen(labels) == fs;
        assert |labels| == |front| + 1;
      }
    }
  }

  /** The counts of the items add up to the number of labels counted. */
  lemma TallySum(labels: seq<string>)
    ensures SumCounts(Tally(labels)) == |labels|
  {
    FirstSeenMembers(labels);
    SumCountsPairs(FirstSeen(labels), labels);
    SumOverFirstSeen(labels);
  }

  /** A label's count is its multiplicity among the labels counted. */
  lemma {:induction false} CountIsMultiplicity(labels: seq<string>, x: string)
    ensures Count(labels, x) == multiset(labels)[x]
  {
    if labels != [] {
      var front := labels[..|labels| - 1];
      assert labels == front + [labels[|labels| - 1]];
      CountIsMultiplicity(front, x);
    }
  }

  /** The labels of all matches, match after match. */
  function Concat(ms: seq<seq<string>>): seq<string>
  {
    if ms == [] then [] else Concat(ms[..|ms| - 1]) + ms[|ms| - 1]
  }

  /** Counting one more match appends its labels. */
  lemma ConcatPrefixSnoc(ms: seq<seq<string>>, i: nat)
    requires i < |ms|
    ensures Concat(ms[..i + 1]) == Concat(ms[..i]) + ms[i]
  {
    assert ms[..i + 1][..i] == ms[..i];
  }

  lemma {:induction false} ConcatAppend(a: seq<seq<string>>, b: seq<seq<string>>)
    ensures Concat(a + b) == Concat(a) + Concat(b)
    decreases |b|
  {
    if b == [] {
      assert a + b == a;
    } else {
      var ab := a + b;
      assert ab[..|ab| - 1] == a + b[..|b| - 1];
      ConcatAppend(a, b[..|b| - 1]);
    }
  }

  /** Taking one match out of a list takes its element out of the multiset. */
  lemma RemoveAt(ms: seq<seq<string>>, k: nat)
    requires k < |ms|
    ensures multiset(ms[..k] + ms[k + 1..]) == multiset(ms) - multiset{ms[k]}
  {
    assert ms == ms[..k] + [ms[k]] + ms[k + 1..];
  }

  /** The labels of a match in the middle of a list are those around it plus
      its own. */
  lemma ConcatAround(before: seq<seq<string>>, x: seq<string>, after: seq<seq<string>>)
    ensures multiset(Concat(before + [x] + after)) == multiset(Concat(before + after)) + multiset(x)
  {
    ConcatAppend(before, after);
    ConcatAppend(before + [x], after);
    ConcatAppend(before, [x]);
    assert Concat([x]) == x by {
      assert [x][..0] == [];
    }
  }

  lemma {:induction false} ConcatPermutation(ms: seq<seq<string>>, ms2: seq<seq<string>>)
    requires multiset(ms) == multiset(ms2)
    ensures multiset(Concat(ms)) == multiset(Concat(ms2))
    decreases |ms|
  {
    if ms == [] {
      assert |ms2| == |multiset(ms2)| == 0;
    } else {
      var front := ms[..|ms| - 1];
      var last := ms[|ms| - 1];
      assert last in multiset(ms2) by {
        assert last in multiset(ms);
      }
      var k :| 0 <= k < |ms2| && ms2[k] == last;
      var before, after := ms2[..k], ms2[k + 1..];
      var rest := before + after;
      assert multiset(front) == multiset(rest) by {
        RemoveAt(ms2, k);
        RemoveAt(ms, |ms| - 1);
        assert ms[..|ms| - 1] + ms[|ms|..] == front;
      }
      assert multiset(Concat(ms)) == multiset(Concat(front)) + multiset(last) by {
        assert Concat(ms) == Concat(front) + last;
      }
      assert multiset(Concat(ms2)) == multiset(Concat(rest)) + multiset(last) by {
        assert ms2 == before + [last] + after;
        ConcatAround(before, last, after);
      }
      ConcatPermutation(front, rest);
    }
  }

  /** The final counts do not depend on the order in which the matches were
      processed. */
  lemma CountsOrderIndependent(ms: seq<seq<string>>, ms2: seq<seq<string>>)
    requires multiset(ms) == multiset(ms2)
    ensures CountMap(Concat(ms)) == CountMap(Concat(ms2))
  {
    var a, b := Concat(ms), Concat(ms2);
    ConcatPermutation(ms, ms2);
    forall x ensures Count(a, x) == Count(b, x) {
      CountIsMultiplicity(a, x);
      CountIsMultiplicity(b, x);
    }
    assert forall x :: x in a <==> x in multiset(a);
    assert forall x :: x in b <==> x in multiset(b);
  }

  /** A `defaultdict(int)` used as a frequency map. */
  class Totals {
    /** The keys in insertion order. */
    var order: seq<string>
    var counts: map<string, int>
    /** Every label counted so far. */
    ghost var History: seq<string>

    ghost predicate Valid()
      reads this
    {
      order == FirstSeen(History) && counts == CountMap(History)
    }

    constructor ()
      ensures Valid() && History == []
    {
      order, counts := [], map[];
      History := [];
    }

    /** `totals[label] += 1` */
    method Increment(key: string)
      requires Valid()
      modifies this
      ensures Valid() && History == old(History) + [key]
      ensures key in old(counts) ==> order == old(order) && counts == old(counts)[key := old(counts)[key] + 1]
      ensures key !in old(counts) ==> order == old(order) + [key] && counts == old(counts)[key := 1]
    {
      FirstSeenSnoc(History, key);
      CountMapSnoc(History, key);
      if key in counts {
        counts := counts[key := counts[key] + 1];
      } else {
        order := order + [key];
        counts := counts[key := 1];
      }
      History := History + [key];
    }

    /** `totals.items()` */
    function Items(): (r: seq<Entry>)
      reads this
      requires Valid()
      ensures r == Tally(History)
    {
      FirstSeenMembers(History);
      Pairs(order, counts)
    }
  }

  /** `for w in wins: win_totals[w] += 1` (likewise for the losses). */
  method CountLabels(totals: Totals, labels: seq<string>)
    requires totals.Valid()
    modifies totals
    ensures totals.Valid() && totals.History == old(totals.History) + labels
  {
    ghost var start := totals.History;
    var i := 0;
    while i < |labels|
      invariant 0 <= i <= |labels|
      invariant totals.Valid() && totals.History == start + labels[..i]
    {
      assert start + labels[..i + 1] == (start + labels[..i]) + [labels[i]] by {
        assert labels[..i + 1] == labels[..i] + [labels[i]];
      }
      totals.Increment(labels[i]);
      i := i + 1;
    }
    assert labels[..i] == labels;
  }
}
