/** The final cut of each frequency map: its items stable-sorted by count,
    largest first, and truncated to the first `TopLimit`
    (`dict(sorted(totals.items(), key=lambda x: x[1], reverse=True)[:TOP_LIMIT])`). */
module TopN {
  import opened Common
  import opened Aggregator

  /** How many labels each final mapping keeps. */
  const TopLimit := 10

  predicate SortedDesc(s: seq<Entry>)
  {
    forall i, j :: 0 <= i < j < |s| ==> s[i].1 >= s[j].1
  }

  /** Places `e` in front of the first entry whose count is not larger, so
      that `e` precedes the entries of equal count that came after it in the
      input. */
  function Insert(e: Entry, t: seq<Entry>): (r: seq<Entry>)
    ensures multiset(r) == multiset(t) + multiset{e}
  {
    if t == [] || t[0].1 <= e.1 then [e] + t
    else
      assert t == [t[0]] + t[1..];
      [t[0]] + Insert(e, t[1..])
  }

  lemma {:induction false} InsertSorted(e: Entry, t: seq<Entry>)
    requires SortedDesc(t)
    ensures SortedDesc(Insert(e, t))
  {
    if !(t == [] || t[0].1 <= e.1) {
      var rest := Insert(e, t[1..]);
      InsertSorted(e, t[1..]);
      assert rest[0] == e || rest[0] == t[1];
      var r := [t[0]] + rest;
      assert Insert(e, t) == r;
      forall i, j | 0 <= i < j < |r| ensures r[i].1 >= r[j].1 {
        assert r[j] == rest[j - 1];
        if i > 0 {
          assert r[i] == rest[i - 1];
        } else if j > 1 {
          assert rest[0].1 >= rest[j - 1].1;
        }
      }
    }
  }

  /** Python's stable `sorted` by count with `reverse=True` (which keeps
      entries of equal count in their input order), written as an insertion
      sort. */
  function SortByCountDesc(s: seq<Entry>): (r: seq<Entry>)
    ensures multiset(r) == multiset(s)
    ensures SortedDesc(r)
  {
    if s == [] then []
    else
      assert s == [s[0]] + s[1..];
      InsertSorted(s[0], SortByCountDesc(s[1..]));
      Insert(s[0], SortByCountDesc(s[1..]))
  }

  /** The sorted items, cut to the first `TopLimit`. */
  function Top(s: seq<Entry>): (r: seq<Entry>)
    ensures |r| == Min(TopLimit, |s|)
  {
    var t := SortByCountDesc(s);
    assert |t| == |s| by {
      assert |multiset(t)| == |t| && |multiset(s)| == |s|;
    }
    t[..Min(TopLimit, |t|)]
  }

  /** The entries of `s` whose count is `c`, in their order in `s`. */
  function Band(s: seq<Entry>, c: int): seq<Entry>
  {
    if s == [] then [] else (if s[0].1 == c then [s[0]] else []) + Band(s[1..], c)
  }

  lemma {:induction false} BandAppend(a: seq<Entry>, b: seq<Entry>, c: int)
    ensures Band(a + b, c) == Band(a, c) + Band(b, c)
  {
    if a != [] {
      assert (a + b)[1..] == a[1..] + b;
      BandAppend(a[1..], b, c);
    } else {
      assert a + b == b;
    }
  }

  /** Two entries of different counts commute in any one band. */
  lemma BandSwap(x: Entry, y: Entry, c: int)
    requires x.1 != y.1
    ensures Band([x], c) + Band([y], c) == Band([y], c) + Band([x], c)
  {
    assert [x][1..] == [] && [y][1..] == [];
    assert Band([x], c) == [] || Band([y], c) == [];
  }

  /** Moving `e` in front of a prefix `a` it commutes with. */
  lemma Regroup(a: seq<Entry>, e: seq<Entry>, t: seq<Entry>)
    requires a + e == e + a
    ensures a + (e + t) == e + (a + t)
  {
    calc {
      a + (e + t);
      (a + e) + t;
      (e + a) + t;
      e + (a + t);
    }
  }

  lemma {:induction false} BandInsert(e: Entry, t: seq<Entry>, c: int)
    ensures Band(Insert(e, t), c) == Band([e], c) + Band(t, c)
  {
    if t == [] || t[0].1 <= e.1 {
      BandAppend([e], t, c);
    } else {
      var h, tail := t[0], t[1..];
      var rest := Insert(e, tail);
      assert Insert(e, t) == [h] + rest;
      assert t == [h] + tail;
      BandAppend([h], rest, c);
      BandInsert(e, tail, c);
      BandAppend([h], tail, c);
      BandSwap(h, e, c);
      Regroup(Band([h], c), Band([e], c), Band(tail, c));
    }
  }

  /** The sort is stable: the entries of any one count come out in the order
      they went in. */
  lemma {:induction false} SortStable(s: seq<Entry>, c: int)
    ensures Band(SortByCountDesc(s), c) == Band(s, c)
  {
    if s != [] {
      var rest := SortByCountDesc(s[1..]);
      assert SortByCountDesc(s) == Insert(s[0], rest);
      SortStable(s[1..], c);
      BandInsert(s[0], rest, c);
      assert [s[0]][1..] == [];
      assert Band([s[0]], c) == (if s[0].1 == c then [s[0]] else []);
      assert Band(s, c) == Band([s[0]], c) + Band(s[1..], c);
    }
  }

  /** The cut keeps `min(TopLimit, |s|)` entries, largest count first, each
      an entry of `s` with its own count. */
  lemma TopShape(s: seq<Entry>)
    ensures |Top(s)| == Min(TopLimit, |s|)
    ensures SortedDesc(Top(s))
    ensures multiset(Top(s)) <= multiset(s)
  {
    var t := SortByCountDesc(s);
    var n := Min(TopLimit, |t|);
    assert |t| == |s| by {
      assert |multiset(t)| == |t| && |multiset(s)| == |s|;
    }
    assert multiset(t) == multiset(t[..n]) + multiset(t[n..]) by {
      assert t == t[..n] + t[n..];
    }
  }

  /** What the cut drops is the tail of the sorted items. */
  lemma TopDropsTail(s: seq<Entry>)
    ensures var t := SortByCountDesc(s);
      multiset(s) - multiset(Top(s)) == multiset(t[Min(TopLimit, |t|)..])
  {
    var t := SortByCountDesc(s);
    var n := Min(TopLimit, |t|);
    assert t == t[..n] + t[n..];
    assert multiset(t) == multiset(t[..n]) + multiset(t[n..]);
  }

  /** In a sorted sequence nothing after position `n - 1` has a larger count. */
  lemma SortedTailBelow(t: seq<Entry>, n: nat)
    requires SortedDesc(t) && 0 < n <= |t|
    ensures forall e :: e in t[n..] ==> e.1 <= t[n - 1].1
  {
    forall e | e in t[n..] ensures e.1 <= t[n - 1].1 {
      var k :| 0 <= k < |t[n..]| && t[n..][k] == e;
      assert t[n + k] == e;
    }
  }

  /** No dropped entry has a larger count than the last kept one. */
  lemma TopDropsOnlySmaller(s: seq<Entry>)
    ensures forall e :: e in multiset(s) - multiset(Top(s)) ==>
      Top(s) != [] && e.1 <= Top(s)[|Top(s)| - 1].1
  {
    var t := SortByCountDesc(s);
    var n := Min(TopLimit, |t|);
    var top := Top(s);
    var dropped := multiset(s) - multiset(top);
    TopDropsTail(s);
    assert dropped == multiset(t[n..]);
    if n > 0 {
      SortedTailBelow(t, n);
      assert top[|top| - 1] == t[n - 1];
      forall e | e in dropped ensures e.1 <= top[|top| - 1].1 {
        assert e in t[n..];
      }
    } else {
      assert t[n..] == [];
    }
  }

  /** Among entries of equal count, the kept ones are the first ones of that
      count in `s`, in their order in `s`. */
  lemma TopStable(s: seq<Entry>, c: int)
    ensures Band(Top(s), c) <= Band(s, c)
  {
    var t := SortByCountDesc(s);
    var n := Min(TopLimit, |t|);
    assert t == t[..n] + t[n..];
    BandAppend(t[..n], t[n..], c);
    SortStable(s, c);
  }

  /** Every kept entry is one of the entries that went in. */
  lemma TopMembers(s: seq<Entry>)
    ensures forall k :: 0 <= k < |Top(s)| ==> Top(s)[k] in s
  {
    var r := Top(s);
    TopShape(s);
    forall k | 0 <= k < |r| ensures r[k] in s {
      assert r[k] in multiset(r);
    }
  }

  /** In a list whose labels are distinct, no entry occurs twice. */
  lemma {:induction false} EntryOnce(t: seq<Entry>, e: Entry)
    requires forall i, j :: 0 <= i < j < |t| ==> t[i].0 != t[j].0
    ensures multiset(t)[e] <= 1
  {
    if t != [] {
      var front := t[..|t| - 1];
      var last := t[|t| - 1];
      assert t == front + [last];
      EntryOnce(front, e);
      if last == e {
        assert e !in front by {
          forall k | 0 <= k < |front| ensures front[k] != e {
            assert front[k].0 == t[k].0 != t[|t| - 1].0;
          }
        }
      }
    }
  }

  /** Two equal entries at two positions occur twice in the multiset. */
  lemma TwiceInMultiset(r: seq<Entry>, i: nat, j: nat)
    requires i < j < |r|
    ensures r[i] == r[j] ==> multiset(r)[r[j]] >= 2
  {
    var before := r[..j];
    assert r == before + [r[j]] + r[j + 1..];
    assert r[i] == before[i];
    assert r[i] in multiset(before);
  }

  /** The cut of a frequency map holds no label twice. */
  lemma TopOfTallyDistinct(labels: seq<string>)
    ensures forall i, j :: 0 <= i < j < |Top(Tally(labels))| ==> Top(Tally(labels))[i].0 != Top(Tally(labels))[j].0
  {
    var t := Tally(labels);
    var r := Top(t);
    TopShape(t);
    TopMembers(t);
    TallyMembers(labels);
    TallyDistinct(labels);
    forall i, j | 0 <= i < j < |r| ensures r[i].0 != r[j].0 {
      assert r[i] in t && r[j] in t;
      assert r[i].0 == r[j].0 ==> r[i] == r[j];
      TwiceInMultiset(r, i, j);
      EntryOnce(t, r[j]);
      assert multiset(r)[r[j]] <= multiset(t)[r[j]];
    }
  }

  /** A frequency map with at most `TopLimit` labels loses none of them to
      the cut. */
  lemma TopOfTallyKeepsAll(labels: seq<string>, x: string)
    requires |FirstSeen(labels)| <= TopLimit && x in labels
    ensures exists k :: 0 <= k < |Top(Tally(labels))| && Top(Tally(labels))[k].0 == x
  {
    var t := Tally(labels);
    var r := Top(t);
    TopShape(t);
    assert |t| == |FirstSeen(labels)|;
    var rest := multiset(t) - multiset(r);
    assert multiset(t) == multiset(r) + rest;
    assert |rest| == 0;
    assert multiset(t) == multiset(r);
    TallyCovers(labels, x);
    var e := (x, Count(labels, x));
    assert e in multiset(r);
    var k :| 0 <= k < |r| && r[k] == e;
    assert r[k].0 == x;
  }

  /** The cut applied to the items of a frequency map keeps
      `min(TopLimit, number of distinct labels)` entries, largest count
      first, each a counted label with its own count, no label twice, and
      every label when there are at most `TopLimit` of them: the keys of the
      `dict` the payload holds. */
  lemma TopOfTally(labels: seq<string>)
    ensures |Top(Tally(labels))| == Min(TopLimit, |FirstSeen(labels)|)
    ensures SortedDesc(Top(Tally(labels)))
    ensures forall k :: 0 <= k < |Top(Tally(labels))| ==>
      Top(Tally(labels))[k].0 in labels && Top(Tally(labels))[k].1 == Count(labels, Top(Tally(labels))[k].0)
    ensures forall i, j :: 0 <= i < j < |Top(Tally(labels))| ==> Top(Tally(labels))[i].0 != Top(Tally(labels))[j].0
    ensures |FirstSeen(labels)| <= TopLimit ==>
      forall x :: x in labels ==> exists k :: 0 <= k < |Top(Tally(labels))| && Top(Tally(labels))[k].0 == x
  {
    var t := Tally(labels);
    var r := Top(t);
    TopShape(t);
    TopMembers(t);
    TallyMembers(labels);
    forall k | 0 <= k < |r| ensures r[k].0 in labels && r[k].1 == Count(labels, r[k].0) {
      assert r[k] in t;
    }
    TopOfTallyDistinct(labels);
    if |FirstSeen(labels)| <= TopLimit {
      forall x | x in labels ensures exists k :: 0 <= k < |r| && r[k].0 == x {
        TopOfTallyKeepsAll(labels, x);
      }
    }
  }

  /** No counted label that the cut leaves out was counted more often than
      the last label kept. */
  lemma TopOfTallyDropsOnlySmaller(labels: seq<string>, x: string)
    requires x in labels
    requires forall k :: 0 <= k < |Top(Tally(labels))| ==> Top(Tally(labels))[k].0 != x
    ensures Top(Tally(labels)) != [] && Count(labels, x) <= Top(Tally(labels))[|Top(Tally(labels))| - 1].1
  {
    var t := Tally(labels);
    var r := Top(t);
    var fs := FirstSeen(labels);
    FirstSeenMembers(labels);
    var i :| 0 <= i < |fs| && fs[i] == x;
    var e := t[i];
    assert e == (x, CountMap(labels)[x]);
    assert e !in r by {
      forall k | 0 <= k < |r| ensures r[k] != e {
        assert r[k].0 != x;
      }
    }
    assert e in multiset(t);
    var dropped := multiset(t) - multiset(r);
    assert dropped[e] == multiset(t)[e] - multiset(r)[e];
    TopDropsOnlySmaller(t);
    assert e in dropped;
  }
}
