/** The extractor (`extract_offense_battles`): the opponent labels of the
    player's offensive wins and losses on one match page. */
module Extractor {
  import opened Common

  /** The class that marks a won battle. */
  const PositiveClass := "paper--positive"

  /** One battle wrapper selected in the attack section, in document order:
      its class list and, per opponent-row container, the stripped texts of
      the container's class-less inner divs. */
  datatype Wrapper = Wrapper(classes: seq<string>, containers: seq<seq<string>>)

  /** A match page: `None` when it has no `battles-attack` div (this includes
      the empty markup a failed fetch is replaced by), otherwise the wrappers
      of that div. */
  type MatchPage = Option<seq<Wrapper>>

  predicate IsWin(w: Wrapper)
  {
    PositiveClass in w.classes
  }

  /** The non-empty texts of one container, in order. */
  function NonEmpty(texts: seq<string>): seq<string>
  {
    if texts == [] then []
    else
      var last := texts[|texts| - 1];
      NonEmpty(texts[..|texts| - 1]) + (if last != "" then [last] else [])
  }

  /** `if text:` — exactly the non-empty texts survive, none is invented. */
  lemma {:induction false} NonEmptyMembers(texts: seq<string>)
    ensures |NonEmpty(texts)| <= |texts|
    ensures forall t :: t in NonEmpty(texts) <==> t in texts && t != ""
  {
    if texts != [] {
      var front := texts[..|texts| - 1];
      NonEmptyMembers(front);
      assert forall t :: t in texts <==> t in front || t == texts[|texts| - 1];
    }
  }

  /** `results_here`: the non-empty texts of all containers of a wrapper,
      container after container. */
  function Texts(containers: seq<seq<string>>): seq<string>
  {
    if containers == [] then []
    else Texts(containers[..|containers| - 1]) + NonEmpty(containers[|containers| - 1])
  }

  /** A text is collected exactly when it is non-empty and some container of
      the wrapper holds it. */
  lemma {:induction false} TextsMembers(containers: seq<seq<string>>)
    ensures forall t :: t in Texts(containers) <==> t != "" && exists c :: c in containers && t in c
  {
    if containers != [] {
      var front := containers[..|containers| - 1];
      var last := containers[|containers| - 1];
      TextsMembers(front);
      NonEmptyMembers(last);
      assert forall c :: c in containers <==> c in front || c == last;
    }
  }

  /** `[txt for i, txt in enumerate(s) if i % 2 == 1]` */
  function OddIndexed(s: seq<string>): (r: seq<string>)
    ensures |r| == |s| / 2
  {
    if |s| < 2 then [] else [s[1]] + OddIndexed(s[2..])
  }

  lemma {:induction false} OddIndexedAt(s: seq<string>)
    ensures |OddIndexed(s)| == |s| / 2
    ensures forall j :: 0 <= j < |s| / 2 ==> OddIndexed(s)[j] == s[2 * j + 1]
  {
    if |s| >= 2 {
      OddIndexedAt(s[2..]);
      var r := OddIndexed(s);
      forall j | 0 <= j < |s| / 2 ensures r[j] == s[2 * j + 1] {
        if j > 0 {
          assert r[j] == OddIndexed(s[2..])[j - 1];
        }
      }
    }
  }

  /** What one wrapper contributes to its bucket: the odd-indexed entries of
      the non-empty texts of the whole wrapper. */
  function Kept(w: Wrapper): seq<string>
  {
    OddIndexed(Texts(w.containers))
  }

  /** The contributions `part(w)` of the wrappers `ws`, wrapper after wrapper. */
  function Gather(ws: seq<Wrapper>, part: Wrapper -> seq<string>): seq<string>
  {
    if ws == [] then [] else Gather(ws[..|ws| - 1], part) + part(ws[|ws| - 1])
  }

  /** What a wrapper adds to `wins_raw`. */
  function WinPart(w: Wrapper): seq<string>
  {
    if IsWin(w) then Kept(w) else []
  }

  /** What a wrapper adds to `losses_raw`. */
  function LossPart(w: Wrapper): seq<string>
  {
    if IsWin(w) then [] else Kept(w)
  }

  function WinsOf(ws: seq<Wrapper>): seq<string>
  {
    Gather(ws, WinPart)
  }

  function LossesOf(ws: seq<Wrapper>): seq<string>
  {
    Gather(ws, LossPart)
  }

  /** What the extractor returns for a page: `(wins, losses)`. */
  function Offense(page: MatchPage): (r: (seq<string>, seq<string>))
    ensures page.Some? ==> multiset(r.0) + multiset(r.1) == multiset(AllKept(page.value))
  {
    match page
    case None => ([], [])
    case Some(ws) =>
      WinsLossesPartition(ws);
      (WinsOf(ws), LossesOf(ws))
  }

  /** The two inner loops of the extractor for one wrapper: `results_here`,
      collected container by container and div by div. */
  method CollectTexts(containers: seq<seq<string>>) returns (resultsHere: seq<string>)
    ensures resultsHere == Texts(containers)
  {
    resultsHere := [];
    var c := 0;
    while c < |containers|
      invariant 0 <= c <= |containers|
      invariant resultsHere == Texts(containers[..c])
    {
      var innerDivs := containers[c];
      var d := 0;
      while d < |innerDivs|
        invariant 0 <= d <= |innerDivs|
        invariant resultsHere == Texts(containers[..c]) + NonEmpty(innerDivs[..d])
      {
        var text := innerDivs[d];
        assert innerDivs[..d + 1][..d] == innerDivs[..d];
        if text != "" {
          resultsHere := resultsHere + [text];
        }
        d := d + 1;
      }
      assert innerDivs[..d] == innerDivs;
      assert containers[..c + 1][..c] == containers[..c];
      c := c + 1;
    }
    assert containers[..c] == containers;
  }

  /** `extract_offense_battles`: per wrapper, in order, collect its texts,
      keep the odd-indexed ones and extend the wrapper's side with them. */
  method ExtractOffenseBattles(page: MatchPage) returns (wins: seq<string>, losses: seq<string>)
    ensures (wins, losses) == Offense(page)
    ensures page.None? ==> wins == [] && losses == []
  {
    if page.None? {
      return [], [];
    }
    var wrappers := page.value;
    wins, losses := [], [];
    var i := 0;
    while i < |wrappers|
      invariant 0 <= i <= |wrappers|
      invariant wins == WinsOf(wrappers[..i]) && losses == LossesOf(wrappers[..i])
    {
      var wrapper := wrappers[i];
      var isWin := IsWin(wrapper);
      var resultsHere := CollectTexts(wrapper.containers);
      var filtered := OddIndexed(resultsHere);
      assert filtered == Kept(wrapper);
      assert wrappers[..i + 1][..i] == wrappers[..i];
      assert WinsOf(wrappers[..i + 1]) == wins + WinPart(wrapper);
      assert LossesOf(wrappers[..i + 1]) == losses + LossPart(wrapper);
      if isWin {
        wins := wins + filtered;
      } else {
        losses := losses + filtered;
      }
      i := i + 1;
    }
    assert wrappers[..i] == wrappers;
  }

  /** The wrappers' contributions, in wrapper order, wherever they go. */
  function AllKept(ws: seq<Wrapper>): seq<string>
  {
    Gather(ws, Kept)
  }

  /** Contributions are appended in wrapper order: the page splits at any
      wrapper. */
  lemma {:induction false} GatherAppend(a: seq<Wrapper>, b: seq<Wrapper>, part: Wrapper -> seq<string>)
    ensures Gather(a + b, part) == Gather(a, part) + Gather(b, part)
    decreases |b|
  {
    if b == [] {
      assert a + b == a;
    } else {
      var ab := a + b;
      assert ab[..|ab| - 1] == a + b[..|b| - 1];
      GatherAppend(a, b[..|b| - 1], part);
    }
  }

  /** A single wrapper contributes its part. */
  lemma GatherOne(w: Wrapper, part: Wrapper -> seq<string>)
    ensures Gather([w], part) == part(w)
  {
    assert [w][..0] == [];
  }

  lemma WinsLossesAppend(a: seq<Wrapper>, b: seq<Wrapper>)
    ensures WinsOf(a + b) == WinsOf(a) + WinsOf(b)
    ensures LossesOf(a + b) == LossesOf(a) + LossesOf(b)
  {
    GatherAppend(a, b, WinPart);
    GatherAppend(a, b, LossPart);
  }

  /** A label is among the wins exactly when some winning wrapper keeps it. */
  lemma {:induction false} WinsMembership(ws: seq<Wrapper>, x: string)
    ensures x in WinsOf(ws) <==> exists k :: 0 <= k < |ws| && IsWin(ws[k]) && x in Kept(ws[k])
  {
    if ws != [] {
      var front := ws[..|ws| - 1];
      WinsMembership(front, x);
      if x in WinsOf(ws) && x !in WinsOf(front) {
        assert IsWin(ws[|ws| - 1]) && x in Kept(ws[|ws| - 1]);
      }
      if exists k :: 0 <= k < |ws| && IsWin(ws[k]) && x in Kept(ws[k]) {
        var k :| 0 <= k < |ws| && IsWin(ws[k]) && x in Kept(ws[k]);
        if k < |ws| - 1 {
          assert front[k] == ws[k];
        }
      }
    }
  }

  /** A label is among the losses exactly when some wrapper without the
      positive class keeps it. */
  lemma {:induction false} LossesMembership(ws: seq<Wrapper>, x: string)
    ensures x in LossesOf(ws) <==> exists k :: 0 <= k < |ws| && !IsWin(ws[k]) && x in Kept(ws[k])
  {
    if ws != [] {
      var front := ws[..|ws| - 1];
      LossesMembership(front, x);
      if x in LossesOf(ws) && x !in LossesOf(front) {
        assert !IsWin(ws[|ws| - 1]) && x in Kept(ws[|ws| - 1]);
      }
      if exists k :: 0 <= k < |ws| && !IsWin(ws[k]) && x in Kept(ws[k]) {
        var k :| 0 <= k < |ws| && !IsWin(ws[k]) && x in Kept(ws[k]);
        if k < |ws| - 1 {
          assert front[k] == ws[k];
        }
      }
    }
  }

  /** Every kept label lands in exactly one bucket: wins and losses together
      are the wrappers' contributions, nothing lost and nothing duplicated. */
  lemma {:induction false} WinsLossesPartition(ws: seq<Wrapper>)
    ensures multiset(WinsOf(ws)) + multiset(LossesOf(ws)) == multiset(AllKept(ws))
  {
    if ws != [] {
      WinsLossesPartition(ws[..|ws| - 1]);
    }
  }

  /** Texts that are all non-empty are all collected, in order. */
  lemma {:induction false} NonEmptyKeepsAll(texts: seq<string>)
    requires forall k :: 0 <= k < |texts| ==> texts[k] != ""
    ensures NonEmpty(texts) == texts
  {
    if texts != [] {
      NonEmptyKeepsAll(texts[..|texts| - 1]);
      assert texts[..|texts| - 1] + [texts[|texts| - 1]] == texts;
    }
  }

  /** A wrapper with a single container collects that container's texts. */
  lemma TextsOfOne(texts: seq<string>)
    ensures Texts([texts]) == NonEmpty(texts)
  {
    assert [texts][..0] == [];
  }

  /** The first two texts contribute the second; the rest continues the
      parity. */
  lemma OddIndexedCons(x: string, y: string, rest: seq<string>)
    ensures OddIndexed([x, y] + rest) == [y] + OddIndexed(rest)
  {
    assert ([x, y] + rest)[2..] == rest;
  }

  /** A wrapper with one container of two non-empty texts keeps the second. */
  lemma KeptPair(cls: seq<string>, a: string, b: string)
    requires a != "" && b != ""
    ensures Kept(Wrapper(cls, [[a, b]])) == [b]
  {
    TextsOfOne([a, b]);
    NonEmptyKeepsAll([a, b]);
    assert [a, b] == [a, b] + [];
    OddIndexedCons(a, b, []);
  }

  /** The parity is taken over the whole wrapper: of four non-empty texts in
      one container the second and the fourth are kept. */
  lemma ParityOverTexts(cls: seq<string>, a: string, b: string, c: string, d: string)
    requires a != "" && b != "" && c != "" && d != ""
    ensures Kept(Wrapper(cls, [[a, b, c, d]])) == [b, d]
  {
    var t := [a, b, c, d];
    TextsOfOne(t);
    NonEmptyKeepsAll(t);
    assert t == [a, b] + [c, d];
    OddIndexedCons(a, b, [c, d]);
    assert [c, d] == [c, d] + [];
    OddIndexedCons(c, d, []);
  }

  /** The parity runs across containers: two one-text containers keep the
      second text, although each container on its own would keep nothing. */
  lemma ParityAcrossContainers(cls: seq<string>, a: string, b: string)
    requires a != "" && b != ""
    ensures Kept(Wrapper(cls, [[a], [b]])) == [b]
    ensures OddIndexed(NonEmpty([a])) + OddIndexed(NonEmpty([b])) == []
  {
    var cs := [[a], [b]];
    assert cs[..1] == [[a]];
    TextsOfOne([a]);
    NonEmptyKeepsAll([a]);
    NonEmptyKeepsAll([b]);
    assert Texts(cs) == [a] + [b];
    assert [a] + [b] == [a, b] + [];
    OddIndexedCons(a, b, []);
  }

  /** Empty texts are dropped before the parity is taken: `[a, "", b]`
      keeps `b`, not the empty text. */
  lemma ParityAfterDroppingEmpty(cls: seq<string>, a: string, b: string)
    requires a != "" && b != ""
    ensures Kept(Wrapper(cls, [[a, "", b]])) == [b]
  {
    var t := [a, "", b];
    TextsOfOne(t);
    assert t[..2] == [a, ""] && [a, ""][..1] == [a] && [a][..0] == [];
    assert NonEmpty([a]) == [a];
    assert NonEmpty([a, ""]) == [a];
    assert NonEmpty(t) == [a, b];
    assert [a, b] == [a, b] + [];
    OddIndexedCons(a, b, []);
  }
}
