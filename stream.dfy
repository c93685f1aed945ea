/** The progress stream controller (`analyze` and its `generate`): the
    sequence of events one request emits. */
module Stream {
  import opened Common
  import opened PyStr
  import opened Resolver
  import opened Extractor
  import opened Aggregator
  import opened TopN

  /** One server-sent event. `Failed` and `Finished` both carry `"done": true`. */
  datatype Event =
    | Progress(percent: int)
    | Failed(message: string)
    | Finished(wins: seq<Entry>, losses: seq<Entry>)

  const EmptyIdMessage := "Player ID cannot be empty"
  const FetchFailedMessage := "Failed to fetch match endings"
  const NoMatchesMessage := "No matches found"

  /** The resolver's outcome for a history-page URL: `None` when fetching or
      parsing it raised, otherwise the hrefs of its match anchors in
      document order. */
  type HistoryFetcher = string -> Option<seq<string>>

  /** The page the `i`-th match fetch returns for a URL; a fetch that raised
      is the empty markup, which has no attack section (`None`). */
  type MatchFetcher = (nat, string) -> MatchPage

  /** `a // b` for a non-negative `a`, by repeated subtraction; keeping the
      definition linear keeps every progress value cheap to reason about. */
  function Quotient(a: nat, b: nat): nat
    requires 0 < b
    decreases a
  {
    if a < b then 0 else 1 + Quotient(a - b, b)
  }

  /** Quotient is floor division: the largest `q` with `q * b <= a`. */
  lemma {:induction false} QuotientIsFloor(a: nat, b: nat)
    requires 0 < b
    ensures Quotient(a, b) * b <= a < Quotient(a, b) * b + b
    decreases a
  {
    if a >= b {
      QuotientIsFloor(a - b, b);
      var q := Quotient(a - b, b);
      assert (1 + q) * b == q * b + b;
    }
  }

  lemma {:induction false} QuotientMonotone(a: nat, c: nat, b: nat)
    requires 0 < b && a <= c
    ensures Quotient(a, b) <= Quotient(c, b)
    decreases a
  {
    if a >= b {
      QuotientMonotone(a - b, c - b, b);
    }
  }

  lemma {:induction false} QuotientOfMultiple(k: nat, b: nat)
    requires 0 < b
    ensures Quotient(k * b, b) == k
  {
    if k > 0 {
      assert k * b - b == (k - 1) * b;
      QuotientOfMultiple(k - 1, b);
    }
  }

  /** The progress after match `i` of `total`: 15 plus the integer part of
      80 times the fraction of matches done. */
  function ProgressAt(i: nat, total: nat): (r: int)
    requires 0 < total
    ensures (r - 15) * total <= 80 * (i + 1) < (r - 14) * total
  {
    QuotientIsFloor(80 * (i + 1), total);
    15 + Quotient(80 * (i + 1), total)
  }

  /** Every per-match progress lies in 16..95 (at most 80 matches), and the
      last one is 95. */
  lemma ProgressBounds(i: nat, total: nat)
    requires i < total <= 80
    ensures 16 <= ProgressAt(i, total) <= 95
    ensures i == total - 1 ==> ProgressAt(i, total) == 95
  {
    assert 80 * (i + 1) >= total;
    assert 80 * (i + 1) <= 80 * total;
    QuotientMonotone(80 * (i + 1), 80 * total, total);
    QuotientOfMultiple(80, total);
  }

  /** With at most 80 matches, each match raises the progress. */
  lemma ProgressIncreasing(i: nat, total: nat)
    requires i + 1 < total <= 80
    ensures ProgressAt(i, total) < ProgressAt(i + 1, total)
  {
    var x := 80 * (i + 1);
    assert 80 * (i + 2) == x + 80;
    QuotientMonotone(x + total, x + 80, total);
    assert Quotient(x + total, total) == 1 + Quotient(x, total);
  }

  /** The per-match progress events after the first `k` of `total` matches. */
  function ProgressRun(k: nat, total: nat): (r: seq<Event>)
    requires k <= total && 0 < total
    ensures |r| == k
  {
    if k == 0 then [] else ProgressRun(k - 1, total) + [Progress(ProgressAt(k - 1, total))]
  }

  lemma {:induction false} ProgressRunAt(k: nat, total: nat)
    requires k <= total && 0 < total
    ensures forall i :: 0 <= i < k ==> ProgressRun(k, total)[i] == Progress(ProgressAt(i, total))
  {
    if k > 0 {
      ProgressRunAt(k - 1, total);
    }
  }

  /** The win labels of each match, in the order the matches are fetched. */
  function MatchWins(playerId: string, endings: seq<string>, fetchMatch: MatchFetcher): (r: seq<seq<string>>)
    ensures |r| == |endings|
  {
    seq(|endings|, i requires 0 <= i < |endings| => Offense(fetchMatch(i, MatchUrl(playerId, endings[i]))).0)
  }

  /** The loss labels of each match, in the order the matches are fetched. */
  function MatchLosses(playerId: string, endings: seq<string>, fetchMatch: MatchFetcher): (r: seq<seq<string>>)
    ensures |r| == |endings|
  {
    seq(|endings|, i requires 0 <= i < |endings| => Offense(fetchMatch(i, MatchUrl(playerId, endings[i]))).1)
  }

  /** The terminal payload after all matches were counted. */
  function Final(playerId: string, endings: seq<string>, fetchMatch: MatchFetcher): (r: Event)
    ensures r.Finished? && |r.wins| <= TopLimit && |r.losses| <= TopLimit
  {
    var wins := Tally(Concat(MatchWins(playerId, endings, fetchMatch)));
    var losses := Tally(Concat(MatchLosses(playerId, endings, fetchMatch)));
    var topWins, topLosses := Top(wins), Top(losses);
    assert |topWins| <= TopLimit && |topLosses| <= TopLimit;
    Finished(topWins, topLosses)
  }

  /** The progress events of a run over `n` endings: 15, one per match, 100. */
  function Milestones(n: nat): (r: seq<Event>)
    requires 0 < n
    ensures |r| == n + 2
  {
    [Progress(15)] + ProgressRun(n, n) + [Progress(100)]
  }

  /** What a run with at least one ending emits after progress 5. */
  function Success(playerId: string, endings: seq<string>, fetchMatch: MatchFetcher): seq<Event>
    requires endings != []
  {
    Milestones(|endings|) + [Final(playerId, endings, fetchMatch)]
  }

  /** Everything emitted after the initial progress of 5. */
  function AfterStart(playerId: string, history: Option<seq<string>>, fetchMatch: MatchFetcher): seq<Event>
  {
    match history
    case None => [Failed(FetchFailedMessage)]
    case Some(hrefs) =>
      var endings := Endings(playerId, hrefs);
      if endings == [] then [Failed(NoMatchesMessage)]
      else Success(playerId, endings, fetchMatch)
  }

  /** The events of one request for the raw `player_id` argument ("" when
      absent). */
  function Events(rawId: string, fetchHistory: HistoryFetcher, fetchMatch: MatchFetcher): seq<Event>
  {
    var playerId := Strip(rawId, Whitespace);
    if playerId == [] then [Failed(EmptyIdMessage)]
    else [Progress(5)] + AfterStart(playerId, fetchHistory(HistoryUrl(playerId)), fetchMatch)
  }

  /** One match's contribution: fetch the page of the `i`-th ending, extract
      its wins and losses and count each label once per occurrence into its
      side's totals. */
  method CountMatch(playerId: string, endings: seq<string>, fetchMatch: MatchFetcher, i: nat,
                    winTotals: Totals, lossTotals: Totals)
    requires i < |endings|
    requires winTotals != lossTotals && winTotals.Valid() && lossTotals.Valid()
    modifies winTotals, lossTotals
    ensures winTotals.Valid() && winTotals.History == old(winTotals.History) + MatchWins(playerId, endings, fetchMatch)[i]
    ensures lossTotals.Valid() && lossTotals.History == old(lossTotals.History) + MatchLosses(playerId, endings, fetchMatch)[i]
  {
    var html := fetchMatch(i, MatchUrl(playerId, endings[i]));
    var wins, losses := ExtractOffenseBattles(html);
    CountLabels(winTotals, wins);
    CountLabels(lossTotals, losses);
  }

  /** The match loop of `generate`: per ending, in order, one fetch, the
      extraction, the counting and one progress event. */
  method CountMatches(playerId: string, endings: seq<string>, fetchMatch: MatchFetcher)
    returns (winTotals: Totals, lossTotals: Totals, progress: seq<Event>)
    requires endings != []
    ensures fresh(winTotals) && fresh(lossTotals) && winTotals != lossTotals
    ensures winTotals.Valid() && winTotals.History == Concat(MatchWins(playerId, endings, fetchMatch))
    ensures lossTotals.Valid() && lossTotals.History == Concat(MatchLosses(playerId, endings, fetchMatch))
    ensures progress == ProgressRun(|endings|, |endings|)
  {
    var total := |endings|;
    winTotals := new Totals();
    lossTotals := new Totals();
    progress := [];
    ghost var winsPerMatch := MatchWins(playerId, endings, fetchMatch);
    ghost var lossesPerMatch := MatchLosses(playerId, endings, fetchMatch);
    var i := 0;
    while i < total
      invariant 0 <= i <= total
      invariant fresh(winTotals) && fresh(lossTotals) && winTotals != lossTotals
      invariant winTotals.Valid() && winTotals.History == Concat(winsPerMatch[..i])
      invariant lossTotals.Valid() && lossTotals.History == Concat(lossesPerMatch[..i])
      invariant progress == ProgressRun(i, total)
    {
      CountMatch(playerId, endings, fetchMatch, i, winTotals, lossTotals);
      ConcatPrefixSnoc(winsPerMatch, i);
      ConcatPrefixSnoc(lossesPerMatch, i);
      progress := progress + [Progress(ProgressAt(i, total))];
      i := i + 1;
    }
    assert winsPerMatch[..i] == winsPerMatch;
    assert lossesPerMatch[..i] == lossesPerMatch;
  }

  /** The part of `generate` after the endings were resolved: progress 15,
      the match loop, then the final cut, progress 100 and the payload. */
  method AnalyzeMatches(playerId: string, endings: seq<string>, fetchMatch: MatchFetcher)
    returns (events: seq<Event>)
    requires endings != []
    ensures events == Success(playerId, endings, fetchMatch)
  {
    events := [Progress(15)];
    var winTotals, lossTotals, progress := CountMatches(playerId, endings, fetchMatch);
    events := events + progress;
    var sortedWins := Top(winTotals.Items());
    var sortedLosses := Top(lossTotals.Items());
    events := events + [Progress(100), Finished(sortedWins, sortedLosses)];
  }

  /** `analyze` with its generator: the events in the order they are
      yielded. */
  method Generate(rawId: string, fetchHistory: HistoryFetcher, fetchMatch: MatchFetcher)
    returns (events: seq<Event>)
    ensures events == Events(rawId, fetchHistory, fetchMatch)
  {
    var playerId := Strip(rawId, Whitespace);
    if playerId == [] {
      return [Failed(EmptyIdMessage)];
    }
    events := [Progress(5)];
    var history := fetchHistory(HistoryUrl(playerId));
    if history.None? {
      events := events + [Failed(FetchFailedMessage)];
      return;
    }
    var endings := MatchEndings(playerId, history.value);
    if endings == [] {
      events := events + [Failed(NoMatchesMessage)];
      return;
    }
    var rest := AnalyzeMatches(playerId, endings, fetchMatch);
    events := events + rest;
  }

  lemma {:induction false} ProgressStrictlyIncreasing(a: nat, b: nat, total: nat)
    requires a < b < total <= 80
    ensures ProgressAt(a, total) < ProgressAt(b, total)
    decreases b - a
  {
    ProgressIncreasing(b - 1, total);
    if a < b - 1 {
      ProgressStrictlyIncreasing(a, b - 1, total);
    }
  }

  /** The three failures: an empty player id gives only its error; a
      failing resolver and a history page without match anchors give
      progress 5 and their error. */
  lemma EventsOnError(rawId: string, fetchHistory: HistoryFetcher, fetchMatch: MatchFetcher)
    ensures var playerId := Strip(rawId, Whitespace);
      playerId == [] ==> Events(rawId, fetchHistory, fetchMatch) == [Failed(EmptyIdMessage)]
    ensures var playerId := Strip(rawId, Whitespace);
      playerId != [] && fetchHistory(HistoryUrl(playerId)).None? ==>
        Events(rawId, fetchHistory, fetchMatch) == [Progress(5), Failed(FetchFailedMessage)]
    ensures var playerId := Strip(rawId, Whitespace);
      playerId != [] && fetchHistory(HistoryUrl(playerId)) == Some([]) ==>
        Events(rawId, fetchHistory, fetchMatch) == [Progress(5), Failed(NoMatchesMessage)]
  {
    var playerId := Strip(rawId, Whitespace);
    if playerId != [] && fetchHistory(HistoryUrl(playerId)) == Some([]) {
      assert Endings(playerId, []) == [];
    }
  }

  /** The milestones of `n` endings: progress 15, the `n` per-match values
      in match order, then 100. */
  lemma MilestonesShape(n: nat)
    requires 0 < n
    ensures var ms := Milestones(n);
      ms[0] == Progress(15) &&
      (forall i :: 1 <= i <= n ==> ms[i] == Progress(ProgressAt(i - 1, n))) &&
      ms[n + 1] == Progress(100)
  {
    var ms := Milestones(n);
    var run := ProgressRun(n, n);
    ProgressRunAt(n, n);
    forall i | 1 <= i <= n ensures ms[i] == Progress(ProgressAt(i - 1, n)) {
      assert ms[i] == run[i - 1];
    }
  }

  /** A run with at least one ending is its milestones followed by the
      payload. */
  lemma SuccessShape(playerId: string, endings: seq<string>, fetchMatch: MatchFetcher)
    requires endings != []
    ensures var ev := Success(playerId, endings, fetchMatch);
      |ev| == |endings| + 3 &&
      ev[..|endings| + 2] == Milestones(|endings|) &&
      ev[|endings| + 2] == Final(playerId, endings, fetchMatch)
  {
  }

  /** A request whose resolver finds match anchors emits progress 5 and then
      what Success describes, for the first `MaxMatches` endings. */
  lemma EventsOnSuccess(rawId: string, fetchHistory: HistoryFetcher, fetchMatch: MatchFetcher)
    requires Strip(rawId, Whitespace) != []
    requires fetchHistory(HistoryUrl(Strip(rawId, Whitespace))).Some?
    requires fetchHistory(HistoryUrl(Strip(rawId, Whitespace))).value != []
    ensures var playerId := Strip(rawId, Whitespace);
      var hrefs := fetchHistory(HistoryUrl(playerId)).value;
      var endings := Endings(playerId, hrefs);
      1 <= |endings| == Min(MaxMatches, |hrefs|) &&
      Events(rawId, fetchHistory, fetchMatch) == [Progress(5)] + Success(playerId, endings, fetchMatch)
  {
  }

  /** Progress events only, each within 0..100, strictly increasing. */
  predicate Rising(ps: seq<Event>)
  {
    (forall i :: 0 <= i < |ps| ==> ps[i].Progress? && 0 <= ps[i].percent <= 100) &&
    (forall i, j :: 0 <= i < j < |ps| ==> ps[i].percent < ps[j].percent)
  }

  /** A well-formed stream: rising progress, then exactly one terminal event. */
  predicate WellFormed(ev: seq<Event>)
  {
    ev != [] && !ev[|ev| - 1].Progress? && Rising(ev[..|ev| - 1])
  }

  /** Each milestone is a progress event within 15..100. */
  lemma MilestoneInRange(n: nat, i: nat)
    requires 0 < n <= 80 && i < n + 2
    ensures Milestones(n)[i].Progress? && 15 <= Milestones(n)[i].percent <= 100
  {
    MilestonesShape(n);
    if 1 <= i <= n {
      ProgressBounds(i - 1, n);
    }
  }

  /** A later milestone carries a larger progress. */
  lemma MilestonesOrdered(n: nat, i: nat, j: nat)
    requires 0 < n <= 80 && i < j < n + 2
    ensures Milestones(n)[i].Progress? && Milestones(n)[j].Progress?
    ensures Milestones(n)[i].percent < Milestones(n)[j].percent
  {
    MilestonesShape(n);
    if 1 <= i && j <= n {
      ProgressStrictlyIncreasing(i - 1, j - 1, n);
    } else if i == 0 && j <= n {
      ProgressBounds(j - 1, n);
    } else if 1 <= i <= n {
      ProgressBounds(i - 1, n);
    }
  }

  /** With at most 80 endings the milestones rise, all from 15 on. */
  lemma MilestonesRising(n: nat)
    requires 0 < n <= 80
    ensures Rising(Milestones(n))
    ensures forall i :: 0 <= i < n + 2 ==> Milestones(n)[i].percent >= 15
  {
    var ms := Milestones(n);
    forall i | 0 <= i < n + 2 ensures ms[i].Progress? && 15 <= ms[i].percent <= 100 {
      MilestoneInRange(n, i);
    }
    forall i, j | 0 <= i < j < n + 2 ensures ms[i].percent < ms[j].percent {
      MilestonesOrdered(n, i, j);
    }
  }

  /** A progress below every later one keeps a rising run rising. */
  lemma {:induction false} RisingCons(p: int, ps: seq<Event>)
    requires 0 <= p <= 100 && Rising(ps)
    requires forall i :: 0 <= i < |ps| ==> p < ps[i].percent
    ensures Rising([Progress(p)] + ps)
  {
    var ev := [Progress(p)] + ps;
    forall i | 0 <= i < |ev| ensures ev[i].Progress? && 0 <= ev[i].percent <= 100 {
      if i > 0 {
        assert ev[i] == ps[i - 1];
      }
    }
    forall i, j | 0 <= i < j < |ev| ensures ev[i].percent < ev[j].percent {
      assert ev[j] == ps[j - 1];
      if i > 0 {
        assert ev[i] == ps[i - 1];
      }
    }
  }

  /** Progress 5, the milestones of at most 80 endings and then any
      terminal event form a well-formed stream. */
  lemma MilestonesWellFormed(n: nat, last: Event)
    requires 0 < n <= 80 && !last.Progress?
    ensures WellFormed([Progress(5)] + (Milestones(n) + [last]))
  {
    var ev := [Progress(5)] + (Milestones(n) + [last]);
    MilestonesRising(n);
    RisingCons(5, Milestones(n));
    assert ev[..|ev| - 1] == [Progress(5)] + Milestones(n);
  }

  /** A run over at most 80 endings, after progress 5, is well formed. */
  lemma SuccessWellFormed(playerId: string, endings: seq<string>, fetchMatch: MatchFetcher)
    requires 1 <= |endings| <= 80
    ensures WellFormed([Progress(5)] + Success(playerId, endings, fetchMatch))
  {
    MilestonesWellFormed(|endings|, Final(playerId, endings, fetchMatch));
  }

  /** A terminal event alone, or after progress 5, is a well-formed stream. */
  lemma FailureWellFormed(start: seq<Event>, last: Event)
    requires start == [] || start == [Progress(5)]
    requires !last.Progress?
    ensures WellFormed(start + [last])
  {
    assert (start + [last])[..|start|] == start;
  }

  /** Whatever the input and the fetches, the stream is well formed. */
  lemma EventsWellFormed(rawId: string, fetchHistory: HistoryFetcher, fetchMatch: MatchFetcher)
    ensures WellFormed(Events(rawId, fetchHistory, fetchMatch))
  {
    var playerId := Strip(rawId, Whitespace);
    if playerId == [] {
      FailureWellFormed([], Failed(EmptyIdMessage));
    } else {
      var history := fetchHistory(HistoryUrl(playerId));
      assert Events(rawId, fetchHistory, fetchMatch) == [Progress(5)] + AfterStart(playerId, history, fetchMatch);
      if history.None? {
        FailureWellFormed([Progress(5)], Failed(FetchFailedMessage));
      } else {
        var endings := Endings(playerId, history.value);
        if endings == [] {
          FailureWellFormed([Progress(5)], Failed(NoMatchesMessage));
        } else {
          SuccessWellFormed(playerId, endings, fetchMatch);
        }
      }
    }
  }

  /** The payload of a successful run: per side, the top of the counts over
      the labels of all matches, as TopOfTally describes it: no label twice,
      and every label of the side when it has at most `TopLimit` of them. */
  lemma FinalPayload(playerId: string, endings: seq<string>, fetchMatch: MatchFetcher)
    ensures var allWins := Concat(MatchWins(playerId, endings, fetchMatch));
      var allLosses := Concat(MatchLosses(playerId, endings, fetchMatch));
      var wins := Final(playerId, endings, fetchMatch).wins;
      var losses := Final(playerId, endings, fetchMatch).losses;
      |wins| == Min(TopLimit, |FirstSeen(allWins)|) && SortedDesc(wins) &&
      (forall k :: 0 <= k < |wins| ==> wins[k].0 in allWins && wins[k].1 == Count(allWins, wins[k].0)) &&
      |losses| == Min(TopLimit, |FirstSeen(allLosses)|) && SortedDesc(losses) &&
      (forall k :: 0 <= k < |losses| ==> losses[k].0 in allLosses && losses[k].1 == Count(allLosses, losses[k].0)) &&
      (forall i, j :: 0 <= i < j < |wins| ==> wins[i].0 != wins[j].0) &&
      (forall i, j :: 0 <= i < j < |losses| ==> losses[i].0 != losses[j].0) &&
      (|FirstSeen(allWins)| <= TopLimit ==> forall x :: x in allWins ==> exists k :: 0 <= k < |wins| && wins[k].0 == x) &&
      (|FirstSeen(allLosses)| <= TopLimit ==> forall x :: x in allLosses ==> exists k :: 0 <= k < |losses| && losses[k].0 == x)
  {
    TopOfTally(Concat(MatchWins(playerId, endings, fetchMatch)));
    TopOfTally(Concat(MatchLosses(playerId, endings, fetchMatch)));
  }

  /** A resolver that knows only the history page of `playerId`, whose
      anchors are `hrefs`. */
  function HistoryOnly(playerId: string, hrefs: seq<string>): HistoryFetcher
  {
    (url: string) => if url == HistoryUrl(playerId) then Some(hrefs) else None
  }

  /** A match fetch that serves `page` for the match `ending` of `playerId`
      and the empty markup for every other URL. */
  function PageOnly(playerId: string, ending: string, page: seq<Wrapper>): MatchFetcher
  {
    (i: nat, url: string) => if url == MatchUrl(playerId, ending) then Some(page) else None
  }

  /** A history page with one anchor to the match `ending` yields that one
      ending. */
  lemma {:induction false} OneHrefEnding(playerId: string, ending: string)
    requires '/' !in ending
    ensures Endings(playerId, [HistoryPath(playerId) + ending + "/"]) == [ending]
  {
    var href := HistoryPath(playerId) + ending + "/";
    EndingOfMatchPath(playerId, ending);
    var tokens := Tokens(playerId, [href]);
    assert |tokens| == 1 && tokens[0] == ending;
  }

  /** A page with one winning wrapper reading `a`, `w` and one losing wrapper
      reading `b`, `l` yields the win `w` and the loss `l`. */
  lemma {:induction false} OneMatchOffense(winClasses: seq<string>, lossClasses: seq<string>, a: string, w: string, b: string, l: string)
    requires PositiveClass in winClasses && PositiveClass !in lossClasses
    requires a != "" && w != "" && b != "" && l != ""
    ensures Offense(Some([Wrapper(winClasses, [[a, w]]), Wrapper(lossClasses, [[b, l]])])) == ([w], [l])
  {
    var win, loss := Wrapper(winClasses, [[a, w]]), Wrapper(lossClasses, [[b, l]]);
    KeptPair(winClasses, a, w);
    KeptPair(lossClasses, b, l);
    assert [win, loss] == [win] + [loss];
    WinsLossesAppend([win], [loss]);
    GatherOne(win, WinPart);
    GatherOne(loss, WinPart);
    GatherOne(win, LossPart);
    GatherOne(loss, LossPart);
    assert WinPart(win) == [w] && WinPart(loss) == [];
    assert LossPart(win) == [] && LossPart(loss) == [l];
    assert [w] + [] == [w] && [] + [l] == [l];
    assert WinsOf([win, loss]) == [w];
    assert LossesOf([win, loss]) == [l];
  }

  /** A side on which one label was seen once reports just that label. */
  lemma {:induction false} TopOfOne(x: string)
    ensures Top(Tally(Concat([[x]]))) == [(x, 1)]
  {
    assert Concat([[x]]) == [x] by {
      assert [[x]][..0] == [];
    }
    assert Tally([x]) == [(x, 1)] by {
      assert [x][..0] == [];
      assert FirstSeen([x]) == [x];
      assert Count([x], x) == 1;
    }
    TopOfTally([x]);
  }

  /** One match whose page yields the win `w` and the loss `l` ends with
      each label at a count of one. */
  lemma {:induction false} OneMatchFinal(playerId: string, ending: string, page: seq<Wrapper>, w: string, l: string)
    requires Offense(Some(page)) == ([w], [l])
    ensures Final(playerId, [ending], PageOnly(playerId, ending, page)) == Finished([(w, 1)], [(l, 1)])
  {
    var fetchMatch := PageOnly(playerId, ending, page);
    assert fetchMatch(0, MatchUrl(playerId, ending)) == Some(page);
    assert MatchWins(playerId, [ending], fetchMatch) == [[w]];
    assert MatchLosses(playerId, [ending], fetchMatch) == [[l]];
    TopOfOne(w);
    TopOfOne(l);
  }

  /** A single match runs from 15 to 95 and then 100. */
  lemma {:induction false} OneMatchMilestones()
    ensures Milestones(1) == [Progress(15), Progress(95), Progress(100)]
  {
    ProgressBounds(0, 1);
    assert ProgressRun(1, 1) == [Progress(95)];
  }

  lemma {:induction false} OneMatchSuccess(playerId: string, ending: string, page: seq<Wrapper>, w: string, l: string)
    requires Offense(Some(page)) == ([w], [l])
    ensures Success(playerId, [ending], PageOnly(playerId, ending, page))
      == [Progress(15), Progress(95), Progress(100), Finished([(w, 1)], [(l, 1)])]
  {
    OneMatchFinal(playerId, ending, page, w, l);
    OneMatchMilestones();
    SnocThree(Milestones(1), Progress(15), Progress(95), Progress(100), Final(playerId, [ending], PageOnly(playerId, ending, page)));
  }

  /** Breaks the equality of a three-element display plus one event into a
      step the solver handles cheaply. */
  lemma SnocThree(ms: seq<Event>, x: Event, y: Event, z: Event, last: Event)
    requires ms == [x, y, z]
    ensures ms + [last] == [x, y, z, last]
  {
  }

  lemma {:induction false} OneMatchEvents(playerId: string, ending: string, fetchMatch: MatchFetcher)
    requires playerId != [] && playerId[0] !in Whitespace && playerId[|playerId| - 1] !in Whitespace
    requires '/' !in ending
    ensures Events(playerId, HistoryOnly(playerId, [HistoryPath(playerId) + ending + "/"]), fetchMatch)
      == [Progress(5)] + Success(playerId, [ending], fetchMatch)
  {
    var href := HistoryPath(playerId) + ending + "/";
    var fetchHistory := HistoryOnly(playerId, [href]);
    assert [] + playerId + [] == playerId;
    StripUnique([], playerId, [], Whitespace);
    OneHrefEnding(playerId, ending);
    assert fetchHistory(HistoryUrl(playerId)) == Some([href]);
    EventsOnSuccess(playerId, fetchHistory, fetchMatch);
  }

  /** Breaks the equality of one event followed by a four-element sequence
      into a step the solver handles cheaply. */
  lemma ConsFour(ev: seq<Event>, x: Event, tail: seq<Event>)
    requires |tail| == 4 && ev == [x] + tail
    ensures ev == [x, tail[0], tail[1], tail[2], tail[3]]
  {
  }

  /** End to end: a player (an id without surrounding whitespace) whose
      history links one match, whose page has one winning wrapper reading
      `a`, `w` and one losing wrapper reading `b`, `l`, sees progress 5, 15,
      95, 100 and then `{w: 1}` as wins and `{l: 1}` as losses. */
  lemma {:induction false} OneMatchRun(playerId: string, ending: string, winClasses: seq<string>, lossClasses: seq<string>,
                    a: string, w: string, b: string, l: string)
    requires playerId != [] && playerId[0] !in Whitespace && playerId[|playerId| - 1] !in Whitespace
    requires '/' !in ending
    requires PositiveClass in winClasses && PositiveClass !in lossClasses
    requires a != "" && w != "" && b != "" && l != ""
    ensures Events(playerId, HistoryOnly(playerId, [HistoryPath(playerId) + ending + "/"]),
                   PageOnly(playerId, ending, [Wrapper(winClasses, [[a, w]]), Wrapper(lossClasses, [[b, l]])]))
      == [Progress(5), Progress(15), Progress(95), Progress(100), Finished([(w, 1)], [(l, 1)])]
  {
    var page := [Wrapper(winClasses, [[a, w]]), Wrapper(lossClasses, [[b, l]])];
    var fetchHistory := HistoryOnly(playerId, [HistoryPath(playerId) + ending + "/"]);
    var fetchMatch := PageOnly(playerId, ending, page);
    var tail := [Progress(15), Progress(95), Progress(100), Finished([(w, 1)], [(l, 1)])];
    assert Success(playerId, [ending], fetchMatch) == tail by {
      OneMatchOffense(winClasses, lossClasses, a, w, b, l);
      OneMatchSuccess(playerId, ending, page, w, l);
    }
    OneMatchEvents(playerId, ending, fetchMatch);
    var ev := Events(playerId, fetchHistory, fetchMatch);
    assert ev == [Progress(5)] + tail;
    ConsFour(ev, Progress(5), tail);
  }
}
