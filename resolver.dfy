/** The endings resolver (`get_gac_match_endings`): turns the hrefs of the
    match anchors on a player's GAC history page into match ending tokens. */
module Resolver {
  import opened Common
  import opened PyStr

  /** How many of the most recent matches are analysed. */
  const MaxMatches := 6

  /** The site every page is fetched from. */
  const SiteRoot := "https://swgoh.gg"

  /** The site-relative path of a player's GAC history page. */
  function HistoryPath(playerId: string): string
  {
    "/p/" + playerId + "/gac-history/"
  }

  /** The absolute URL of a player's GAC history page. */
  function HistoryUrl(playerId: string): (r: string)
    ensures SiteRoot + "/p/" <= r
  {
    SiteRoot + HistoryPath(playerId)
  }

  /** Different players have different history pages. */
  lemma HistoryUrlInjective(p: string, q: string)
    ensures HistoryUrl(p) == HistoryUrl(q) ==> p == q
  {
    if HistoryUrl(p) == HistoryUrl(q) {
      var n := |SiteRoot + "/p/"|;
      assert HistoryUrl(p)[n..n + |p|] == p;
      assert HistoryUrl(q)[n..n + |q|] == q;
    }
  }

  /** The absolute URL of one match of a player's GAC history. */
  function MatchUrl(playerId: string, ending: string): (r: string)
    ensures HistoryUrl(playerId) <= r && r[|r| - 1] == '/'
  {
    HistoryUrl(playerId) + ending + "/"
  }

  /** Different endings of one player lead to different match pages. */
  lemma MatchUrlInjective(playerId: string, e: string, f: string)
    ensures MatchUrl(playerId, e) == MatchUrl(playerId, f) ==> e == f
  {
    if MatchUrl(playerId, e) == MatchUrl(playerId, f) {
      var n := |HistoryUrl(playerId)|;
      assert MatchUrl(playerId, e)[n..n + |e|] == e;
      assert MatchUrl(playerId, f)[n..n + |f|] == f;
    }
  }

  /** The ending token of one href: every occurrence of the history path is
      deleted, then leading and trailing slashes are stripped. */
  function EndingOf(playerId: string, href: string): (r: string)
    ensures r == [] || (r[0] != '/' && r[|r| - 1] != '/')
  {
    Strip(RemoveAll(href, HistoryPath(playerId)), {'/'})
  }

  /** The ending token of every anchor, in document order. */
  function Tokens(playerId: string, hrefs: seq<string>): (r: seq<string>)
    ensures |r| == |hrefs|
    ensures forall k :: 0 <= k < |r| ==> r[k] == EndingOf(playerId, hrefs[k])
  {
    if hrefs == [] then []
    else Tokens(playerId, hrefs[..|hrefs| - 1]) + [EndingOf(playerId, hrefs[|hrefs| - 1])]
  }

  /** What the resolver returns: the tokens of the first `MaxMatches` anchors. */
  function Endings(playerId: string, hrefs: seq<string>): (r: seq<string>)
    ensures |r| == Min(MaxMatches, |hrefs|)
    ensures forall k :: 0 <= k < |r| ==> r[k] == EndingOf(playerId, hrefs[k])
  {
    Tokens(playerId, hrefs)[..Min(MaxMatches, |hrefs|)]
  }

  /** The resolver's loop over the anchors (`endings.append(part)`) and the
      final slice `endings[:MAX_MATCHES]`. `hrefs` holds the `href` of each
      selected anchor in document order, "" for an anchor without one. */
  method MatchEndings(playerId: string, hrefs: seq<string>) returns (endings: seq<string>)
    ensures endings == Endings(playerId, hrefs)
    ensures |endings| == Min(MaxMatches, |hrefs|)
    ensures endings <= Tokens(playerId, hrefs)
    ensures forall k :: 0 <= k < |endings| ==> endings[k] == EndingOf(playerId, hrefs[k])
    ensures endings == [] <==> hrefs == []
  {
    endings := [];
    var i := 0;
    while i < |hrefs|
      invariant 0 <= i <= |hrefs|
      invariant endings == Tokens(playerId, hrefs[..i])
    {
      var href := hrefs[i];
      var part := EndingOf(playerId, href);
      assert hrefs[..i + 1][..i] == hrefs[..i];
      endings := endings + [part];
      i := i + 1;
    }
    assert hrefs[..i] == hrefs;
    endings := endings[..Min(MaxMatches, |endings|)];
  }

  /** Round trip with MatchUrl's path: an ending without slashes, placed
      under the history path with a trailing slash as the site links it, is
      recovered exactly. */
  lemma EndingOfMatchPath(playerId: string, ending: string)
    requires '/' !in ending
    ensures EndingOf(playerId, HistoryPath(playerId) + ending + "/") == ending
  {
    var p := HistoryPath(playerId);
    var rest := ending + "/";
    var href := p + ending + "/";
    assert href == p + rest;
    assert href[..|p|] == p;
    assert href[|p|..] == rest;
    assert RemoveAll(href, p) == RemoveAll(rest, p);
    forall i ensures !OccursAt(rest, p, i) {
      if 0 <= i && i + |p| <= |rest| {
        assert i < |ending| && rest[i] == ending[i] != '/';
        assert rest[i..i + |p|][0] != p[0];
      }
    }
    RemoveAllAbsent(rest, p);
    assert AllIn("/", {'/'});
    assert AllIn([], {'/'});
    assert [] + ending + "/" == rest;
    StripUnique([], ending, "/", {'/'});
  }
}
