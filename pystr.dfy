/** The two Python string operations the analysis applies to its inputs:
    `str.strip(chars)` (the player id and every anchor href are stripped) and
    `str.replace(old, "")` (the history path is deleted from every href). */
module PyStr {

  /** The characters Python's `str.isspace` accepts; `str.strip()` without an
      argument removes these. */
  const Whitespace: set<char> := {
    '\U{9}', '\U{A}', '\U{B}', '\U{C}', '\U{D}',
    '\U{1C}', '\U{1D}', '\U{1E}', '\U{1F}', ' ', '\U{85}', '\U{A0}', '\U{1680}',
    '\U{2000}', '\U{2001}', '\U{2002}', '\U{2003}', '\U{2004}', '\U{2005}',
    '\U{2006}', '\U{2007}', '\U{2008}', '\U{2009}', '\U{200A}',
    '\U{2028}', '\U{2029}', '\U{202F}', '\U{205F}', '\U{3000}'
  }

  /** `s.lstrip(chars)`: the suffix left after every leading character in `chars` is removed. */
  function StripLeft(s: string, chars: set<char>): (r: string)
    ensures |r| <= |s| && r == s[|s| - |r|..]
    ensures forall k :: 0 <= k < |s| - |r| ==> s[k] in chars
    ensures r == [] || r[0] !in chars
  {
    if s != [] && s[0] in chars then StripLeft(s[1..], chars) else s
  }

  /** `s.rstrip(chars)`: the prefix left after every trailing character in `chars` is removed. */
  function StripRight(s: string, chars: set<char>): (r: string)
    ensures |r| <= |s| && r == s[..|r|]
    ensures forall k :: |r| <= k < |s| ==> s[k] in chars
    ensures r == [] || r[|r| - 1] !in chars
  {
    if s != [] && s[|s| - 1] in chars then StripRight(s[..|s| - 1], chars) else s
  }

  /** `s.strip(chars)` */
  function Strip(s: string, chars: set<char>): (r: string)
    ensures r == [] || (r[0] !in chars && r[|r| - 1] !in chars)
  {
    StripRight(StripLeft(s, chars), chars)
  }

  predicate AllIn(s: string, chars: set<char>)
  {
    forall k :: 0 <= k < |s| ==> s[k] in chars
  }

  lemma {:induction false} StripLeftRun(a: string, t: string, chars: set<char>)
    requires AllIn(a, chars)
    ensures StripLeft(a + t, chars) == StripLeft(t, chars)
  {
    if a == [] {
      assert a + t == t;
    } else {
      assert (a + t)[0] == a[0] && a[0] in chars;
      assert (a + t)[1..] == a[1..] + t;
      StripLeftRun(a[1..], t, chars);
    }
  }

  lemma {:induction false} StripRightRun(t: string, b: string, chars: set<char>)
    requires AllIn(b, chars)
    ensures StripRight(t + b, chars) == StripRight(t, chars)
  {
    if b == [] {
      assert t + b == t;
    } else {
      assert (t + b)[|t + b| - 1] == b[|b| - 1] && b[|b| - 1] in chars;
      assert (t + b)[..|t + b| - 1] == t + b[..|b| - 1];
      StripRightRun(t, b[..|b| - 1], chars);
    }
  }

  /** Whatever splits `s` into a run of `chars`, a core that neither starts nor
      ends with one of `chars`, and another run of `chars` — that core is what
      `strip` returns. With the contract of Strip this characterises it. */
  lemma StripUnique(a: string, core: string, b: string, chars: set<char>)
    requires AllIn(a, chars) && AllIn(b, chars)
    requires core == [] || (core[0] !in chars && core[|core| - 1] !in chars)
    ensures Strip(a + core + b, chars) == core
  {
    assert a + core + b == a + (core + b);
    StripLeftRun(a, core + b, chars);
    if core == [] {
      assert core + b == b;
      assert StripRight([], chars) == [];
    } else {
      assert (core + b)[0] == core[0];
      assert StripLeft(core + b, chars) == core + b;
      StripRightRun(core, b, chars);
      assert StripRight(core, chars) == core;
    }
  }

  /** Stripping twice is stripping once. */
  lemma StripIdempotent(s: string, chars: set<char>)
    ensures Strip(Strip(s, chars), chars) == Strip(s, chars)
  {
    var r := Strip(s, chars);
    assert [] + r + [] == r;
    StripUnique([], r, [], chars);
  }

  /** `pat` occurs in `s` starting at index `i`. */
  predicate OccursAt(s: string, pat: string, i: int)
  {
    0 <= i && i + |pat| <= |s| && s[i..i + |pat|] == pat
  }

  /** `s.replace(pat, "")` for a non-empty `pat`: scanning left to right, every
      occurrence of `pat` that does not overlap an earlier deleted one is
      deleted. Characters that come together only after a deletion are not
      scanned again. */
  function RemoveAll(s: string, pat: string): (r: string)
    requires pat != []
    ensures |r| <= |s|
    decreases |s|
  {
    if |s| < |pat| then s
    else if s[..|pat|] == pat then RemoveAll(s[|pat|..], pat)
    else [s[0]] + RemoveAll(s[1..], pat)
  }

  /** A string in which `pat` does not occur is returned unchanged. */
  lemma {:induction false} RemoveAllAbsent(s: string, pat: string)
    requires pat != []
    requires forall i :: !OccursAt(s, pat, i)
    ensures RemoveAll(s, pat) == s
    decreases |s|
  {
    if |s| >= |pat| {
      assert !OccursAt(s, pat, 0);
      forall i ensures !OccursAt(s[1..], pat, i) {
        if OccursAt(s[1..], pat, i) {
          assert s[1..][i..i + |pat|] == s[i + 1..i + 1 + |pat|];
          assert OccursAt(s, pat, i + 1);
        }
      }
      RemoveAllAbsent(s[1..], pat);
    }
  }
}
