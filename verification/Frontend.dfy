/** The pure helpers of the dashboard's main component (`App.js`): the logo
    path of a team and the case-insensitive team search. */
module Frontend {
  import opened Wrappers
  import opened Seqs

  // ---------------------------------------------------------------------
  // Logo paths

  const LogoDir: string := "/logos/"
  const LogoExt: string := ".png"

  /** Every occurrence of `from` becomes `to`; all else is kept. */
  function ReplaceChar(s: string, from: char, to: char): (r: string)
    ensures |r| == |s|
    ensures forall i :: 0 <= i < |s| ==> r[i] == (if s[i] == from then to else s[i])
  {
    if |s| == 0 then "" else [if s[0] == from then to else s[0]] + ReplaceChar(s[1..], from, to)
  }

  /** `s.replace(/ /g, "_")`. */
  function ReplaceSpaces(s: string): string {
    ReplaceChar(s, ' ', '_')
  }

  /** `getTeamLogoPath`: the logo file of a team under the logo directory. */
  function LogoPath(team: string): (r: string)
    ensures |r| == |LogoDir| + |team| + |LogoExt|
    ensures r[..|LogoDir|] == LogoDir
    ensures r[|r| - |LogoExt|..] == LogoExt
    ensures forall i :: 0 <= i < |r| ==> r[i] != ' '
    ensures forall i :: 0 <= i < |team| ==> r[|LogoDir| + i] == (if team[i] == ' ' then '_' else team[i])
  {
    var r := LogoDir + ReplaceSpaces(team) + LogoExt;
    assert r[..|LogoDir|] == LogoDir;
    assert r[|r| - |LogoExt|..] == LogoExt;
    r
  }

  /** The team name a logo path was built from, if it has the logo shape:
      the part between directory and extension, underscores read as spaces. */
  function TeamOfLogo(path: string): (r: Option<string>)
    ensures r.Some? <==> |path| >= |LogoDir| + |LogoExt| && path[..|LogoDir|] == LogoDir && path[|path| - |LogoExt|..] == LogoExt
  {
    if |path| >= |LogoDir| + |LogoExt| && path[..|LogoDir|] == LogoDir && path[|path| - |LogoExt|..] == LogoExt
    then Some(ReplaceChar(path[|LogoDir|..|path| - |LogoExt|], '_', ' '))
    else None
  }

  /** A team name without underscores is recovered from its logo path. */
  lemma LogoRoundTrip(team: string)
    requires forall i :: 0 <= i < |team| ==> team[i] != '_'
    ensures TeamOfLogo(LogoPath(team)) == Some(team)
  {
    var p := LogoPath(team);
    var mid := p[|LogoDir|..|p| - |LogoExt|];
    assert |mid| == |team|;
    assert forall i :: 0 <= i < |team| ==> mid[i] == p[|LogoDir| + i];
    assert ReplaceChar(mid, '_', ' ') == team;
  }

  /** Hence distinct underscore-free names get distinct logos. */
  lemma LogoInjective(a: string, b: string)
    requires forall i :: 0 <= i < |a| ==> a[i] != '_'
    requires forall i :: 0 <= i < |b| ==> b[i] != '_'
    requires LogoPath(a) == LogoPath(b)
    ensures a == b
  {
    LogoRoundTrip(a);
    LogoRoundTrip(b);
  }

  /** Without that restriction two names can share a logo. */
  lemma LogoCollision()
    ensures LogoPath("A B") == LogoPath("A_B")
  {
    assert ReplaceSpaces("A B") == "A_B" by {
      assert ReplaceSpaces("A B") == ['A'] + ReplaceSpaces(" B");
      assert ReplaceSpaces(" B") == ['_'] + ReplaceSpaces("B");
    }
    assert ReplaceSpaces("A_B") == "A_B" by {
      assert ReplaceSpaces("A_B") == ['A'] + ReplaceSpaces("_B");
      assert ReplaceSpaces("_B") == ['_'] + ReplaceSpaces("B");
    }
  }

  // ---------------------------------------------------------------------
  // Search

  predicate IsUpper(c: char) {
    'A' <= c <= 'Z'
  }

  /** `toLowerCase` on one character (ASCII letters only). */
  function LowerChar(c: char): (r: char)
    ensures !IsUpper(r)
    ensures IsUpper(c) ==> r as int == c as int + 32
    ensures !IsUpper(c) ==> r == c
  {
    if IsUpper(c) then (c as int + 32) as char else c
  }

  /** `toLowerCase` on a string. */
  function Lower(s: string): (r: string)
    ensures |r| == |s|
    ensures forall i :: 0 <= i < |s| ==> r[i] == LowerChar(s[i])
  {
    if |s| == 0 then "" else [LowerChar(s[0])] + Lower(s[1..])
  }

  /** Lower-casing twice changes nothing more. */
  lemma LowerIdempotent(s: string)
    ensures Lower(Lower(s)) == Lower(s)
  {
    assert forall i :: 0 <= i < |s| ==> LowerChar(LowerChar(s[i])) == LowerChar(s[i]);
  }

  /** `h.includes(n)`: `n` occurs in `h` at some offset. */
  predicate Contains(h: string, n: string)
    decreases |h|
  {
    n <= h || (|h| > 0 && Contains(h[1..], n))
  }

  /** `n` occurs in `h` starting at position `i`. */
  predicate OccursAt(h: string, n: string, i: int) {
    0 <= i && i + |n| <= |h| && h[i..i + |n|] == n
  }

  /** Occurring at the front is being a prefix. */
  lemma OccursAtStart(h: string, n: string)
    ensures OccursAt(h, n, 0) <==> n <= h
  {
  }

  /** `Contains` is "occurs at some position". */
  lemma {:induction false} ContainsAt(h: string, n: string)
    ensures Contains(h, n) <==> exists i :: OccursAt(h, n, i)
    decreases |h|
  {
    OccursAtStart(h, n);
    if |h| > 0 {
      ContainsAt(h[1..], n);
      forall i | OccursAt(h[1..], n, i) ensures OccursAt(h, n, i + 1) {
        assert h[1..][i..i + |n|] == h[i + 1..i + 1 + |n|];
      }
      forall i | OccursAt(h, n, i) && i > 0 ensures OccursAt(h[1..], n, i - 1) {
        assert h[1..][i - 1..i - 1 + |n|] == h[i..i + |n|];
      }
    }
  }

  /** Occurrence is transitive: a text containing `m` contains every part
      of `m`. */
  lemma ContainsTransitive(h: string, m: string, n: string)
    requires Contains(h, m) && Contains(m, n)
    ensures Contains(h, n)
  {
    ContainsAt(h, m);
    ContainsAt(m, n);
    ContainsAt(h, n);
    var i :| OccursAt(h, m, i);
    var j :| OccursAt(m, n, j);
    forall k | 0 <= k < |n| ensures h[i + j + k] == n[k] {
      assert m[j + k] == n[k];
      assert h[i..i + |m|][j + k] == h[i + j + k];
    }
    assert h[i + j..i + j + |n|] == n;
    assert OccursAt(h, n, i + j);
  }

  /** The empty term occurs everywhere. */
  lemma ContainsEmpty(h: string)
    ensures Contains(h, "")
  {
  }

  /** The component state the search handler sets. */
  datatype SearchState = SearchState(searchTerm: string, filtered: seq<string>)

  function Matches(term: string): string -> bool {
    (t: string) => Contains(Lower(t), term)
  }

  /** Every team matches the empty term. */
  lemma EmptyTermKeepsAll(teams: seq<string>)
    ensures Filter(Matches(""), teams) == teams
  {
    forall t ensures Matches("")(t) {
      ContainsEmpty(Lower(t));
    }
    FilterKeepsAll(Matches(""), teams);
  }

  /** `handleSearch`: remembers the lower-cased input and keeps, in order,
      the teams whose lower-cased name contains it. */
  function HandleSearch(teams: seq<string>, input: string): (r: SearchState)
    ensures |r.searchTerm| == |input|
    ensures forall i :: 0 <= i < |input| ==> r.searchTerm[i] == LowerChar(input[i])
    ensures forall i :: 0 <= i < |r.searchTerm| ==> !IsUpper(r.searchTerm[i])
    ensures IsSubsequence(r.filtered, teams)
    ensures forall t :: t in r.filtered <==> t in teams && Contains(Lower(t), Lower(input))
    ensures input == "" ==> r.filtered == teams
  {
    var term := Lower(input);
    if input == "" then
      EmptyTermKeepsAll(teams);
      SearchState(term, Filter(Matches(term), teams))
    else
      SearchState(term, Filter(Matches(term), teams))
  }

  /** The search ignores the case of the input. */
  lemma SearchIgnoresCase(teams: seq<string>, input: string)
    ensures HandleSearch(teams, Lower(input)) == HandleSearch(teams, input)
  {
    LowerIdempotent(input);
  }

  /** Typing more narrows the list: when the new term contains the old one,
      every team still listed was listed before. */
  lemma SearchNarrows(teams: seq<string>, before: string, after: string)
    requires Contains(Lower(after), Lower(before))
    ensures forall t :: t in HandleSearch(teams, after).filtered ==> t in HandleSearch(teams, before).filtered
  {
    forall t | t in HandleSearch(teams, after).filtered
      ensures t in HandleSearch(teams, before).filtered
    {
      ContainsTransitive(Lower(t), Lower(after), Lower(before));
    }
  }
}
