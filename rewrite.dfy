/**
  The text rewrites of `process_version` (mirror.py:109-128), written as
  hand-made scanners for the three fixed regular expressions:

    "uv==.*"                ->  "uv=={version}"        (pyproject.toml)
    rev: \d+\.\d+\.\d+      ->  rev: {version}         (README.md)
    /uv/\d+\.\d+\.\d+\.svg  ->  /uv/{version}.svg      (README.md)

  `Sub` scans left to right like `re.sub`: where the pattern matches, the
  match is replaced and scanning resumes after it; elsewhere one character is
  copied.  None of the patterns can match the empty string.
*/
module Rewrite {
  import opened Wrappers
  import opened Versions

  // ---------------------------------------------------------------------
  // Patterns made of literal characters and digit runs
  // ---------------------------------------------------------------------

  /**
    A literal character, or `\d+`.  A digit run always takes every digit
    available: in the two patterns each run is followed by a literal `.` or
    ends the pattern, so backtracking to a shorter run can never succeed.
  */
  datatype Atom = Lit(c: char) | Digits

  function Lits(s: string): (r: seq<Atom>)
    ensures |r| == |s| && forall i :: 0 <= i < |s| ==> r[i] == Lit(s[i])
  {
    if s == [] then [] else [Lit(s[0])] + Lits(s[1..])
  }

  /** `\d+\.\d+\.\d+` */
  const TRIPLE: seq<Atom> := [Digits, Lit('.'), Digits, Lit('.'), Digits]
  const REV_ATOMS: seq<Atom> := Lits("rev: ") + TRIPLE
  const BADGE_ATOMS: seq<Atom> := Lits("/uv/") + (TRIPLE + Lits(".svg"))

  /** Length of the run of digits `s` starts with. */
  function DigitRun(s: string): (k: nat)
    ensures k <= |s|
    ensures forall i :: 0 <= i < k ==> IsDigit(s[i])
    ensures k < |s| ==> !IsDigit(s[k])
  {
    if |s| > 0 && IsDigit(s[0]) then 1 + DigitRun(s[1..]) else 0
  }

  function Shift(o: Option<nat>, k: nat): Option<nat>
  {
    match o
    case None => None
    case Some(n) => Some(n + k)
  }

  /** Length of the match of `atoms` at the start of `s`, if any. */
  function MatchAtoms(atoms: seq<Atom>, s: string): (r: Option<nat>)
    ensures r.Some? ==> r.value <= |s|
    decreases |atoms|
  {
    if atoms == [] then Some(0)
    else match atoms[0]
      case Lit(c) =>
        if |s| > 0 && s[0] == c then Shift(MatchAtoms(atoms[1..], s[1..]), 1) else None
      case Digits =>
        var k := DigitRun(s);
        if k == 0 then None else Shift(MatchAtoms(atoms[1..], s[k..]), k)
  }

  // ---------------------------------------------------------------------
  // The manifest pattern "uv==.*"
  // ---------------------------------------------------------------------

  /** The text of `s` up to its first newline (`.` does not match a newline). */
  function Line(s: string): (r: string)
    ensures |r| <= |s| && r == s[..|r|]
    ensures forall i :: 0 <= i < |r| ==> r[i] != '\n'
    ensures |r| < |s| ==> s[|r|] == '\n'
  {
    if s == [] || s[0] == '\n' then [] else [s[0]] + Line(s[1..])
  }

  /** Position of the last `"` in `s`. */
  function LastQuote(s: string): (r: Option<nat>)
    ensures r.Some? ==> r.value < |s| && s[r.value] == '"' && forall j :: r.value < j < |s| ==> s[j] != '"'
    ensures r.None? ==> forall j :: 0 <= j < |s| ==> s[j] != '"'
  {
    if s == [] then None
    else if s[|s| - 1] == '"' then Some(|s| - 1)
    else LastQuote(s[..|s| - 1])
  }

  const PIN_PREFIX: string := "\"uv=="

  /**
    `"uv==` followed by the greedy `.*"`: the match runs to the last `"` on
    the same line.
  */
  function MatchPin(s: string): (r: Option<nat>)
    ensures r.Some? ==> |PIN_PREFIX| < r.value <= |s|
  {
    if |s| >= |PIN_PREFIX| && s[..|PIN_PREFIX|] == PIN_PREFIX then
      match LastQuote(Line(s[|PIN_PREFIX|..]))
      case None => None
      case Some(j) => Some(|PIN_PREFIX| + j + 1)
    else None
  }

  // ---------------------------------------------------------------------
  // Substitution
  // ---------------------------------------------------------------------

  datatype Pattern = RevPattern | BadgePattern | PinPattern

  /** The character every match of the pattern begins with. */
  function Lead(p: Pattern): char
  {
    match p
    case RevPattern => 'r'
    case BadgePattern => '/'
    case PinPattern => '"'
  }

  /** Length of the match of `p` at the start of `s`, if any. */
  function MatchAt(p: Pattern, s: string): (r: Option<nat>)
    ensures r.Some? ==> 1 <= r.value <= |s| && s[0] == Lead(p)
  {
    match p
    case RevPattern => MatchAtoms(REV_ATOMS, s)
    case BadgePattern => MatchAtoms(BADGE_ATOMS, s)
    case PinPattern => MatchPin(s)
  }

  /** `re.sub(p, rep, s)` for a replacement without group references. */
  function Sub(p: Pattern, s: string, rep: string): string
    decreases |s|
  {
    if s == [] then []
    else match MatchAt(p, s)
      case Some(n) => rep + Sub(p, s[n..], rep)
      case None => [s[0]] + Sub(p, s[1..], rep)
  }

  // ---------------------------------------------------------------------
  // The rewrites of process_version
  // ---------------------------------------------------------------------

  function PinReplacement(v: Version): string
  {
    PIN_PREFIX + VersionString(v) + "\""
  }

  function RevReplacement(v: Version): string
  {
    "rev: " + VersionString(v)
  }

  function BadgeReplacement(v: Version): string
  {
    "/uv/" + VersionString(v) + ".svg"
  }

  /** `replace_pyproject_toml` (mirror.py:110-111). */
  function ReplacePyproject(content: string, v: Version): string
  {
    Sub(PinPattern, content, PinReplacement(v))
  }

  /** `replace_readme_md` (mirror.py:113-115): the `rev:` rewrite, then the badge rewrite. */
  function ReplaceReadme(content: string, v: Version): string
  {
    Sub(BadgePattern, Sub(RevPattern, content, RevReplacement(v)), BadgeReplacement(v))
  }
}
