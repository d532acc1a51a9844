/** The line patterns of packages/compiler/src/parse.ts, each as the function its
    regular expression computes. */
module Patterns {
  import opened Text

  function DigitRun(s: string): (n: nat)
    ensures n <= |s|
  {
    if s != "" && IsDigit(s[0]) then 1 + DigitRun(s[1..]) else 0
  }

  /** What follows a list marker: `-`, `*`, `+`, or up to nine digits and `.` or `)`. */
  function AfterBullet(s: string): Option<string> {
    if s == "" then None
    else if s[0] in {'-', '*', '+'} then Some(s[1..])
    else
      var d := DigitRun(s);
      if 1 <= d <= 9 && d < |s| && s[d] in {'.', ')'} then Some(s[d + 1..]) else None
  }

  /** ITEM: the words of a list item. */
  function ItemMatch(s: string): Option<string> {
    match AfterBullet(TrimStart(s))
    case None => None
    case Some(rest) =>
      var words := TrimStart(rest);
      if rest != "" && IsSpace(rest[0]) && NoTerminator(words) then Some(words) else None
  }

  function HashRun(s: string): (n: nat)
    ensures n <= |s|
  {
    if s != "" && s[0] == '#' then 1 + HashRun(s[1..]) else 0
  }

  function DropHashes(s: string): (r: string)
    ensures r <= s
  {
    if s != "" && s[|s| - 1] == '#' then DropHashes(s[..|s| - 1]) else s
  }

  /** A heading's title without closing hashes. */
  function Title(s: string): string {
    var open := DropHashes(s);
    if open != s && open != "" && IsSpace(open[|open| - 1]) then TrimEnd(open) else s
  }

  datatype HeadingLine = HeadingLine(level: nat, title: string)

  /** HEADING: one to six hashes, white space, a title. */
  function HeadingMatch(s: string): (r: Option<HeadingLine>)
    ensures r.Some? ==> 1 <= r.value.level <= 6
  {
    var level := HashRun(s);
    if 1 <= level <= 6 && level < |s| && IsSpace(s[level]) then
      var title := Title(TrimEnd(TrimStart(s[level..])));
      if NoTerminator(title) then Some(HeadingLine(level, title)) else None
    else None
  }

  /** A memory ref: `M-` and digits. */
  predicate IsRef(s: string) {
    |s| >= 3 && s[0] == 'M' && s[1] == '-' && forall i | 2 <= i < |s| :: IsDigit(s[i])
  }

  function Trims(parts: seq<string>): seq<string> {
    seq(|parts|, i requires 0 <= i < |parts| => Trim(parts[i]))
  }

  /** The inside of a cite: refs with commas between them, and white space around the commas only. */
  function CiteRefs(inner: string): Option<seq<string>> {
    var parts := Split(inner, ',');
    var refs := Trims(parts);
    if inner != "" && !IsSpace(inner[0]) && !IsSpace(inner[|inner| - 1]) && (forall r | r in refs :: IsRef(r))
    then Some(refs) else None
  }

  /** The last index of `c` in `s`, or -1. */
  function LastIndexOf(s: string, c: char): (n: int)
    ensures -1 <= n < |s|
    ensures n >= 0 ==> s[n] == c
  {
    if s == "" then -1 else if s[|s| - 1] == c then |s| - 1 else LastIndexOf(s[..|s| - 1], c)
  }

  datatype Cited = Cited(text: string, refs: seq<string>)

  /** CITES: the refs in brackets that end a line, and the words before them. */
  function CitesMatch(s: string): Option<Cited> {
    var at := LastIndexOf(s, '[');
    if at < 0 || s[|s| - 1] != ']' then None else
    match CiteRefs(s[at + 1..|s| - 1])
    case None => None
    case Some(refs) => Some(Cited(Trim(s[..at]), refs))
  }

  datatype Marked = Marked(marker: string, text: string)

  /** MARKER: `(Being verified)` or `(In conflict)`, white space, and the rest. */
  function MarkerMatch(s: string): Option<Marked> {
    if MarkedWith(s, "(Being verified)") then Some(Marked("Being verified", TrimStart(s[16..])))
    else if MarkedWith(s, "(In conflict)") then Some(Marked("In conflict", TrimStart(s[13..])))
    else None
  }

  predicate MarkedWith(s: string, prefix: string) {
    prefix <= s && |prefix| < |s| && IsSpace(s[|prefix|])
  }

  /** Globs between backticks, with a comma and a space between them. */
  predicate BacktickList(s: string)
    decreases |s|
  {
    s != "" && s[0] == '`' &&
    var n := IndexOf(s[1..], '`');
    0 < n < |s| - 1 && var rest := s[n + 2..];
    rest == "" || (", " <= rest && BacktickList(rest[2..]))
  }

  /** The first index of `, ` in `s`, or the length of `s`. */
  function CommaAt(s: string): (n: nat)
    ensures n <= |s|
    ensures n < |s| ==> n + 2 <= |s|
  {
    if s == "" then 0 else if ", " <= s then 0 else 1 + CommaAt(s[1..])
  }

  function SplitCommas(s: string): seq<string>
    decreases |s|
  {
    var n := CommaAt(s);
    if n == |s| then [s] else [s[..n]] + SplitCommas(s[n + 2..])
  }

  function Unquote(p: string): string { if |p| < 2 then "" else p[1..|p| - 1] }

  /** SCOPE_HEADING: the globs of an `In ...` heading. */
  function ScopeMatch(title: string): Option<seq<string>> {
    if "In " <= title && BacktickList(title[3..]) then
      var parts := SplitCommas(title[3..]);
      Some(seq(|parts|, i requires 0 <= i < |parts| => Unquote(parts[i])))
    else None
  }

  /** FENCE: three backticks or three tildes. */
  predicate IsFence(s: string) {
    var t := TrimStart(s);
    "```" <= t || "~~~" <= t
  }

  predicate EndsWith(s: string, suffix: string) {
    |suffix| <= |s| && s[|s| - |suffix|..] == suffix
  }

  predicate IsComment(s: string) {
    var t := TrimStart(s);
    "<!--" <= t && |t| >= 7 && EndsWith(t, "-->") && NoTerminator(t[4..|t| - 3])
  }

  function WordRun(s: string): (n: nat)
    ensures n <= |s|
  {
    if s != "" && !IsSpace(s[0]) then 1 + WordRun(s[1..]) else 0
  }

  function HeaderStart(): string { "<!-- Compiled by Memax from " }

  /** HEADER_LINE: the header that compiled files start with. */
  predicate IsHeader(s: string) {
    HeaderStart() <= s &&
    var rest := s[|HeaderStart()|..];
    var n := WordRun(rest);
    n > 0 && " at " <= rest[n..] &&
    var tail := rest[n + 4..];
    EndsWith(tail, " -->") && NoTerminator(tail[..|tail| - 4])
  }

  predicate IsImport(s: string) {
    |s| >= 2 && s[0] == '@' && WordRun(s[1..]) == |s| - 1
  }

  /** White space and then something: a line that may continue an item. */
  predicate IsIndented(s: string) { s != "" && IsSpace(s[0]) && TrimStart(s) != "" }
}
