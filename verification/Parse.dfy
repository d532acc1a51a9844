/** packages/compiler/src/parse.ts: reads a compiled or hand-edited file into classified lines. */
module Parse {
  import opened Text
  import opened Patterns
  import ManagedBlock

  datatype Kind =
    | Frontmatter | Header | MarkerLine | Comment | Heading | Import | Fence | Item | Words | Blank

  datatype ParsedLine = ParsedLine(line: nat, kind: Kind, text: string, refs: seq<string>,
                                   marker: Option<string>, section: Option<string>, paths: seq<string>)

  /** A managed block's 1-based inner lines. */
  datatype Range = Range(start: nat, end: int)

  datatype ParsedFile = ParsedFile(lines: seq<ParsedLine>, header: Option<string>,
                                   frontmatter: Option<seq<string>>, managed: Option<Range>, hidden: nat)

  /** What the parser takes from elsewhere: `cleanLine`'s text and count of hidden
      characters, and the globs a frontmatter names. */
  datatype Env = Env(clean: string -> string, removed: string -> nat, globs: seq<string> -> seq<string>)

  function StripBom(s: string): string {
    if s != "" && s[0] == '\U{FEFF}' then s[1..] else s
  }

  function Texts(ls: seq<ManagedBlock.RawLine>): seq<string> {
    seq(|ls|, i requires 0 <= i < |ls| => ls[i].text)
  }

  /** `splitLines`: the texts between line breaks; a final line break starts no line. */
  function SplitLines(content: string): seq<string> { Texts(ManagedBlock.Lines(StripBom(content))) }

  // ---------------------------------------------------------------------
  // One line at a time
  // ---------------------------------------------------------------------

  datatype State = State(lines: seq<ParsedLine>, hidden: nat, header: Option<string>,
                         section: Option<string>, scope: Option<seq<string>>, inFence: bool,
                         itemRaw: Option<string>, starts: seq<nat>, ends: seq<nat>)

  function Bare(n: nat, kind: Kind, text: string, section: Option<string>, paths: seq<string>): ParsedLine {
    ParsedLine(n, kind, text, [], None, section, paths)
  }

  /** `textLine`: the trailing cites, and for items the marker, split off. */
  function TextLine(n: nat, kind: Kind, text: string, section: Option<string>, paths: seq<string>): ParsedLine {
    var cited := CitesMatch(text).GetOr(Cited(text, []));
    match if kind == Item then MarkerMatch(cited.text) else None
    case Some(m) => ParsedLine(n, kind, m.text, cited.refs, Some(m.marker), section, paths)
    case None => ParsedLine(n, kind, cited.text, cited.refs, None, section, paths)
  }

  /** An item is being continued only right under it. */
  predicate StateOk(st: State) {
    st.itemRaw.Some? ==> st.lines != [] && st.lines[|st.lines| - 1].kind == Item
  }

  predicate Continues(st: State, text: string) {
    st.itemRaw.Some? && IsIndented(text) && ItemMatch(text).None? && !IsFence(text)
  }

  function Push(st: State, l: ParsedLine): State { st.(lines := st.lines + [l]) }

  /** A line of its own, and the rest of the state it leaves. */
  datatype Reading = Reading(st: State, line: ParsedLine)

  function Read(env: Env, files: seq<string>, st: State, n: nat, text: string): (r: Reading)
    requires st.itemRaw == None
    ensures r.st.lines == st.lines && r.st.hidden == st.hidden
    ensures r.st.itemRaw.Some? ==> r.line.kind == Item
  {
    var paths := st.scope.GetOr(files);
    if IsFence(text) then
      Reading(st.(inFence := !st.inFence), Bare(n, Fence, Trim(text), st.section, paths))
    else if st.inFence then
      Reading(st, Bare(n, Words, env.clean(text), st.section, paths))
    else if Trim(text) == "" then
      Reading(st, Bare(n, Blank, "", st.section, paths))
    else if Trim(text) == ManagedBlock.START then
      Reading(st.(starts := st.starts + [n]), Bare(n, MarkerLine, Trim(text), st.section, []))
    else if Trim(text) == ManagedBlock.END then
      Reading(st.(ends := st.ends + [n]), Bare(n, MarkerLine, Trim(text), st.section, []))
    else if st.header.None? && IsHeader(Trim(text)) then
      Reading(st.(header := Some(Trim(text))), Bare(n, Header, Trim(text), st.section, []))
    else if IsComment(text) then
      Reading(st, Bare(n, Comment, Trim(text), st.section, paths))
    else if HeadingMatch(text).Some? then
      var HeadingLine(level, found) := HeadingMatch(text).value;
      var title := env.clean(found);
      var t := if level == 2 then st.(section := Some(title), scope := None)
               else if level == 1 then st.(section := None, scope := None)
               else if level == 3 then st.(scope := ScopeMatch(title))
               else st;
      Reading(t, Bare(n, Heading, title, t.section, t.scope.GetOr(files)))
    else if IsImport(text) then
      Reading(st, Bare(n, Import, text, st.section, []))
    else if ItemMatch(text).Some? then
      var words := ItemMatch(text).value;
      Reading(st.(itemRaw := Some(words)), TextLine(n, Item, env.clean(words), st.section, paths))
    else
      Reading(st, TextLine(n, Words, env.clean(text), st.section, paths))
  }

  function Step(env: Env, files: seq<string>, st: State, n: nat, raw: string): (r: State)
    requires StateOk(st)
    ensures StateOk(r)
  {
    var text := TrimEnd(raw);
    var s := st.(hidden := st.hidden + env.removed(text), itemRaw := None);
    if Continues(st, text) then
      var words := st.itemRaw.value + " " + Trim(text);
      var last := |st.lines| - 1;
      var prev := st.lines[last];
      s.(itemRaw := Some(words),
         lines := st.lines[last := TextLine(prev.line, Item, env.clean(words), prev.section, prev.paths)])
    else
      var Reading(next, l) := Read(env, files, s, n, text);
      Push(next, l)
  }

  function Fold(env: Env, files: seq<string>, st: State, n: nat, raws: seq<string>): (r: State)
    requires StateOk(st)
    ensures StateOk(r)
    decreases |raws|
  {
    if raws == [] then st else Fold(env, files, Step(env, files, st, n, raws[0]), n + 1, raws[1..])
  }

  lemma FoldStep(env: Env, files: seq<string>, st: State, n: nat, raws: seq<string>, rest: seq<string>)
    requires StateOk(st) && raws != [] && raws[1..] == rest
    ensures Fold(env, files, st, n, raws) == Fold(env, files, Step(env, files, st, n, raws[0]), n + 1, rest)
  {
  }

  lemma FoldEnd(env: Env, files: seq<string>, st: State, n: nat)
    requires StateOk(st)
    ensures Fold(env, files, st, n, []) == st
  {
  }

  lemma {:induction false} FoldConcat(env: Env, files: seq<string>, st: State, n: nat, a: seq<string>, b: seq<string>)
    requires StateOk(st)
    ensures Fold(env, files, st, n, a + b) == Fold(env, files, Fold(env, files, st, n, a), n + |a|, b)
    decreases |a|
  {
    hide Step;
    if a == [] {
      assert a + b == b;
    } else {
      assert (a + b)[1..] == a[1..] + b;
      FoldConcat(env, files, Step(env, files, st, n, a[0]), n + 1, a[1..], b);
    }
  }

  // ---------------------------------------------------------------------
  // The whole file
  // ---------------------------------------------------------------------

  predicate IsRule(raw: string) { TrimEnd(raw) == "---" }

  /** The index of the next `---` line from `i` on, or the number of lines. */
  function RuleFrom(raws: seq<string>, i: nat): (n: nat)
    requires i <= |raws|
    ensures i <= n <= |raws|
    ensures n < |raws| ==> IsRule(raws[n])
    decreases |raws| - i
  {
    if i == |raws| || IsRule(raws[i]) then i else RuleFrom(raws, i + 1)
  }

  /** The line that closes the frontmatter, if the file opens with one. */
  function FrontmatterClose(raws: seq<string>): Option<nat> {
    if raws != [] && IsRule(raws[0]) && RuleFrom(raws, 1) < |raws| then Some(RuleFrom(raws, 1)) else None
  }

  function FrontmatterLines(raws: seq<string>): seq<ParsedLine> {
    seq(|raws|, i requires 0 <= i < |raws| => Bare(i + 1, Frontmatter, Trim(raws[i]), None, []))
  }

  function RemovedIn(env: Env, raws: seq<string>): nat {
    if raws == [] then 0 else env.removed(raws[0]) + RemovedIn(env, raws[1..])
  }

  function TrimEnds(raws: seq<string>): seq<string> { ManagedBlock.TrimEnds(raws) }

  /** How many lines the frontmatter takes. */
  function BodyStart(raws: seq<string>): (n: nat)
    ensures n <= |raws|
  {
    match FrontmatterClose(raws)
    case Some(close) => close + 1
    case None => 0
  }

  function FrontmatterOf(raws: seq<string>): Option<seq<string>> {
    match FrontmatterClose(raws)
    case Some(close) => Some(TrimEnds(raws[1..close]))
    case None => None
  }

  function FilePaths(env: Env, raws: seq<string>): seq<string> {
    match FrontmatterOf(raws)
    case Some(lines) => env.globs(lines)
    case None => []
  }

  function InitialState(env: Env, raws: seq<string>): (st: State)
    ensures StateOk(st)
  {
    AfterFrontmatter(env, raws[..BodyStart(raws)])
  }

  function AfterFrontmatter(env: Env, front: seq<string>): (st: State)
    ensures StateOk(st)
  {
    State(FrontmatterLines(front), RemovedIn(env, front), None, None, None, false, None, [], [])
  }

  function FinalState(env: Env, raws: seq<string>): State {
    Fold(env, FilePaths(env, raws), InitialState(env, raws), BodyStart(raws) + 1, raws[BodyStart(raws)..])
  }

  function ManagedRange(starts: seq<nat>, ends: seq<nat>): Option<Range> {
    if |starts| == 1 && |ends| == 1 && starts[0] < ends[0] then Some(Range(starts[0] + 1, ends[0] - 1)) else None
  }

  function Parsed(env: Env, raws: seq<string>): ParsedFile {
    var st := FinalState(env, raws);
    ParsedFile(st.lines, st.header, FrontmatterOf(raws), ManagedRange(st.starts, st.ends), st.hidden)
  }

  method ReadFrontmatter(env: Env, front: seq<string>) returns (st: State)
    ensures st == AfterFrontmatter(env, front)
  {
    st := State([], 0, None, None, None, false, None, [], []);
    for i := 0 to |front|
      invariant st == State(FrontmatterLines(front[..i]), st.hidden, None, None, None, false, None, [], [])
      invariant st.hidden + RemovedIn(env, front[i..]) == RemovedIn(env, front)
    {
      assert front[i..][1..] == front[i + 1..];
      st := Push(st.(hidden := st.hidden + env.removed(front[i])),
                 Bare(i + 1, Frontmatter, Trim(front[i]), None, []));
    }
    assert front[..|front|] == front;
  }

  /** `parseFile`: one pass over the lines, carrying the section, the scope, the fence and the open item. */
  method ParseFile(env: Env, content: string) returns (file: ParsedFile)
    ensures file == Parsed(env, SplitLines(content))
  {
    hide Step, Fold, RuleFrom, SplitLines, AfterFrontmatter;
    var raw := SplitLines(content);
    var frontmatter: Option<seq<string>> := None;
    var filePaths: seq<string> := [];
    var start := 0;
    var close := FrontmatterClose(raw);
    if close.Some? {
      frontmatter := Some(TrimEnds(raw[1..close.value]));
      filePaths := env.globs(frontmatter.value);
      start := close.value + 1;
    }
    var st := ReadFrontmatter(env, raw[..start]);
    for i := start to |raw|
      invariant StateOk(st)
      invariant Fold(env, filePaths, st, i + 1, raw[i..]) == FinalState(env, raw)
    {
      FoldStep(env, filePaths, st, i + 1, raw[i..], raw[i + 1..]);
      st := Step(env, filePaths, st, i + 1, raw[i]);
    }
    FoldEnd(env, filePaths, st, |raw| + 1);
    assert raw[|raw|..] == [];
    file := ParsedFile(st.lines, st.header, frontmatter, ManagedRange(st.starts, st.ends), st.hidden);
  }
}
