/** Small files on which `parseBack` of packages/compiler/src/parse.ts reports what one might not expect. */
module Witnesses {
  import opened Text
  import opened Patterns
  import opened Parse
  import opened Diff
  import opened DiffLaws
  import opened Rereading
  import opened ParseBack
  import opened AddedBlock
  import ManagedBlock
  import Drift
  import RoundTrip

  // ---------------------------------------------------------------------
  // Files, line by line
  // ---------------------------------------------------------------------

  /** A file of these lines, each with a line feed. */
  function FileText(texts: seq<string>): string { ManagedBlock.Flat(ManagedBlock.WithEol(texts, "\n")) }

  lemma FileLines(texts: seq<string>)
    requires (forall t | t in texts :: NoBreak(t)) && texts != [] && texts[0] != "" && texts[0][0] != '\U{FEFF}'
    ensures SplitLines(FileText(texts)) == texts
  {
    hide ManagedBlock.Lines, ManagedBlock.Canonical, ManagedBlock.Flat;
    var ls := ManagedBlock.WithEol(texts, "\n");
    ManagedBlock.CanonicalWithEol(texts, "\n");
    ManagedBlock.CanonicalUnique(ls);
    ManagedBlock.FlatHead(ls);
    assert StripBom(FileText(texts)) == FileText(texts);
  }

  /** One step, but for the count of hidden characters. */
  ghost predicate Moves(env: Env, files: seq<string>, v: State, n: nat, raw: string, w: State) {
    StateOk(v) && Step(env, files, v, n, raw).(hidden := 0) == w
  }

  lemma MovesAlike(env: Env, files: seq<string>, st: State, n: nat, raw: string)
    requires StateOk(st)
    ensures Step(env, files, st, n, raw).(hidden := 0) == Step(env, files, st.(hidden := 0), n, raw).(hidden := 0)
  {
    hide TrimEnd, Trim, IsFence, IsIndented, ItemMatch, CitesMatch, MarkerMatch, Read;
    var text := TrimEnd(raw);
    ReadAlike(env, files, st.(hidden := st.hidden + env.removed(text), itemRaw := None), n, text, env.removed(text));
  }

  lemma ReadAlike(env: Env, files: seq<string>, st: State, n: nat, text: string, hidden: nat)
    requires st.itemRaw == None
    ensures Read(env, files, st.(hidden := hidden), n, text) ==
            var r := Read(env, files, st, n, text); Reading(r.st.(hidden := hidden), r.line)
  {
    hide Trim, IsFence, ItemMatch, HeadingMatch, IsImport, IsHeader, IsComment, ScopeMatch, TextLine;
  }

  /** A run goes through the states that its steps lead to. */
  lemma {:induction false} Runs(env: Env, files: seq<string>, st: State, n: nat, raws: seq<string>, vs: seq<State>)
    requires |vs| == |raws| + 1 && StateOk(st) && st.(hidden := 0) == vs[0]
    requires forall i | 0 <= i < |raws| :: Moves(env, files, vs[i], n + i, raws[i], vs[i + 1])
    ensures Fold(env, files, st, n, raws).(hidden := 0) == vs[|raws|]
    decreases |raws|
  {
    hide Step;
    if raws == [] {
      FoldEnd(env, files, st, n);
    } else {
      MovesAlike(env, files, st, n, raws[0]);
      assert Moves(env, files, vs[0], n, raws[0], vs[1]);
      var next := Step(env, files, st, n, raws[0]);
      forall i | 0 <= i < |raws| - 1
        ensures Moves(env, files, vs[1..][i], n + 1 + i, raws[1..][i], vs[1..][i + 1])
      {
        assert Moves(env, files, vs[i + 1], n + (i + 1), raws[i + 1], vs[i + 2]);
      }
      FoldStep(env, files, st, n, raws, raws[1..]);
      Runs(env, files, next, n + 1, raws[1..], vs[1..]);
    }
  }

  /** Where a file without frontmatter starts. */
  function Fresh(): State { State([], 0, None, None, None, false, None, [], []) }

  lemma NoFrontmatter(env: Env, raws: seq<string>)
    requires raws != [] && TrimEnd(raws[0]) != "---"
    ensures FrontmatterOf(raws) == None && FilePaths(env, raws) == []
    ensures FinalState(env, raws) == Fold(env, [], Fresh(), 1, raws)
  {
    hide Fold;
    assert raws[..0] == [] && raws[0..] == raws;
  }

  /** The lines and marks of a file without frontmatter. */
  lemma ReadsAs(env: Env, raws: seq<string>, vs: seq<State>)
    requires raws != [] && TrimEnd(raws[0]) != "---" && |vs| == |raws| + 1 && vs[0] == Fresh()
    requires forall i | 0 <= i < |raws| :: Moves(env, [], vs[i], 1 + i, raws[i], vs[i + 1])
    ensures var file, w := Parsed(env, raws), vs[|raws|];
            file.lines == w.lines && file.header == w.header && file.managed == ManagedRange(w.starts, w.ends)
            && file.frontmatter == None
  {
    hide Step, Fold, FilePaths, Moves;
    NoFrontmatter(env, raws);
    Runs(env, [], Fresh(), 1, raws, vs);
  }

  function Adds(v: State, l: ParsedLine): State { v.(lines := v.lines + [l], itemRaw := None) }

  /** Text without cites and markers. */
  lemma PlainText(n: nat, kind: Kind, text: string, section: Option<string>, paths: seq<string>)
    requires '[' !in text && text != "" && text[0] != '('
    ensures TextLine(n, kind, text, section, paths) == ParsedLine(n, kind, text, [], None, section, paths)
  {
    var i := LastIndexOf(text, '[');
    assert i < 0;
    assert !("(Being verified)" <= text) && !("(In conflict)" <= text);
  }

  /** A one-letter line is words. */
  lemma LetterMoves(env: Env, v: State, n: nat, text: string)
    requires StateOk(v) && v.hidden == 0 && !v.inFence && text in {"a", "b"} && env.clean(text) == text
    ensures Moves(env, [], v, n, text, Adds(v, ParsedLine(n, Words, text, [], None, v.section, v.scope.GetOr([]))))
  {
    assert |text| == 1 && !IsSpace(text[0]);
    assert TrimEnd(text) == text && Trim(text) == text;
    PlainText(n, Words, text, v.section, v.scope.GetOr([]));
  }

  lemma MarkShape(text: string)
    requires text in {ManagedBlock.START, ManagedBlock.END}
    ensures TrimEnd(text) == text && !IsFence(text) && !IsIndented(text) && NoBreak(text) && text != "---"
    ensures text != "" && text[0] == '<'
  {
    assert !IsSpace(text[|text| - 1]) && !IsSpace(text[0]);
    assert text[0] == '<';
  }

  function Marked(v: State, n: nat, text: string): State {
    Adds(if text == ManagedBlock.START then v.(starts := v.starts + [n]) else v.(ends := v.ends + [n]),
         Bare(n, MarkerLine, text, v.section, []))
  }

  lemma MarkMoves(env: Env, files: seq<string>, v: State, n: nat, text: string)
    requires StateOk(v) && v.hidden == 0 && !v.inFence && text in {ManagedBlock.START, ManagedBlock.END}
    ensures Moves(env, files, v, n, text, Marked(v, n, text))
  {
    hide Trim, TrimEnd, IsFence, IsIndented, ItemMatch, HeadingMatch, IsImport, IsHeader, IsComment;
    Drift.MarkersDiffer();
    ManagedBlock.MarkersTrimmed();
    MarkShape(text);
  }

  // ---------------------------------------------------------------------
  // A line after a new block
  // ---------------------------------------------------------------------

  lemma OneLine(env: Env)
    requires env.clean("a") == "a"
    ensures var file := Parsed(env, ["a"]);
            file.lines == [ParsedLine(1, Words, "a", [], None, None, [])] && file.managed.None?
  {
    hide Moves, Parsed;
    LetterMoves(env, Fresh(), 1, "a");
    assert TrimEnd("a") == "a";
    ReadsAs(env, ["a"], [Fresh(), Adds(Fresh(), ParsedLine(1, Words, "a", [], None, None, []))]);
  }

  lemma FourLines(env: Env)
    requires env.clean("a") == "a" && env.clean("b") == "b"
    ensures var file := Parsed(env, [ManagedBlock.START, "a", ManagedBlock.END, "b"]);
            && file.lines == [Bare(1, MarkerLine, ManagedBlock.START, None, []),
                              ParsedLine(2, Words, "a", [], None, None, []),
                              Bare(3, MarkerLine, ManagedBlock.END, None, []),
                              ParsedLine(4, Words, "b", [], None, None, [])]
            && file.managed == Some(Range(2, 2))
  {
    hide Moves, Parsed;
    Drift.MarkersDiffer();
    MarkShape(ManagedBlock.START);
    var v1 := Marked(Fresh(), 1, ManagedBlock.START);
    var v2 := Adds(v1, ParsedLine(2, Words, "a", [], None, None, []));
    var v3 := Marked(v2, 3, ManagedBlock.END);
    var v4 := Adds(v3, ParsedLine(4, Words, "b", [], None, None, []));
    MarkMoves(env, [], Fresh(), 1, ManagedBlock.START);
    LetterMoves(env, v1, 2, "a");
    MarkMoves(env, [], v2, 3, ManagedBlock.END);
    LetterMoves(env, v3, 4, "b");
    ReadsAs(env, [ManagedBlock.START, "a", ManagedBlock.END, "b"], [Fresh(), v1, v2, v3, v4]);
  }

  /** The block holds the old file and nothing "changed", but the line after it is proposed. */
  lemma AddedBlockProposes(env: Env, last: string, current: string)
    requires env.clean("a") == "a" && env.clean("b") == "b"
    requires last == FileText(["a"]) && current == FileText([ManagedBlock.START, "a", ManagedBlock.END, "b"])
    ensures !Changed(env, last, current)
    ensures Proposals(Content(FileOf(env, last).lines), Content(FileOf(env, current).lines)) != []
  {
    hide Parsed, Content, Proposals, Changed, SplitLines, FileText, TrimEnd, NoBreak, Uncited, IsNew;
    var raws, others := ["a"], [ManagedBlock.START, "a", ManagedBlock.END, "b"];
    MarkShape(ManagedBlock.START);
    MarkShape(ManagedBlock.END);
    Letters();
    FileLines(raws);
    FileLines(others);
    OneLine(env);
    FourLines(env);
    Unmoved(env, last, current, raws, 0, 1, others, 1, 2);
    var a, x, b := ParsedLine(1, Words, "a", [], None, None, []), ParsedLine(2, Words, "a", [], None, None, []),
                   ParsedLine(4, Words, "b", [], None, None, []);
    var start := Bare(1, MarkerLine, ManagedBlock.START, None, []);
    var end := Bare(3, MarkerLine, ManagedBlock.END, None, []);
    FourContent(start, x, end, b);
    OneContent(a);
    OnlyNew(a, x, b);
    ProposalsEmpty([a], [x, b]);
  }

  lemma Letters()
    ensures TrimEnd("a") == "a" && NoBreak("a") && NoBreak("b")
  {
  }

  lemma FourContent(start: ParsedLine, x: ParsedLine, end: ParsedLine, b: ParsedLine)
    requires !IsContent(start) && IsContent(x) && !IsContent(end) && IsContent(b)
    ensures Content([start, x, end, b]) == [x, b]
  {
    hide IsContent, Content;
    NoContentYet();
    ContentPush([], start);
    ContentPush([start], x);
    ContentPush([start, x], end);
    ContentPush([start, x, end], b);
    assert [start] == [] + [start] && [start, x] == [start] + [x];
    assert [start, x, end] == [start, x] + [end] && [start, x, end, b] == [start, x, end] + [b];
  }

  lemma NoContentYet()
    ensures Content([]) == []
  {
  }

  lemma ContentPush(ls: seq<ParsedLine>, l: ParsedLine)
    ensures Content(ls + [l]) == if IsContent(l) then Content(ls) + [l] else Content(ls)
  {
    assert (ls + [l])[..|ls|] == ls;
  }

  /** The 0-based lines from `i` up to `j` are what counts of a file. */
  predicate Counts(managed: Option<Range>, i: nat, j: nat, count: nat) {
    managed == Some(Range(i + 1, j)) || (managed == None && i == 0 && j == count)
  }

  /** The same lines, without trailing white space, are what counts of both files. */
  lemma Unmoved(env: Env, last: string, current: string, raws: seq<string>, i: nat, j: nat,
                others: seq<string>, k: nat, l: nat)
    requires SplitLines(last) == raws && SplitLines(current) == others
    requires i <= j <= |raws| && k <= l <= |others| && raws[i..j] == others[k..l]
    requires forall t | t in raws[i..j] :: TrimEnd(t) == t
    requires Counts(Parsed(env, raws).managed, i, j, |raws|) && Counts(Parsed(env, others).managed, k, l, |others|)
    ensures !Changed(env, last, current)
  {
    hide TrimEnd, Parsed, SplitLines, DropBlank, Join;
    InnerLines(raws, i, j);
    InnerLines(others, k, l);
    assert raws[..|raws|] == raws && others[..|others|] == others;
    assert TrimEnds(raws)[..|raws|] == TrimEnds(raws) && TrimEnds(others)[..|others|] == TrimEnds(others);
  }

  lemma InnerLines(texts: seq<string>, i: nat, j: nat)
    requires i <= j <= |texts| && forall t | t in texts[i..j] :: TrimEnd(t) == t
    ensures |TrimEnds(texts)| == |texts| && TrimEnds(texts)[i..j] == texts[i..j]
  {
    hide TrimEnd;
    assert forall k | i <= k < j :: texts[k] == texts[i..j][k - i];
  }

  lemma OnlyNew(a: ParsedLine, x: ParsedLine, b: ParsedLine)
    requires a.refs == [] && x.refs == [] && b.refs == [] && a.text == "a" && x.text == "a" && b.text == "b"
    ensures IsNew([a], [x, b], 1)
  {
    assert Uncited([a], 0, "b") == 0 && Uncited([a], 1, "b") == 0 && Uncited([x, b], 0, "b") == 0;
    assert GoneCount([a], [x, b], 0, "b") == 0;
  }

  // ---------------------------------------------------------------------
  // A header before the block
  // ---------------------------------------------------------------------

  function SampleHeader(): string { HeaderStart() + HeaderTail() }

  lemma SampleIsHeader()
    ensures var h := SampleHeader();
            && h != "" && h[0] == '<' && TrimEnd(h) == h && Trim(h) == h && IsHeader(h) && IsComment(h) && !IsFence(h)
            && NoBreak(h) && h != ManagedBlock.START && h != ManagedBlock.END
  {
    hide HeaderStart, IsComment, HeaderTail;
    var h, start, rest := SampleHeader(), HeaderStart(), HeaderTail();
    StartFacts();
    TailFacts();
    assert h[..|start|] == start && h[|start|..] == rest;
    assert h[0] == start[0] && h[5] == start[5] && h[|h| - 1] == rest[|rest| - 1];
    TrimTrimmed(h);
    HeaderIsComment(h);
  }

  lemma StartFacts()
    ensures |HeaderStart()| == 28 && HeaderStart()[0] == '<' && HeaderStart()[5] == 'C' && NoBreak(HeaderStart())
  {
  }

  function HeaderTail(): string { "a at b -->" }

  lemma TailFacts()
    ensures var rest := HeaderTail();
            && |rest| == 10 && rest[9] == '>' && WordRun(rest) == 1 && " at " <= rest[1..] && NoBreak(rest)
            && EndsWith(rest[5..], " -->") && NoTerminator(rest[5..][..1])
  {
    var rest := HeaderTail();
    assert WordRun(rest[1..]) == 0;
    assert rest[1..] == " at b -->" && rest[5..] == "b -->" && rest[5..][1..] == " -->";
  }

  /** The first header line is the header, any later one a comment. */
  function Headed(v: State, n: nat): State {
    var h := SampleHeader();
    if v.header.None? then Adds(v.(header := Some(h)), Bare(n, Header, h, v.section, []))
    else Adds(v, Bare(n, Comment, h, v.section, v.scope.GetOr([])))
  }

  lemma HeaderMoves(env: Env, v: State, n: nat)
    requires StateOk(v) && v.hidden == 0 && !v.inFence
    ensures Moves(env, [], v, n, SampleHeader(), Headed(v, n))
  {
    hide Trim, TrimEnd, IsFence, IsIndented, ItemMatch, HeadingMatch, IsImport, IsHeader, IsComment, SampleHeader;
    SampleIsHeader();
    assert Trim(SampleHeader()) != "";
    assert !IsIndented(SampleHeader()) by { NotIndented(SampleHeader()); }
  }

  lemma NotIndented(s: string)
    requires s != "" && s[0] == '<'
    ensures !IsIndented(s)
  {
  }

  lemma HeaderInside(env: Env)
    ensures var h, file := SampleHeader(), Parsed(env, [ManagedBlock.START, SampleHeader(), ManagedBlock.END]);
            && file.managed == Some(Range(2, 2)) && file.header == Some(h)
            && file.lines == [Bare(1, MarkerLine, ManagedBlock.START, None, []), Bare(2, Header, h, None, []),
                              Bare(3, MarkerLine, ManagedBlock.END, None, [])]
  {
    hide Moves, Parsed, SampleHeader;
    Drift.MarkersDiffer();
    MarkShape(ManagedBlock.START);
    var v1 := Marked(Fresh(), 1, ManagedBlock.START);
    var v2 := Headed(v1, 2);
    MarkMoves(env, [], Fresh(), 1, ManagedBlock.START);
    HeaderMoves(env, v1, 2);
    MarkMoves(env, [], v2, 3, ManagedBlock.END);
    ReadsAs(env, [ManagedBlock.START, SampleHeader(), ManagedBlock.END],
            [Fresh(), v1, v2, Marked(v2, 3, ManagedBlock.END)]);
  }

  lemma HeaderBefore(env: Env)
    ensures var h := SampleHeader();
            var file := Parsed(env, [h, ManagedBlock.START, h, ManagedBlock.END]);
            && file.managed == Some(Range(3, 3)) && file.header == Some(h)
            && file.lines == [Bare(1, Header, h, None, []), Bare(2, MarkerLine, ManagedBlock.START, None, []),
                              Bare(3, Comment, h, None, []), Bare(4, MarkerLine, ManagedBlock.END, None, [])]
  {
    hide Moves, Parsed, SampleHeader, Trim, TrimEnd, IsFence, IsComment, IsHeader, NoBreak;
    Drift.MarkersDiffer();
    SampleIsHeader();
    var h := SampleHeader();
    assert h != "---";
    var v1 := Headed(Fresh(), 1);
    var v2 := Marked(v1, 2, ManagedBlock.START);
    var v3 := Headed(v2, 3);
    HeaderMoves(env, Fresh(), 1);
    MarkMoves(env, [], v1, 2, ManagedBlock.START);
    HeaderMoves(env, v2, 3);
    MarkMoves(env, [], v3, 4, ManagedBlock.END);
    ReadsAs(env, [h, ManagedBlock.START, h, ManagedBlock.END], [Fresh(), v1, v2, v3, Marked(v3, 4, ManagedBlock.END)]);
  }

  /** Both files have the same header and the same block, and nothing "changed", but the layout counts as edited:
      in the second file the line inside the block is a comment. */
  lemma HeaderBeforeBlockEditsLayout(env: Env, last: string, current: string)
    requires last == FileText([ManagedBlock.START, SampleHeader(), ManagedBlock.END])
    requires current == FileText([SampleHeader(), ManagedBlock.START, SampleHeader(), ManagedBlock.END])
    ensures !Changed(env, last, current) && FileOf(env, last).header == FileOf(env, current).header
    ensures FileOf(env, last).managed.Some? && FileOf(env, current).managed.Some?
    ensures var before, after := FileOf(env, last), FileOf(env, current);
            multiset(LayoutTexts(Tracked(before, before))) != multiset(LayoutTexts(Tracked(before, after)))
  {
    hide Parsed, Changed, SplitLines, FileText, SampleHeader, LayoutTexts, Within, TrimEnd, NoBreak, Trim, IsFence,
      IsComment, IsHeader, IsIndented;
    var h := SampleHeader();
    var raws, others := [ManagedBlock.START, h, ManagedBlock.END], [h, ManagedBlock.START, h, ManagedBlock.END];
    SampleIsHeader();
    MarkShape(ManagedBlock.START);
    MarkShape(ManagedBlock.END);
    FileLines(raws);
    FileLines(others);
    HeaderInside(env);
    HeaderBefore(env);
    Unmoved(env, last, current, raws, 1, 2, others, 2, 3);
    var a, b := Bare(2, Header, h, None, []), Bare(3, Comment, h, None, []);
    OneInside(Bare(1, MarkerLine, ManagedBlock.START, None, []), a, Bare(3, MarkerLine, ManagedBlock.END, None, []));
    TwoInside(Bare(1, Header, h, None, []), Bare(2, MarkerLine, ManagedBlock.START, None, []), b,
              Bare(4, MarkerLine, ManagedBlock.END, None, []));
    OneContent(a);
    OneContent(b);
    assert multiset([h])[h] == 1;
  }

  lemma OneInside(x: ParsedLine, a: ParsedLine, y: ParsedLine)
    requires x.line == 1 && a.line == 2 && y.line == 3
    ensures Within([x, a, y], Range(2, 2)) == [a]
  {
    WithinStretch([x, a, y], Range(2, 2), 1, 2);
  }

  lemma TwoInside(w: ParsedLine, x: ParsedLine, b: ParsedLine, y: ParsedLine)
    requires w.line == 1 && x.line == 2 && b.line == 3 && y.line == 4
    ensures Within([w, x, b, y], Range(3, 3)) == [b]
  {
    WithinStretch([w, x, b, y], Range(3, 3), 2, 3);
  }

  // ---------------------------------------------------------------------
  // An open fence in the frontmatter
  // ---------------------------------------------------------------------

  /** A text that is cleaned to itself, and other texts that this file needs. */
  predicate Cleans(env: Env) {
    && env.clean("---") == "---" && env.clean("  ---") == "---" && env.clean("# x") == "# x" && env.clean("x") == "x"
    && env.clean("- # x") == "- # x" && env.clean("# x ---") == "# x ---" && env.clean("# x --- ---") == "# x --- ---"
    && env.clean("x --- ---") == "x --- ---"
  }

  lemma FenceMoves(env: Env, files: seq<string>, v: State, n: nat)
    requires StateOk(v) && v.hidden == 0
    ensures Moves(env, files, v, n, "```",
                  Adds(v.(inFence := !v.inFence), Bare(n, Fence, "```", v.section, v.scope.GetOr(files))))
  {
    var text := "```";
    assert TrimEnd(text) == text && Trim(text) == text && IsFence(text);
  }

  /** Lines of the example that are words inside a fence. */
  lemma FencedMoves(env: Env, files: seq<string>, v: State, n: nat, text: string)
    requires StateOk(v) && v.hidden == 0 && v.inFence && v.itemRaw == None
    requires TrimEnd(text) == text && !IsFence(text)
    ensures Moves(env, files, v, n, text, Adds(v, Bare(n, Words, env.clean(text), v.section, v.scope.GetOr(files))))
  {
    hide TrimEnd, Trim, IsFence, IsIndented, ItemMatch, HeadingMatch, IsImport, IsHeader, IsComment;
  }

  lemma RuleMoves(env: Env, files: seq<string>, v: State, n: nat)
    requires StateOk(v) && v.hidden == 0 && !v.inFence && env.clean("---") == "---"
    ensures Moves(env, files, v, n, "---",
                  Adds(v, ParsedLine(n, Words, "---", [], None, v.section, v.scope.GetOr(files))))
  {
    var text := "---";
    assert TrimEnd(text) == text && Trim(text) == text && !IsIndented(text) && !IsFence(text);
    assert HeadingMatch(text) == None && ItemMatch(text) == None && !IsImport(text);
    assert text != ManagedBlock.START && text != ManagedBlock.END;
    PlainText(n, Words, text, v.section, v.scope.GetOr(files));
    hide TrimEnd, Trim, IsFence, IsIndented, ItemMatch, HeadingMatch, IsImport, IsHeader, IsComment, TextLine;
  }

  /** An item that may go on. */
  function Opens(v: State, n: nat, words: string, paths: seq<string>): State {
    Adds(v, ParsedLine(n, Item, words, [], None, v.section, paths)).(itemRaw := Some(words))
  }

  lemma ItemMoves(env: Env, files: seq<string>, v: State, n: nat)
    requires StateOk(v) && v.hidden == 0 && !v.inFence && env.clean("# x") == "# x"
    ensures Moves(env, files, v, n, "- # x", Opens(v, n, "# x", v.scope.GetOr(files)))
  {
    var text := "- # x";
    RoundTrip.NotSpecial(text);
    RoundTrip.ItemMatchExact("# x");
    assert text == "- " + "# x";
    PlainText(n, Item, "# x", v.section, v.scope.GetOr(files));
    hide TrimEnd, Trim, IsFence, IsIndented, ItemMatch, HeadingMatch, IsImport, IsHeader, IsComment, TextLine;
  }

  lemma HeadingMoves(env: Env, files: seq<string>, v: State, n: nat, title: string)
    requires StateOk(v) && v.hidden == 0 && !v.inFence && title in {"x", "x --- ---"} && env.clean(title) == title
    ensures Moves(env, files, v, n, "# " + title,
                  Adds(v.(section := None, scope := None), Bare(n, Heading, title, None, files)))
  {
    var text := "#" + " " + title;
    assert "# " + title == text && title[0] == 'x';
    assert Trimmed(title) && NoTerminator(title) && Title(title) == title;
    RoundTrip.HeadingExact(env, "#", title);
    RoundTrip.NotSpecial(text);
    hide TrimEnd, Trim, IsFence, IsIndented, ItemMatch, HeadingMatch, IsImport, IsHeader, IsComment;
  }

  /** Indented dashes continue an item. */
  lemma DashesMove(env: Env, files: seq<string>, v: State, n: nat, m: nat, words: string, paths: seq<string>)
    requires v.hidden == 0 && !v.inFence && words in {"# x", "# x ---"} && env.clean(words + " ---") == words + " ---"
    ensures Moves(env, files, Opens(v, m, words, paths), n, "  ---", Opens(v, m, words + " ---", paths))
  {
    hide TrimEnd, Trim, IsFence, IsIndented, ItemMatch, TextLine, Read;
    var text := "  ---";
    DashesShape();
    assert words + " " + "---" == words + " ---";
    PlainText(m, Item, words + " ---", v.section, paths);
    var last := Opens(v, m, words, paths).lines;
    assert last[|last| - 1 := ParsedLine(m, Item, words + " ---", [], None, v.section, paths)]
        == Opens(v, m, words + " ---", paths).lines;
  }

  lemma DashesShape()
    ensures var text := "  ---";
            && TrimEnd(text) == text && Trim(text) == "---" && IsIndented(text) && ItemMatch(text) == None
            && !IsFence(text)
  {
    var text := "  ---";
    assert text[1..] == " ---" && text[2..] == "---";
    assert TrimStart("---") == "---" && TrimStart(" ---") == "---" by { assert " ---"[1..] == "---"; }
    assert TrimEnd("---") == "---";
  }

  /** Frontmatter that opens a fence, and a body that ends inside one. */
  function FencedFile(): seq<string> { ["---", "```", "---"] + FencedBody() }

  function FencedBody(): seq<string> { ["- # x", "# x", "```", "- # x", "  ---", "  ---", "# x --- ---"] }

  /** The file inside a block. */
  function FencedBlock(): seq<string> { [ManagedBlock.START] + FencedFile() + [ManagedBlock.END] }

  /** A line without trailing white space that is no fence. */
  predicate Plain(text: string) { TrimEnd(text) == text && NoBreak(text) && !IsFence(text) }

  lemma TrimmedIsPlain(text: string)
    requires text != "" && Trimmed(text) && text[0] in {'-', '#'} && NoBreak(text)
    ensures Plain(text)
  {
    RoundTrip.NotSpecial(text);
  }

  lemma PlainTexts()
    ensures Plain("---") && Plain("- # x") && Plain("# x") && Plain("  ---") && Plain("# x --- ---")
    ensures TrimEnd("```") == "```" && NoBreak("```") && IsFence("```")
  {
    hide Plain;
    TrimmedIsPlain("---");
    TrimmedIsPlain("- # x");
    TrimmedIsPlain("# x");
    TrimmedIsPlain("# x --- ---");
    DashesPlain();
    FenceText();
  }

  lemma DashesPlain()
    ensures Plain("  ---")
  {
    DashesShape();
  }

  lemma FenceText()
    ensures TrimEnd("```") == "```" && NoBreak("```") && IsFence("```")
  {
  }

  lemma FencedTexts()
    ensures forall t | t in FencedFile() :: TrimEnd(t) == t && NoBreak(t)
    ensures forall t | t in FencedBlock() :: TrimEnd(t) == t && NoBreak(t)
  {
    hide TrimEnd, NoBreak, IsFence;
    PlainTexts();
    MarkShape(ManagedBlock.START);
    MarkShape(ManagedBlock.END);
    var raws := FencedFile();
    assert forall t | t in raws :: Plain(t) || t == "```";
    assert FencedBlock() == [ManagedBlock.START] + raws + [ManagedBlock.END];
  }

  /** The words of content lines that have no cites. */
  ghost predicate Said(ls: seq<ParsedLine>, texts: seq<string>) {
    var c := Content(ls);
    |c| == |texts| && forall i | 0 <= i < |c| :: c[i].text == texts[i] && c[i].refs == []
  }

  lemma SaidMore(v: State, texts: seq<string>, l: ParsedLine, all: seq<string>)
    requires Said(v.lines, texts) && l.refs == [] && all == if IsContent(l) then texts + [l.text] else texts
    ensures Said(Adds(v, l).lines, all)
  {
    hide Content, IsContent;
    ContentPush(v.lines, l);
  }

  lemma FencedFront(env: Env)
    ensures var raws := FencedFile();
            && BodyStart(raws) == 3 && FrontmatterOf(raws).Some? && raws[..3] == ["---", "```", "---"]
            && raws[3..] == FencedBody()
  {
    var raws := FencedFile();
    assert TrimEnd("---") == "---" && TrimEnd("```") == "```";
    assert IsRule(raws[0]) && !IsRule(raws[1]) && IsRule(raws[2]);
    hide IsRule;
    RuleIs(raws, 1, 2);
  }

  /** The states that the body of the file leads to. */
  function FencedStates(files: seq<string>, v0: State): seq<State> {
    var v1 := Opens(v0, 4, "# x", files);
    var v2 := Adds(v1, Bare(5, Heading, "x", None, files));
    var v3 := Adds(v2.(inFence := true), Bare(6, Fence, "```", None, files));
    var v4 := Adds(v3, Bare(7, Words, "- # x", None, files));
    var v5 := Adds(v4, Bare(8, Words, "---", None, files));
    var v6 := Adds(v5, Bare(9, Words, "---", None, files));
    [v0, v1, v2, v3, v4, v5, v6, Adds(v6, Bare(10, Words, "# x --- ---", None, files))]
  }

  /** The file by itself: what follows the second fence is words. */
  lemma ReadFenced(env: Env)
    requires Cleans(env)
    ensures var file := Parsed(env, FencedFile());
            && file.managed == None && file.frontmatter.Some?
            && Said(file.lines, ["# x", "- # x", "---", "---", "# x --- ---"])
  {
    hide Moves, Fold, Said, FencedFile, FencedStates, FrontmatterLines, FrontmatterClose, Step;
    var raws := FencedFile();
    var files, init := FilePaths(env, raws), InitialState(env, raws);
    var v0 := init.(hidden := 0);
    FencedFront(env);
    FromTheBody(env, raws);
    FencedRun(env, files, v0);
    Runs(env, files, init, 4, FencedBody(), FencedStates(files, v0));
    FrontSaid(raws[..3]);
    FencedSaid(files, v0);
  }

  lemma FencedRun(env: Env, files: seq<string>, v0: State)
    requires Cleans(env) && v0 == Fresh().(lines := v0.lines)
    ensures var vs := FencedStates(files, v0);
            && |vs| == 8 && vs[0] == v0
            && forall i | 0 <= i < 7 :: Moves(env, files, vs[i], 4 + i, FencedBody()[i], vs[i + 1])
  {
    hide Moves, Said, IsFence, TrimEnd;
    PlainTexts();
    var vs := FencedStates(files, v0);
    ItemMoves(env, files, v0, 4);
    assert "# " + "x" == "# x";
    HeadingMoves(env, files, vs[1], 5, "x");
    FenceMoves(env, files, vs[2], 6);
    FencedMoves(env, files, vs[3], 7, "- # x");
    FencedMoves(env, files, vs[4], 8, "  ---");
    FencedMoves(env, files, vs[5], 9, "  ---");
    FencedMoves(env, files, vs[6], 10, "# x --- ---");
  }

  lemma FencedSaid(files: seq<string>, v0: State)
    requires Said(v0.lines, [])
    ensures var vs := FencedStates(files, v0);
            && vs[7].starts == v0.starts && vs[7].ends == v0.ends
            && Said(vs[7].lines, ["# x", "- # x", "---", "---", "# x --- ---"])
  {
    hide Said;
    var vs := FencedStates(files, v0);
    SaidMore(v0, [], ParsedLine(4, Item, "# x", [], None, v0.section, files), ["# x"]);
    SaidMore(vs[1], ["# x"], Bare(5, Heading, "x", None, files), ["# x"]);
    SaidMore(vs[2], ["# x"], Bare(6, Fence, "```", None, files), ["# x"]);
    SaidMore(vs[3], ["# x"], Bare(7, Words, "- # x", None, files), ["# x", "- # x"]);
    SaidMore(vs[4], ["# x", "- # x"], Bare(8, Words, "---", None, files), ["# x", "- # x", "---"]);
    SaidMore(vs[5], ["# x", "- # x", "---"], Bare(9, Words, "---", None, files), ["# x", "- # x", "---", "---"]);
    SaidMore(vs[6], ["# x", "- # x", "---", "---"], Bare(10, Words, "# x --- ---", None, files),
             ["# x", "- # x", "---", "---", "# x --- ---"]);
  }

  lemma FrontSaid(front: seq<string>)
    ensures Said(FrontmatterLines(front), [])
  {
    FrontmatterQuiet(front);
  }

  /** The states that the block leads to. */
  function BlockStates(): seq<State> {
    var u1 := Marked(Fresh(), 1, ManagedBlock.START);
    var u2 := Adds(u1, Bare(2, Words, "---", None, []));
    var u3 := Adds(u2.(inFence := true), Bare(3, Fence, "```", None, []));
    var u4 := Adds(u3, Bare(4, Words, "---", None, []));
    var u5 := Adds(u4, Bare(5, Words, "- # x", None, []));
    var u6 := Adds(u5, Bare(6, Words, "# x", None, []));
    var u7 := Adds(u6.(inFence := false), Bare(7, Fence, "```", None, []));
    var u11 := Adds(Opens(u7, 8, "# x --- ---", []), Bare(11, Heading, "x --- ---", None, []));
    [Fresh(), u1, u2, u3, u4, u5, u6, u7, Opens(u7, 8, "# x", []), Opens(u7, 8, "# x ---", []),
     Opens(u7, 8, "# x --- ---", []), u11, Marked(u11, 12, ManagedBlock.END)]
  }

  lemma OpeningRun(env: Env)
    requires Cleans(env)
    ensures var us := BlockStates();
            forall i | 0 <= i < 7 :: Moves(env, [], us[i], 1 + i, FencedBlock()[i], us[i + 1])
  {
    hide Moves, IsFence, TrimEnd;
    PlainTexts();
    Drift.MarkersDiffer();
    var us := BlockStates();
    MarkMoves(env, [], us[0], 1, ManagedBlock.START);
    RuleMoves(env, [], us[1], 2);
    FenceMoves(env, [], us[2], 3);
    FencedMoves(env, [], us[3], 4, "---");
    FencedMoves(env, [], us[4], 5, "- # x");
    FencedMoves(env, [], us[5], 6, "# x");
    FenceMoves(env, [], us[6], 7);
  }

  lemma ClosingRun(env: Env)
    requires Cleans(env)
    ensures var us := BlockStates();
            forall i | 7 <= i < 12 :: Moves(env, [], us[i], 1 + i, FencedBlock()[i], us[i + 1])
  {
    hide Moves, IsFence, TrimEnd;
    ClosingTexts();
    Drift.MarkersDiffer();
    var us := BlockStates();
    ItemMoves(env, [], us[7], 8);
    DashesMove(env, [], us[7], 9, 8, "# x", []);
    DashesMove(env, [], us[7], 10, 8, "# x ---", []);
    HeadingMoves(env, [], us[10], 11, "x --- ---");
    MarkMoves(env, [], us[11], 12, ManagedBlock.END);
  }

  lemma BlockRun(env: Env)
    requires Cleans(env)
    ensures var us := BlockStates();
            forall i | 0 <= i < 12 :: Moves(env, [], us[i], 1 + i, FencedBlock()[i], us[i + 1])
  {
    hide Moves, BlockStates, FencedBlock;
    BlockMarks();
    OpeningRun(env);
    ClosingRun(env);
  }

  lemma ClosingTexts()
    ensures "# x" + " ---" == "# x ---" && "# x ---" + " ---" == "# x --- ---" && "# " + "x --- ---" == "# x --- ---"
  {
  }

  lemma OpeningSaid()
    ensures Said(BlockStates()[7].lines, ["---", "---", "- # x", "# x"])
  {
    hide Said;
    Drift.MarkersDiffer();
    NothingSaid();
    var us := BlockStates();
    SaidMore(us[0], [], Bare(1, MarkerLine, ManagedBlock.START, None, []), []);
    SaidMore(us[1], [], Bare(2, Words, "---", None, []), ["---"]);
    SaidMore(us[2], ["---"], Bare(3, Fence, "```", None, []), ["---"]);
    SaidMore(us[3], ["---"], Bare(4, Words, "---", None, []), ["---", "---"]);
    SaidMore(us[4], ["---", "---"], Bare(5, Words, "- # x", None, []), ["---", "---", "- # x"]);
    SaidMore(us[5], ["---", "---", "- # x"], Bare(6, Words, "# x", None, []), ["---", "---", "- # x", "# x"]);
    SaidMore(us[6], ["---", "---", "- # x", "# x"], Bare(7, Fence, "```", None, []), ["---", "---", "- # x", "# x"]);
  }

  lemma BlockSaid()
    ensures Said(BlockStates()[12].lines, ["---", "---", "- # x", "# x", "# x --- ---"])
  {
    hide Said;
    Drift.MarkersDiffer();
    OpeningSaid();
    var us := BlockStates();
    var some, all := ["---", "---", "- # x", "# x"], ["---", "---", "- # x", "# x", "# x --- ---"];
    SaidMore(us[7], some, ParsedLine(8, Item, "# x --- ---", [], None, us[7].section, []), all);
    SaidMore(us[10], all, Bare(11, Heading, "x --- ---", None, []), all);
    SaidMore(us[11], all, Bare(12, MarkerLine, ManagedBlock.END, None, []), all);
  }

  lemma NothingSaid()
    ensures Said([], [])
  {
  }

  /** The file inside a block: the rules are words, and the body is read the other way round. */
  lemma ReadBlock(env: Env)
    requires Cleans(env)
    ensures var file := Parsed(env, FencedBlock());
            && file.managed == Some(Range(2, 11))
            && Said(file.lines, ["---", "---", "- # x", "# x", "# x --- ---"])
            && |file.lines| > 1 && file.lines[1].line == 2 && IsContent(file.lines[1])
  {
    hide Moves, Said, Parsed;
    MarkShape(ManagedBlock.START);
    BlockRun(env);
    BlockSaid();
    BlockMarks();
    ReadsAs(env, FencedBlock(), BlockStates());
  }

  lemma BlockMarks()
    ensures var us := BlockStates();
            && |us| == 13 && |FencedBlock()| == 12 && us[0] == Fresh() && us[12].starts == [1] && us[12].ends == [12]
            && |us[2].lines| == 2 && us[2].lines[1] == us[12].lines[1] == Bare(2, Words, "---", None, [])
  {
    Drift.MarkersDiffer();
  }

  lemma {:induction false} SaidCounts(c: seq<ParsedLine>, texts: seq<string>, n: nat, t: string)
    requires n <= |c| == |texts| && forall i | 0 <= i < |c| :: c[i].text == texts[i] && c[i].refs == []
    ensures Positions(c, n, t) == [] && Uncited(c, n, t) == multiset(texts[..n])[t]
  {
    if n > 0 {
      SaidCounts(c, texts, n - 1, t);
      assert texts[..n] == texts[..n - 1] + [texts[n - 1]];
    } else {
      assert texts[..0] == [];
    }
  }

  lemma SaidAlike(a: seq<ParsedLine>, b: seq<ParsedLine>, was: seq<string>, now: seq<string>)
    requires Said(a, was) && Said(b, now) && multiset(was) == multiset(now)
    ensures Proposals(Content(a), Content(b)) == [] && !LayoutLeft(Content(a), Content(b))
  {
    hide Proposals, LayoutLeft, Content, Positions, Uncited;
    assert was[..|was|] == was && now[..|now|] == now;
    forall t
      ensures CitedTexts(Content(b), t) == CitedTexts(Content(a), t)
      ensures Uncited(Content(b), |Content(b)|, t) == Uncited(Content(a), |Content(a)|, t)
    {
      SaidCounts(Content(a), was, |was|, t);
      SaidCounts(Content(b), now, |now|, t);
    }
    MovesAreSilent(Content(a), Content(b));
  }

  /** Why `AddedBlock.SilentExactly` and `AddedBlock.FrontmatterIsProposed` need closed fences: here the frontmatter
      has one fence line, nothing "changed" and nothing is proposed, and yet line 2 of the current file, a rule of the
      frontmatter, is content before the body. */
  lemma OpenFenceIsSilent(env: Env, last: string, current: string)
    requires Cleans(env) && last == FileText(FencedFile()) && current == FileText(FencedBlock())
    ensures !Changed(env, last, current)
    ensures var before, after := FileOf(env, last), FileOf(env, current);
            && before.managed.None? && before.frontmatter.Some? && after.managed == Some(Range(2, 11))
            && (exists i | 0 <= i < |Content(after.lines)| :: Content(after.lines)[i].line == 2)
            && Proposals(Content(before.lines), Content(after.lines)) == []
            && !LayoutLeft(Content(before.lines), Content(after.lines))
  {
    hide Parsed, Changed, SplitLines, FileText, Said, TrimEnd, NoBreak, IsFence, Content, Proposals, LayoutLeft;
    FencedTexts();
    MarkShape(ManagedBlock.START);
    FileLines(FencedFile());
    FileLines(FencedBlock());
    ReadFenced(env);
    ReadBlock(env);
    assert FencedBlock()[1..11] == FencedFile() == FencedFile()[..10];
    Unmoved(env, last, current, FencedFile(), 0, 10, FencedBlock(), 1, 11);
    var was, now := ["# x", "- # x", "---", "---", "# x --- ---"], ["---", "---", "- # x", "# x", "# x --- ---"];
    assert multiset(was) == multiset(now);
    SaidAlike(FileOf(env, last).lines, FileOf(env, current).lines, was, now);
    ContentHolds(FileOf(env, current).lines, 1);
  }
}
