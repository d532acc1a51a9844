/** Changing or dropping the list marker of a printed item, or hiding characters in it, from the text of both files to
    the change set. */
module Relisting {
  import opened Text
  import opened Patterns
  import opened Model
  import Document
  import ManagedBlock
  import opened Parse
  import opened Diff
  import opened DiffLaws
  import opened RoundTrip
  import opened Rereading
  import opened ParseBack
  import opened Swapping
  import Rewording

  // ---------------------------------------------------------------------
  // List markers
  // ---------------------------------------------------------------------

  /** `-`, `*`, `+`, or up to nine digits and `.` or `)`, and a space. */
  predicate IsListMark(mark: string) {
    || mark in {"- ", "* ", "+ "}
    || (3 <= |mark| <= 11 && mark[|mark| - 1] == ' ' && mark[|mark| - 2] in {'.', ')'}
        && forall i | 0 <= i < |mark| - 2 :: IsDigit(mark[i]))
  }

  lemma {:induction false} DigitsRun(s: string, rest: string)
    requires (forall i | 0 <= i < |s| :: IsDigit(s[i])) && (rest == "" || !IsDigit(rest[0]))
    ensures DigitRun(s + rest) == |s|
  {
    if s == "" {
      assert s + rest == rest;
    } else {
      assert (s + rest)[1..] == s[1..] + rest;
      DigitsRun(s[1..], rest);
    }
  }

  lemma BulletExact(mark: string, body: string)
    requires IsListMark(mark)
    ensures AfterBullet(mark + body) == Some(" " + body)
  {
    var s := mark + body;
    if mark in {"- ", "* ", "+ "} {
      assert s[1..] == " " + body;
    } else {
      NumberExact(mark[..|mark| - 2], mark[|mark| - 2], body);
      assert s == mark[..|mark| - 2] + [mark[|mark| - 2]] + " " + body;
    }
  }

  lemma NumberExact(digits: string, c: char, body: string)
    requires 1 <= |digits| <= 9 && (forall i | 0 <= i < |digits| :: IsDigit(digits[i])) && c in {'.', ')'}
    ensures AfterBullet(digits + [c] + " " + body) == Some(" " + body)
  {
    var rest := [c] + " " + body;
    var s := digits + rest;
    assert digits + [c] + " " + body == s;
    DigitsRun(digits, rest);
    assert s[0] == digits[0] && s[|digits|] == c && s[|digits| + 1..] == " " + body;
  }

  /** A line with this first character is no other kind of line. */
  lemma FirstIsPlain(s: string)
    requires s != "" && Trimmed(s) && s[0] !in {'#', '`', '~', '@'}
    ensures TrimEnd(s) == s && Trim(s) == s && !IsIndented(s) && !IsFence(s) && HeadingMatch(s).None? && !IsImport(s)
  {
    TrimTrimmed(s);
  }

  /** A line that ends in a bracket is no comment and no rule. */
  lemma LastIsPlain(s: string)
    requires s != "" && Trimmed(s) && s[|s| - 1] == ']'
    ensures !IsHeader(s) && !IsComment(s) && s != ManagedBlock.START && s != ManagedBlock.END && !IsRule(s)
  {
    TrimTrimmed(s);
    hide TrimStart, TrimEnd, WordRun, NoTerminator, HeaderStart;
    NoHeader(s);
  }

  lemma NoHeader(s: string)
    requires s != "" && s[|s| - 1] == ']'
    ensures !IsHeader(s)
  {
    hide WordRun, NoTerminator, HeaderStart;
  }

  lemma ItemIs(mark: string, body: string)
    requires IsListMark(mark) && body != "" && Trimmed(body) && NoTerminator(body)
    ensures !IsSpace((mark + body)[0]) && ItemMatch(mark + body) == Some(body)
    ensures (mark + body)[0] in {'-', '*', '+'} || IsDigit((mark + body)[0])
  {
    hide AfterBullet, NoTerminator;
    BulletExact(mark, body);
    MarkFirst(mark);
    var s := mark + body;
    assert s[0] == mark[0];
    assert TrimStart(s) == s;
    SpaceFirst(body);
  }

  lemma MarkFirst(mark: string)
    requires IsListMark(mark)
    ensures mark != "" && (mark[0] in {'-', '*', '+'} || IsDigit(mark[0]))
  {
  }

  lemma SpaceFirst(body: string)
    requires body != "" && Trimmed(body)
    ensures TrimStart(" " + body) == body
  {
    assert (" " + body)[1..] == body;
    TrimTrimmed(body);
  }

  /** Words on one line that begin and end with something to see. */
  predicate Visible(words: string) { words != "" && Trimmed(words) && NoTerminator(words) }

  /** A list marker and words are an item of these words, and nothing else. */
  lemma ListMarkReads(mark: string, words: string)
    requires IsListMark(mark) && Visible(words)
    ensures var s := mark + words;
            && TrimEnd(s) == s && Trim(s) == s && s != "" && ItemMatch(s) == Some(words) && !IsIndented(s)
            && !IsFence(s) && HeadingMatch(s).None? && !IsImport(s) && !IsHeader(s) && !IsComment(s)
            && s != ManagedBlock.START && s != ManagedBlock.END && !IsRule(s)
  {
    hide ItemMatch, IsFence, HeadingMatch, IsImport, IsHeader, IsComment, IsRule, IsIndented, TrimEnd, Trim,
      NoTerminator;
    var s := mark + words;
    ItemIs(mark, words);
    assert s[|s| - 1] == words[|words| - 1];
    MarkLast(mark);
    assert s[|mark| - 1] == ' ';
    hide IsListMark;
    FirstIsPlain(s);
    SpaceIsNoRule(s);
    NoCommentFirst(s);
  }

  lemma MarkLast(mark: string)
    requires IsListMark(mark)
    ensures mark[|mark| - 1] == ' '
  {
  }

  lemma SpaceIsNoRule(s: string)
    requires ' ' in s && TrimEnd(s) == s
    ensures !IsRule(s)
  {
  }

  lemma NoCommentFirst(s: string)
    requires s != "" && !IsSpace(s[0]) && s[0] != '<'
    ensures !IsHeader(s) && !IsComment(s) && s != ManagedBlock.START && s != ManagedBlock.END
  {
    hide NoTerminator, WordRun;
    assert ManagedBlock.START[0] == '<' && ManagedBlock.END[0] == '<' && HeaderStart()[0] == '<';
  }

  // ---------------------------------------------------------------------
  // Without one
  // ---------------------------------------------------------------------

  /** Words that a line without a list marker keeps: no other kind of line. */
  predicate StandsAlone(words: string) {
    && !IsFence(words) && HeadingMatch(words).None? && ItemMatch(words).None? && !IsImport(words) && !IsComment(words)
    && words != ManagedBlock.START && words != ManagedBlock.END && !IsRule(words)
  }

  lemma BareShape(body: string)
    requires body != "" && Trimmed(body) && body[|body| - 1] == ']' && ' ' in body
    ensures TrimEnd(body) == body && Trim(body) == body && !IsIndented(body) && !IsHeader(body) && !IsComment(body)
    ensures !IsImport(body) && body != ManagedBlock.START && body != ManagedBlock.END && !IsRule(body)
  {
    TrimTrimmed(body);
    LastIsPlain(body);
    hide IsHeader, IsComment, IsRule, TrimEnd, Trim, TrimStart;
    if IsImport(body) { AllWord(body[1..]); }
  }

  lemma {:induction false} AllWord(s: string)
    requires WordRun(s) == |s|
    ensures ' ' !in s
  {
    if s != "" { AllWord(s[1..]); }
  }

  /** The words and cites of a text line, as printed. */
  lemma BareTextExact(e: Entry, n: nat, section: Option<string>, paths: seq<string>)
    requires e.text != "" && Trimmed(e.text) && e.refs != [] && Refs(e.refs)
    ensures TextLine(n, Words, Document.ItemBody(e), section, paths) ==
            ParsedLine(n, Words, Document.MarkerPrefix(e) + e.text, e.refs, None, section, paths)
  {
    var words := Document.MarkerPrefix(e) + e.text;
    assert Trimmed(words);
    CitesExact(words, e.refs);
  }

  /** Outside a fence, a printed item without its `- ` is read as words, with its text and cites, in the section and
      scope it stands in, exactly if it is no fence, heading or item by itself. The marker is part of the words. */
  lemma BareReads(env: Env, files: seq<string>, st: State, n: nat, e: Entry)
    requires StateOk(st) && !st.inFence && Printable(env, e)
    ensures var body := Document.ItemBody(e);
            var r := Step(env, files, st, n, body);
            && |r.lines| == |st.lines| + 1
            && (r.lines[|st.lines|].kind == Words <==> StandsAlone(body))
            && (StandsAlone(body) ==>
                  && Reads(env, files, st, n, body, r.lines[|st.lines|])
                  && r.lines[|st.lines|] ==
                     ParsedLine(n, Words, Document.MarkerPrefix(e) + e.text, e.refs, None, st.section,
                                st.scope.GetOr(files)))
  {
    hide Document.ItemBody, TextLine, IsFence, IsIndented, ItemMatch, HeadingMatch, IsImport, IsHeader, IsComment,
      Trim, TrimEnd, NoTerminator, IsRule;
    var body := Document.ItemBody(e);
    BodyShape(e);
    BodyEnds(e);
    BareShape(body);
    BareTextExact(e, n, st.section, st.scope.GetOr(files));
  }

  /** Words that clean to a printed item's are read the same. */
  lemma WordsRead(env: Env, files: seq<string>, st: State, n: nat, words: string, e: Entry)
    requires StateOk(st) && !st.inFence && Printable(env, e) && Visible(words) && StandsAlone(words)
    requires env.clean(words) == Document.ItemBody(e)
    ensures Reads(env, files, st, n, words,
                  ParsedLine(n, Words, Document.MarkerPrefix(e) + e.text, e.refs, None, st.section,
                             st.scope.GetOr(files)))
  {
    hide Document.ItemBody, TextLine, IsFence, IsIndented, ItemMatch, HeadingMatch, IsImport, IsHeader, IsComment,
      Trim, TrimEnd, NoTerminator, IsRule;
    TrimTrimmed(words);
    NotIndented(words);
    if IsHeader(Trim(TrimEnd(words))) { HeaderIsComment(words); }
    BareTextExact(e, n, st.section, st.scope.GetOr(files));
  }

  lemma NotIndented(words: string)
    requires words != "" && Trimmed(words)
    ensures !IsIndented(words)
  {
  }

  lemma BodyEnds(e: Entry)
    ensures var body := Document.ItemBody(e); body[|body| - 1] == ']' && ' ' in body
  {
    var body, start := Document.ItemBody(e), Document.MarkerPrefix(e) + e.text;
    assert body[|body| - 1] == ']';
    assert body[|start|] == ' ';
  }

  lemma ListedReads(env: Env, files: seq<string>, st: State, n: nat, mark: string, words: string, e: Entry)
    requires StateOk(st) && !st.inFence && Printable(env, e) && IsListMark(mark) && Visible(words)
    requires env.clean(words) == Document.ItemBody(e)
    ensures var raw := mark + words;
            && !IsRule(raw)
            && Reads(env, files, st, n, raw, ParsedEntry(e, n, st.section, st.scope.GetOr(files)))
  {
    hide Document.ItemBody, TextLine, IsFence, IsIndented, ItemMatch, HeadingMatch, IsImport, IsHeader, IsComment,
      Trim, TrimEnd, NoTerminator, IsRule, IsListMark, Visible;
    ListMarkReads(mark, words);
    TextLineExact(e, n, st.section, st.scope.GetOr(files));
  }

  // ---------------------------------------------------------------------
  // Over two lines
  // ---------------------------------------------------------------------

  /** White space and words that neither open an item nor a fence. */
  predicate GoesOn(raw: string, words: string) {
    && raw != "" && IsSpace(raw[0]) && TrimEnd(raw) == raw && Trim(raw) == words && TrimStart(raw) != ""
    && ItemMatch(raw).None? && !IsFence(raw)
  }

  lemma ListedState(env: Env, files: seq<string>, st: State, n: nat, mark: string, words: string)
    requires StateOk(st) && !st.inFence && IsListMark(mark) && Visible(words)
    ensures var r := Step(env, files, st, n, mark + words);
            && r.lines == st.lines + [TextLine(n, Item, env.clean(words), st.section, st.scope.GetOr(files))]
            && r.itemRaw == Some(words) && r.inFence == st.inFence && r.section == st.section && r.scope == st.scope
  {
    hide TextLine, IsFence, IsIndented, ItemMatch, HeadingMatch, IsImport, IsHeader, IsComment, Trim, TrimEnd,
      NoTerminator, IsRule, IsListMark, Visible;
    ListMarkReads(mark, words);
  }

  lemma TextLineStands(n: nat, kind: Kind, text: string, section: Option<string>, paths: seq<string>)
    ensures var l := TextLine(n, kind, text, section, paths);
            l.line == n && l.kind == kind && l.section == section && l.paths == paths
  {
    hide CitesMatch, MarkerMatch;
  }

  lemma ContinuedState(env: Env, files: seq<string>, st: State, n: nat, words: string, raw: string, b: string)
    requires StateOk(st) && st.itemRaw == Some(words) && GoesOn(raw, b)
    ensures var last := |st.lines| - 1;
            var prev := st.lines[last];
            Step(env, files, st, n, raw).lines ==
            st.lines[..last] + [TextLine(prev.line, Item, env.clean(words + " " + b), prev.section, prev.paths)]
  {
    hide TextLine, IsFence, ItemMatch, Trim, TrimEnd, TrimStart, Read;
  }

  /** A printed item that is broken over two lines, the second one indented, is read as one line, the first, with its
      words joined by a space and cleaned. */
  lemma BrokenReads(env: Env, files: seq<string>, st: State, n: nat, mark: string, a: string, raw: string, b: string,
                    e: Entry)
    requires StateOk(st) && !st.inFence && Printable(env, e) && IsListMark(mark) && Visible(a) && GoesOn(raw, b)
    requires env.clean(a + " " + b) == Document.ItemBody(e)
    ensures Fold(env, files, st, n, [mark + a, raw]).lines ==
            st.lines + [ParsedEntry(e, n, st.section, st.scope.GetOr(files))]
  {
    hide Document.ItemBody, TextLine, NoTerminator, IsListMark, Visible, Step, Fold, GoesOn;
    var paths := st.scope.GetOr(files);
    ListedState(env, files, st, n, mark, a);
    TextLineStands(n, Item, env.clean(a), st.section, paths);
    TextLineExact(e, n, st.section, paths);
    var mid := Step(env, files, st, n, mark + a);
    ContinuedState(env, files, mid, n + 1, a, raw, b);
    FoldStep(env, files, st, n, [mark + a, raw], [raw]);
    FoldStep(env, files, mid, n + 1, [raw], []);
    FoldEnd(env, files, Step(env, files, mid, n + 1, raw), n + 2);
    assert mid.lines[..|mid.lines| - 1] == st.lines;
  }

  // ---------------------------------------------------------------------
  // From file text to change set
  // ---------------------------------------------------------------------

  /** The line says what the entry prints, once hidden characters are out and white space is in order: behind a list
      marker; or, if the entry has no marker and the words stand alone, behind none. */
  ghost predicate Says(env: Env, raw: string, e: Entry) {
    || (exists mark, words :: IsListed(raw, mark, words) && env.clean(words) == Document.ItemBody(e))
    || (Visible(raw) && StandsAlone(raw) && env.clean(raw) == Document.ItemBody(e) && e.marker == None)
  }

  predicate IsListed(raw: string, mark: string, words: string) {
    raw == mark + words && IsListMark(mark) && Visible(words)
  }

  /** One file is the other with another list marker, or none, or with hidden characters, on the line `k` (from 0) of an
      item. */
  ghost predicate OneItemRelisted(env: Env, raws: seq<string>, others: seq<string>, k: nat, e: Entry) {
    && BodyStart(raws) <= k < |raws| == |others| && others == raws[k := others[k]]
    && Printable(env, e) && Says(env, raws[k], e) && Says(env, others[k], e)
    && (k + 1 < |raws| ==> Separate(raws[k + 1]))
    && !Before(env, raws, k).inFence
  }

  lemma PrintedReads(env: Env, files: seq<string>, st: State, n: nat, raw: string, e: Entry) returns (l: ParsedLine)
    requires StateOk(st) && !st.inFence && Printable(env, e) && Says(env, raw, e)
    ensures Reads(env, files, st, n, raw, l) && !IsRule(raw)
    ensures l.line == n && l.refs == e.refs && l.text == e.text && IsContent(l)
  {
    hide Step, Document.ItemBody, IsListMark, IsRule, Reads, IsFence, HeadingMatch, ItemMatch, IsImport, IsComment,
      Visible;
    Rewording.PrintableCites(env, e);
    if mark, words :| IsListed(raw, mark, words) && env.clean(words) == Document.ItemBody(e) {
      ListedReads(env, files, st, n, mark, words, e);
      l := ParsedEntry(e, n, st.section, st.scope.GetOr(files));
    } else {
      WordsRead(env, files, st, n, raw, e);
      l := ParsedLine(n, Words, e.text, e.refs, None, st.section, st.scope.GetOr(files));
      assert Document.MarkerPrefix(e) + e.text == e.text;
    }
  }

  /** Another list marker, or none, or hidden characters: nothing is proposed, and neither layout nor header nor
      frontmatter counts as edited, in a block or outside. */
  lemma RelistingIsSilent(env: Env, last: string, current: string, k: nat, e: Entry)
    requires OneItemRelisted(env, SplitLines(last), SplitLines(current), k, e)
    ensures var before, after := FileOf(env, last), FileOf(env, current);
            var was, now := Tracked(before, before), Tracked(before, after);
            && Proposals(Content(was), Content(now)) == []
            && !LayoutLeft(Content(was), Content(now)) && LayoutTexts(was) == LayoutTexts(now)
            && before.managed == after.managed && before.header == after.header
            && before.frontmatter == after.frontmatter
  {
    hide FinalState, Content, SplitLines, Proposals, LayoutLeft, Printable, Separate, FileOf, Tracked, LayoutTexts,
      AllAlike, SameWords, Reads, Says, IsRule, Step, Fold, IsReworked;
    var raws, others := SplitLines(last), SplitLines(current);
    var files, st := FilePaths(env, raws), Before(env, raws, k);
    var l := PrintedReads(env, files, st, k + 1, raws[k], e);
    var m := PrintedReads(env, files, st, k + 1, others[k], e);
    var cut := ReworkedTracked(env, last, current, k, l, m);
    var before, after := FileOf(env, last), FileOf(env, current);
    var was, now := Tracked(before, before), Tracked(before, after);
    if Answers(before, k + 1) {
      ReworkedContent(was, now, cut);
      SameTextsSame(Content(was), Content(now), |Content(cut.pre)|);
    } else {
      AlikeContent(was, now, true);
    }
    SameWordsSilent(Content(was), Content(now));
  }

  lemma SameTextsSame(before: seq<ParsedLine>, after: seq<ParsedLine>, i: nat)
    requires RewordedAt(before, after, i) && before[i].text == after[i].text
    ensures SameWords(before, after)
  {
  }
}
