/** packages/compiler/src/managed-block.ts: one managed block inside a file
    the person owns. */
module ManagedBlock {
  import opened Text

  const START := "<!-- memax:start -->"
  const END := "<!-- memax:end -->"

  /** A line with its own terminator: `\n`, `\r\n`, `\r`, or nothing at the end of the file. */
  datatype RawLine = RawLine(text: string, eol: string)

  /** A block's 0-based marker lines. */
  datatype Span = Span(start: nat, end: nat)

  /** Broken markers are the one error: the source's ManagedBlockError. */
  datatype Result<+T> = Ok(value: T) | BrokenMarkers

  // ---------------------------------------------------------------------
  // Lossless, canonical lines
  // ---------------------------------------------------------------------

  function LineLength(s: string): (n: nat)
    ensures n <= |s|
    ensures n < |s| ==> IsBreak(s[n])
    ensures forall i | 0 <= i < n :: !IsBreak(s[i])
  {
    if s == "" || IsBreak(s[0]) then 0 else 1 + LineLength(s[1..])
  }

  /** The line break at the head of `s`: `\r\n` counts as one. */
  function BreakAt(s: string): (eol: string)
    ensures eol <= s
    ensures eol != "" <==> s != "" && IsBreak(s[0])
  {
    if s == "" || !IsBreak(s[0]) then ""
    else if |s| >= 2 && s[0] == '\r' && s[1] == '\n' then s[..2]
    else s[..1]
  }

  function FirstLine(s: string): RawLine {
    var n := LineLength(s);
    RawLine(s[..n], BreakAt(s[n..]))
  }

  function Raw(l: RawLine): string { l.text + l.eol }

  /** What follows the first line. */
  function Rest(s: string): (r: string)
    requires s != ""
    ensures |r| < |s|
  {
    s[|Raw(FirstLine(s))|..]
  }

  function Lines(s: string): seq<RawLine>
    decreases |s|
  {
    if s == "" then [] else [FirstLine(s)] + Lines(Rest(s))
  }

  function Flat(ls: seq<RawLine>): string {
    if ls == [] then "" else Raw(ls[0]) + Flat(ls[1..])
  }

  predicate IsEol(eol: string) { eol == "\n" || eol == "\r\n" || eol == "\r" }

  /** A lone `\r` doesn't run into the next line's `\n`. */
  predicate Apart(eol: string, next: seq<RawLine>) {
    next != [] && eol == "\r" && next[0].text == "" ==> next[0].eol != "\n"
  }

  /** What lines read from a file look like. */
  predicate Canonical(ls: seq<RawLine>) {
    ls == [] ||
    (&& NoBreak(ls[0].text)
     && (IsEol(ls[0].eol) || (ls[0].eol == "" && |ls| == 1 && ls[0].text != ""))
     && Apart(ls[0].eol, ls[1..])
     && Canonical(ls[1..]))
  }

  /** `splitKeep`: reads one line at a time from the last position of the pattern. */
  method SplitKeep(content: string) returns (lines: seq<RawLine>)
    ensures lines == Lines(content)
  {
    hide FirstLine, Lines;
    lines := [];
    var pos := 0;
    assert content[0..] == content;
    while pos < |content|
      invariant pos <= |content|
      invariant lines + Lines(content[pos..]) == Lines(content)
    {
      var l := FirstLine(content[pos..]);
      LinesStep(content, pos);
      lines := lines + [l];
      pos := pos + |Raw(l)|;
    }
    LinesEmpty(content[pos..]);
  }

  lemma LinesStep(s: string, pos: nat)
    requires pos < |s|
    ensures var l := FirstLine(s[pos..]);
            pos + |Raw(l)| <= |s| && Lines(s[pos..]) == [l] + Lines(s[pos + |Raw(l)|..])
    ensures |Raw(FirstLine(s[pos..]))| > 0
  {
    hide FirstLine;
    FirstLineShape(s[pos..]);
    assert Rest(s[pos..]) == s[pos + |Raw(FirstLine(s[pos..]))|..];
  }

  lemma FirstLineShape(s: string)
    requires s != ""
    ensures s == Raw(FirstLine(s)) + Rest(s)
    ensures var RawLine(text, eol) := FirstLine(s);
            && NoBreak(text)
            && (IsEol(eol) || (eol == "" && Rest(s) == "" && text != ""))
            && (eol == "\r" && Rest(s) != "" ==> Rest(s)[0] != '\n')
            && (text == "" ==> IsBreak(s[0])) && (eol == "\n" && text == "" ==> s[0] == '\n')
  {
    var n := LineLength(s);
    var tail := s[n..];
    var eol := BreakAt(tail);
    assert Rest(s) == tail[|eol|..];
    assert |tail| > 1 ==> tail[1] == tail[1..][0];
  }

  lemma {:induction false} LinesLossless(s: string)
    ensures Flat(Lines(s)) == s
    decreases |s|
  {
    hide FirstLine, Rest;
    if s != "" {
      FirstLineShape(s);
      LinesLossless(Rest(s));
    }
  }

  lemma {:induction false} LinesCanonical(s: string)
    ensures Canonical(Lines(s))
    decreases |s|
  {
    hide FirstLine, Rest, Raw;
    if s != "" {
      FirstLineShape(s);
      LinesCanonical(Rest(s));
      if Rest(s) != "" {
        FirstLineShape(Rest(s));
      }
    }
  }

  lemma {:induction false} LineLengthExact(t: string, rest: string)
    requires NoBreak(t) && (rest == "" || IsBreak(rest[0]))
    ensures LineLength(t + rest) == |t|
  {
    if t == "" {
      assert t + rest == rest;
    } else {
      assert (t + rest)[1..] == t[1..] + rest;
      LineLengthExact(t[1..], rest);
    }
  }

  /** A line in front of text that can't run into its line break is the first line. */
  lemma FirstLineExact(l: RawLine, rest: string)
    requires NoBreak(l.text) && (IsEol(l.eol) || (l.eol == "" && rest == "" && l.text != ""))
    requires l.eol == "\r" && rest != "" ==> rest[0] != '\n'
    ensures Raw(l) + rest != "" && FirstLine(Raw(l) + rest) == l && Rest(Raw(l) + rest) == rest
  {
    var s, tail := Raw(l) + rest, l.eol + rest;
    assert s == l.text + tail;
    LineLengthExact(l.text, tail);
    assert s[..|l.text|] == l.text && s[|l.text|..] == tail;
    BreakExact(l.eol, rest);
  }

  lemma BreakExact(eol: string, rest: string)
    requires IsEol(eol) || (eol == "" && rest == "")
    requires eol == "\r" && rest != "" ==> rest[0] != '\n'
    ensures BreakAt(eol + rest) == eol
  {
    var t := eol + rest;
    assert eol == "\r" && rest != "" ==> t[1] == rest[0];
    assert t[..|eol|] == eol;
  }

  lemma FlatHead(ls: seq<RawLine>)
    requires Canonical(ls) && ls != []
    ensures Flat(ls) == Raw(ls[0]) + Flat(ls[1..])
    ensures Flat(ls) != ""
    ensures Flat(ls)[0] == '\n' ==> ls[0].text == "" && ls[0].eol == "\n"
  {
  }

  /** Canonical lines are exactly the lines of the text they spell. */
  lemma {:induction false} CanonicalUnique(ls: seq<RawLine>)
    requires Canonical(ls)
    ensures Lines(Flat(ls)) == ls
  {
    hide FirstLine, Rest, Raw, Flat;
    if ls == [] {
      assert Flat(ls) == "" by { FlatNil(); }
    } else {
      FlatHead(ls);
      if |ls| > 1 {
        FlatHead(ls[1..]);
      } else {
        FlatNil();
      }
      FirstLineExact(ls[0], Flat(ls[1..]));
      CanonicalUnique(ls[1..]);
    }
  }

  lemma FlatNil()
    ensures Flat([]) == ""
  {
  }

  lemma {:induction false} FlatConcat(a: seq<RawLine>, b: seq<RawLine>)
    ensures Flat(a + b) == Flat(a) + Flat(b)
  {
    if a == [] {
      assert a + b == b;
    } else {
      assert (a + b)[1..] == a[1..] + b;
      FlatConcat(a[1..], b);
    }
  }

  // ---------------------------------------------------------------------
  // Finding the markers
  // ---------------------------------------------------------------------

  predicate IsMark(l: RawLine, marker: string) { Trim(l.text) == marker }

  /** The indexes of the lines that are `marker`, in order; the first line is number `base`. */
  function Marks(ls: seq<RawLine>, marker: string, base: nat): seq<nat> {
    if ls == [] then []
    else if IsMark(ls[0], marker) then [base] + Marks(ls[1..], marker, base + 1)
    else Marks(ls[1..], marker, base + 1)
  }

  predicate Unmarked(ls: seq<RawLine>) {
    forall l | l in ls :: !IsMark(l, START) && !IsMark(l, END)
  }

  /** One start line and one end line after it, no markers at all, or broken. */
  function Locate(ls: seq<RawLine>): (r: Result<Option<Span>>) {
    var starts, ends := Marks(ls, START, 0), Marks(ls, END, 0);
    if starts == [] && ends == [] then Ok(None)
    else if |starts| != 1 || |ends| != 1 || ends[0] < starts[0] then BrokenMarkers
    else Ok(Some(Span(starts[0], ends[0])))
  }

  method LocateLines(lines: seq<RawLine>) returns (at: Result<Option<Span>>)
    ensures at == Locate(lines)
  {
    hide IsMark, Marks;
    var starts: seq<nat>, ends: seq<nat> := [], [];
    assert lines[0..] == lines;
    for i := 0 to |lines|
      invariant starts + Marks(lines[i..], START, i) == Marks(lines, START, 0)
      invariant ends + Marks(lines[i..], END, i) == Marks(lines, END, 0)
    {
      MarksStep(lines, START, i);
      MarksStep(lines, END, i);
      if IsMark(lines[i], START) { starts := starts + [i]; }
      if IsMark(lines[i], END) { ends := ends + [i]; }
    }
    MarksNone(lines[|lines|..], START, |lines|);
    MarksNone(lines[|lines|..], END, |lines|);
    if starts == [] && ends == [] { return Ok(None); }
    if |starts| != 1 || |ends| != 1 || ends[0] < starts[0] { return BrokenMarkers; }
    return Ok(Some(Span(starts[0], ends[0])));
  }

  lemma MarksStep(ls: seq<RawLine>, marker: string, i: nat)
    requires i < |ls|
    ensures Marks(ls[i..], marker, i) ==
            (if IsMark(ls[i], marker) then [i] else []) + Marks(ls[i + 1..], marker, i + 1)
  {
    assert ls[i..][1..] == ls[i + 1..];
  }

  lemma {:induction false} MarksExact(ls: seq<RawLine>, marker: string, base: nat)
    ensures forall i: nat :: i in Marks(ls, marker, base) <==>
                             base <= i < base + |ls| && IsMark(ls[i - base], marker)
  {
    hide IsMark;
    if ls != [] {
      MarksExact(ls[1..], marker, base + 1);
    }
  }

  /** The one place where `ls` has `marker`, if that's all there is. */
  lemma {:induction false} MarksSingle(ls: seq<RawLine>, marker: string, base: nat, k: nat)
    requires k < |ls| && IsMark(ls[k], marker)
    requires forall i | 0 <= i < |ls| && i != k :: !IsMark(ls[i], marker)
    ensures Marks(ls, marker, base) == [base + k]
  {
    if k == 0 {
      MarksNone(ls[1..], marker, base + 1);
    } else {
      MarksSingle(ls[1..], marker, base + 1, k - 1);
    }
  }

  lemma {:induction false} MarksNone(ls: seq<RawLine>, marker: string, base: nat)
    ensures Marks(ls, marker, base) == [] <==> forall l | l in ls :: !IsMark(l, marker)
  {
    if ls != [] {
      MarksNone(ls[1..], marker, base + 1);
      assert forall l :: l in ls <==> l == ls[0] || l in ls[1..];
    }
  }

  // ---------------------------------------------------------------------
  // Reading, writing and removing the block
  // ---------------------------------------------------------------------

  function FindManagedBlock(content: string): Result<Option<Span>> {
    match Locate(Lines(content))
    case Ok(Some(at)) => Ok(Some(Span(at.start + 1, at.end + 1)))
    case other => other
  }

  function TrimmedTexts(ls: seq<RawLine>): seq<string> {
    seq(|ls|, i requires 0 <= i < |ls| => TrimEnd(ls[i].text))
  }

  function ExtractManagedBlock(content: string): Result<Option<string>> {
    var ls := Lines(content);
    match Locate(ls)
    case BrokenMarkers => BrokenMarkers
    case Ok(None) => Ok(None)
    case Ok(Some(at)) =>
      LocateInRange(ls);
      Ok(Some(Join(TrimmedTexts(ls[at.start..at.end + 1]), "\n") + "\n"))
  }

  lemma LocateInRange(ls: seq<RawLine>)
    ensures Locate(ls).Ok? && Locate(ls).value.Some? ==>
              Locate(ls).value.value.start < Locate(ls).value.value.end < |ls|
  {
    MarksOutsideIn(ls);
  }

  lemma MarksOutsideIn(ls: seq<RawLine>)
    ensures Locate(ls).Ok? && Locate(ls).value.Some? ==>
              var at := Locate(ls).value.value;
              && at.start < at.end < |ls|
              && IsMark(ls[at.start], START) && IsMark(ls[at.end], END)
              && Unmarked(ls[..at.start]) && Unmarked(ls[at.end + 1..])
              && Unmarked(ls[at.start + 1..at.end])
  {
    hide Trim, Marks;
    MarksExact(ls, START, 0);
    MarksExact(ls, END, 0);
    var starts, ends := Marks(ls, START, 0), Marks(ls, END, 0);
    if |starts| == 1 && |ends| == 1 {
      assert starts[0] in starts && ends[0] in ends;
      forall i | 0 <= i < |ls| && IsMark(ls[i], START)
        ensures i == starts[0]
      {
        assert i in starts;
      }
      forall i | 0 <= i < |ls| && IsMark(ls[i], END)
        ensures i == ends[0]
      {
        assert i in ends;
      }
    }
  }

  /** The file's own line break: the first one it has, or `\n`. */
  function FirstEol(ls: seq<RawLine>): string {
    if ls == [] then "\n" else if ls[0].eol != "" then ls[0].eol else FirstEol(ls[1..])
  }

  function UpsertManagedBlock(content: string, inner: seq<string>): Result<string> {
    var ls := Lines(content);
    var eol := FirstEol(ls);
    var block := [START] + inner + [END];
    match Locate(ls)
    case BrokenMarkers => BrokenMarkers
    case Ok(Some(at)) =>
      LocateInRange(ls);
      Ok(Flat(ls[..at.start]) + Join(block, eol) + ls[at.end].eol + Flat(ls[at.end + 1..]))
    case Ok(None) =>
      if content == "" then Ok(Join(block, eol) + eol)
      else if ls[|ls| - 1].eol == "" then Ok(content + eol + Join(block, eol))
      else Ok(content + Join(block, eol) + eol)
  }

  /** What stays of `ls` when the block at `at` goes. */
  function Kept(ls: seq<RawLine>, at: Span): seq<RawLine>
    requires at.start < at.end < |ls|
  {
    var kept := ls[..at.start] + ls[at.end + 1..];
    if at.end + 1 == |ls| && ls[at.end].eol == "" && at.start > 0
    then kept[at.start - 1 := RawLine(kept[at.start - 1].text, "")]
    else kept
  }

  function Removed(content: string): Result<string> {
    var ls := Lines(content);
    match Locate(ls)
    case BrokenMarkers => BrokenMarkers
    case Ok(None) => Ok(content)
    case Ok(Some(at)) => LocateInRange(ls); Ok(Flat(Kept(ls, at)))
  }

  /** `removeManagedBlock`: takes the block out and blanks one kept line break in place. */
  method RemoveManagedBlock(content: string) returns (r: Result<string>)
    ensures r == Removed(content)
  {
    hide Flat, Lines, Marks, Locate, Trim;
    var lines := SplitKeep(content);
    var at := LocateLines(lines);
    if at.BrokenMarkers? { return BrokenMarkers; }
    if at.value.None? { return Ok(content); }
    var Span(start, end) := at.value.value;
    LocateInRange(lines);
    var kept := lines[..start] + lines[end + 1..];
    var last := end == |lines| - 1 && lines[end].eol == "";
    if last && start > 0 {
      kept := kept[start - 1 := RawLine(kept[start - 1].text, "")];
    }
    assert kept == Kept(lines, at.value.value);
    r := Ok(Flat(kept));
  }

  // ---------------------------------------------------------------------
  // Upserting, line by line
  // ---------------------------------------------------------------------

  predicate SingleLines(inner: seq<string>) { forall l | l in inner :: NoBreak(l) }

  predicate NoMarkers(inner: seq<string>) {
    forall l | l in inner :: Trim(l) != START && Trim(l) != END
  }

  function WithEol(texts: seq<string>, eol: string): seq<RawLine> {
    seq(|texts|, i requires 0 <= i < |texts| => RawLine(texts[i], eol))
  }

  /** The block as lines; its last line ends with `last`. */
  function BlockLines(inner: seq<string>, eol: string, last: string): seq<RawLine> {
    WithEol([START] + inner, eol) + [RawLine(END, last)]
  }

  /** The lines of a file before and after its block. A file without one gets the block at its end. */
  datatype Frame = Frame(before: seq<RawLine>, last: string, after: seq<RawLine>)

  function FrameOf(ls: seq<RawLine>, at: Option<Span>): Frame
    requires at.Some? ==> at.value.start < at.value.end < |ls|
  {
    var eol := FirstEol(ls);
    match at
    case Some(s) => Frame(ls[..s.start], ls[s.end].eol, ls[s.end + 1..])
    case None =>
      var n := |ls|;
      if n > 0 && ls[n - 1].eol == "" then Frame(ls[..n - 1] + [RawLine(ls[n - 1].text, eol)], "", [])
      else Frame(ls, eol, [])
  }

  function Framed(f: Frame, inner: seq<string>, eol: string): seq<RawLine> {
    f.before + BlockLines(inner, eol, f.last) + f.after
  }

  lemma {:induction false} CanonicalGlue(a: seq<RawLine>, b: seq<RawLine>)
    requires Canonical(a) && Canonical(b)
    requires a != [] && b != [] ==> a[|a| - 1].eol != ""
    requires a != [] ==> Apart(a[|a| - 1].eol, b)
    ensures Canonical(a + b)
  {
    if a == [] {
      assert a + b == b;
    } else if b == [] {
      assert a + b == a;
    } else {
      assert (a + b)[1..] == a[1..] + b;
      CanonicalGlue(a[1..], b);
    }
  }

  lemma {:induction false} CanonicalTake(ls: seq<RawLine>, k: nat)
    requires Canonical(ls) && k <= |ls|
    ensures Canonical(ls[..k])
  {
    if k > 0 {
      CanonicalTake(ls[1..], k - 1);
      assert ls[..k][1..] == ls[1..][..k - 1];
    }
  }

  lemma {:induction false} CanonicalDrop(ls: seq<RawLine>, k: nat)
    requires Canonical(ls) && 0 < k <= |ls|
    ensures Canonical(ls[k..]) && Apart(ls[k - 1].eol, ls[k..])
  {
    if k > 1 {
      CanonicalDrop(ls[1..], k - 1);
    }
  }

  lemma {:induction false} CanonicalWithEol(texts: seq<string>, eol: string)
    requires SingleLines(texts) && IsEol(eol)
    ensures Canonical(WithEol(texts, eol))
  {
    if texts != [] {
      CanonicalWithEol(texts[1..], eol);
      assert WithEol(texts, eol)[1..] == WithEol(texts[1..], eol);
    }
  }

  lemma {:induction false} JoinAsLines(texts: seq<string>, eol: string, last: string)
    ensures Join(texts + [last], eol) == Flat(WithEol(texts, eol)) + last
  {
    if texts != [] {
      JoinAsLines(texts[1..], eol, last);
      assert WithEol(texts, eol)[1..] == WithEol(texts[1..], eol);
      assert (texts + [last])[1..] == texts[1..] + [last];
    }
  }

  lemma FirstEolExact(ls: seq<RawLine>)
    requires Canonical(ls)
    ensures IsEol(FirstEol(ls))
    ensures FirstEol(ls) == if ls == [] || ls[0].eol == "" then "\n" else ls[0].eol
  {
  }

  /** A file's frame, and what any framed file needs to be read back. */
  ghost predicate Sound(f: Frame) {
    && Canonical(f.before) && Canonical(f.after)
    && (f.before != [] ==> f.before[|f.before| - 1].eol != "")
    && (f.after == [] || IsEol(f.last)) && (f.last == "" || IsEol(f.last))
    && Apart(f.last, f.after)
  }

  lemma FrameSound(ls: seq<RawLine>, at: Option<Span>)
    requires Canonical(ls) && Locate(ls) == Ok(at)
    ensures at.Some? ==> at.value.start < at.value.end < |ls|
    ensures Sound(FrameOf(ls, at))
  {
    hide Canonical, Sound, Locate;
    LocateInRange(ls);
    if at.Some? {
      BlockFrameSound(ls, at.value);
    } else {
      EndFrameSound(ls);
    }
  }

  lemma BlockFrameSound(ls: seq<RawLine>, at: Span)
    requires Canonical(ls) && at.start < at.end < |ls|
    ensures Sound(Frame(ls[..at.start], ls[at.end].eol, ls[at.end + 1..]))
  {
    hide Canonical, IsEol, Apart;
    CanonicalTake(ls, at.start);
    CanonicalDrop(ls, at.end + 1);
    EolsExact(ls);
    assert !IsEol("") by { EolNonempty(); }
    var f := Frame(ls[..at.start], ls[at.end].eol, ls[at.end + 1..]);
    assert at.start > 0 ==> f.before[|f.before| - 1] == ls[at.start - 1];
  }

  lemma EolNonempty()
    ensures !IsEol("")
  {
  }

  lemma EndFrameSound(ls: seq<RawLine>)
    requires Canonical(ls)
    ensures Sound(FrameOf(ls, None))
  {
    hide Canonical, FirstEol;
    FirstEolExact(ls);
    EolsExact(ls);
    CanonicalNil();
    var n := |ls|;
    if n > 0 && ls[n - 1].eol == "" {
      CanonicalTake(ls, n - 1);
      CanonicalLast(ls);
      CanonicalSingle(ls[n - 1].text, FirstEol(ls));
      CanonicalGlue(ls[..n - 1], [RawLine(ls[n - 1].text, FirstEol(ls))]);
    }
  }

  lemma CanonicalNil()
    ensures Canonical([])
  {
  }

  /** Only the last line can lack its line break. */
  lemma {:induction false} EolsExact(ls: seq<RawLine>)
    requires Canonical(ls)
    ensures forall i | 0 <= i < |ls| :: IsEol(ls[i].eol) || (i == |ls| - 1 && ls[i].eol == "")
  {
    if ls != [] {
      EolsExact(ls[1..]);
    }
  }

  lemma CanonicalSingle(text: string, eol: string)
    requires NoBreak(text) && (IsEol(eol) || (eol == "" && text != ""))
    ensures Canonical([RawLine(text, eol)])
  {
  }

  lemma {:induction false} CanonicalLast(ls: seq<RawLine>)
    requires Canonical(ls) && ls != [] && ls[|ls| - 1].eol == ""
    ensures NoBreak(ls[|ls| - 1].text) && ls[|ls| - 1].text != ""
  {
    if |ls| > 1 {
      CanonicalLast(ls[1..]);
    }
  }

  lemma FramedCanonical(f: Frame, inner: seq<string>, eol: string)
    requires Sound(f) && SingleLines(inner) && IsEol(eol)
    ensures Canonical(Framed(f, inner, eol))
    ensures Lines(Flat(Framed(f, inner, eol))) == Framed(f, inner, eol)
  {
    hide Canonical, Flat, Lines;
    var opening, closing := WithEol([START] + inner, eol), [RawLine(END, f.last)];
    CanonicalSingle(END, f.last);
    var block := BlockLines(inner, eol, f.last);
    assert SingleLines([START] + inner);
    CanonicalWithEol([START] + inner, eol);
    CanonicalGlue(opening, closing);
    CanonicalGlue(f.before, block);
    assert (f.before + block)[|f.before + block| - 1] == RawLine(END, f.last);
    CanonicalGlue(f.before + block, f.after);
    CanonicalUnique(Framed(f, inner, eol));
  }

  /** The text a frame spells around a block is the text upserting writes. */
  lemma UpsertSpells(c: string, inner: seq<string>, at: Option<Span>)
    requires Locate(Lines(c)) == Ok(at)
    requires at.Some? ==> at.value.start < at.value.end < |Lines(c)|
    ensures UpsertManagedBlock(c, inner) ==
            Ok(Flat(Framed(FrameOf(Lines(c), at), inner, FirstEol(Lines(c)))))
  {
    hide Marks, Locate, Join, Framed, Flat, Lines;
    var ls := Lines(c);
    var eol := FirstEol(ls);
    FramedFlat(FrameOf(ls, at), inner, eol);
    LinesLossless(c);
    if at.None? {
      EndFrameFlat(ls);
      LinesEmpty(c);
      var block := Join([START] + inner + [END], eol);
      assert "" + block == block;
      assert c + eol + block + "" + "" == c + eol + block;
      assert c + block + eol + "" == c + block + eol;
    }
  }

  lemma LinesEmpty(s: string)
    ensures Lines(s) == [] <==> s == ""
  {
  }

  lemma FlatLast(ls: seq<RawLine>, init: seq<RawLine>, l: RawLine)
    requires ls == init + [l]
    ensures Flat(ls) == Flat(init) + l.text + l.eol
  {
    FlatConcat(init, [l]);
    assert Flat([l]) == Raw(l);
  }

  lemma EndFrameFlat(ls: seq<RawLine>)
    ensures Flat([]) == "" && Flat(FrameOf(ls, None).after) == ""
    ensures Flat(FrameOf(ls, None).before) ==
            Flat(ls) + if ls != [] && ls[|ls| - 1].eol == "" then FirstEol(ls) else ""
  {
    assert Flat([]) == "";
    if ls != [] && ls[|ls| - 1].eol == "" {
      OpenEndFlat(ls, FirstEol(ls));
    }
  }

  lemma OpenEndFlat(ls: seq<RawLine>, eol: string)
    requires ls != [] && ls[|ls| - 1].eol == ""
    ensures Flat(ls[..|ls| - 1] + [RawLine(ls[|ls| - 1].text, eol)]) == Flat(ls) + eol
  {
    hide Flat;
    var init, l := ls[..|ls| - 1], ls[|ls| - 1];
    FlatLast(ls, init, l);
    FlatLast(init + [RawLine(l.text, eol)], init, RawLine(l.text, eol));
  }

  /** Upserting writes the framed block, and the file reads back as exactly those lines. */
  lemma UpsertLines(c: string, inner: seq<string>, at: Option<Span>)
    requires SingleLines(inner) && Locate(Lines(c)) == Ok(at)
    ensures at.Some? ==> at.value.start < at.value.end < |Lines(c)|
    ensures Canonical(Lines(c)) && Sound(FrameOf(Lines(c), at)) && IsEol(FirstEol(Lines(c)))
    ensures var f := Framed(FrameOf(Lines(c), at), inner, FirstEol(Lines(c)));
            UpsertManagedBlock(c, inner) == Ok(Flat(f)) && Lines(Flat(f)) == f
  {
    hide Canonical, Sound, Lines, Flat, Framed, Marks, Locate, UpsertManagedBlock;
    var ls := Lines(c);
    LinesCanonical(c);
    FirstEolExact(ls);
    FrameSound(ls, at);
    FramedCanonical(FrameOf(ls, at), inner, FirstEol(ls));
    UpsertSpells(c, inner, at);
  }

  lemma FramedFlat(f: Frame, inner: seq<string>, eol: string)
    ensures Flat(Framed(f, inner, eol)) ==
            Flat(f.before) + Join([START] + inner + [END], eol) + f.last + Flat(f.after)
  {
    hide Flat, Join, WithEol;
    var block, opening := BlockLines(inner, eol, f.last), WithEol([START] + inner, eol);
    JoinAsLines([START] + inner, eol, END);
    FlatLast(block, opening, RawLine(END, f.last));
    FlatConcat(f.before, block);
    FlatConcat(f.before + block, f.after);
    var a, b, c := Flat(f.before), Join([START] + inner + [END], eol), f.last;
    assert a + (b + c) == a + b + c;
  }

  lemma FramedMarks(f: Frame, inner: seq<string>, eol: string)
    requires Unmarked(f.before) && Unmarked(f.after)
    ensures NoMarkers(inner) ==>
              Locate(Framed(f, inner, eol)) == Ok(Some(Span(|f.before|, |f.before| + |inner| + 1)))
    ensures !NoMarkers(inner) ==> Locate(Framed(f, inner, eol)) == BrokenMarkers
  {
    hide Trim, Framed;
    MarkersTrimmed();
    var ls, s, e := Framed(f, inner, eol), |f.before|, |f.before| + |inner| + 1;
    FramedAt(f, inner, eol);
    if NoMarkers(inner) {
      MarksSingle(ls, START, 0, s);
      MarksSingle(ls, END, 0, e);
    } else {
      var i :| 0 <= i < |inner| && (Trim(inner[i]) == START || Trim(inner[i]) == END);
      assert ls[s + 1 + i].text == inner[i];
      MarkedTwice(ls, s, s + 1 + i, e);
    }
  }

  /** Where each line of a framed file comes from. */
  lemma FramedAt(f: Frame, inner: seq<string>, eol: string)
    ensures var ls, s, e := Framed(f, inner, eol), |f.before|, |f.before| + |inner| + 1;
            && |ls| == e + 1 + |f.after| && ls[s].text == START && ls[e].text == END
            && (forall i | 0 <= i < |inner| :: ls[s + 1 + i].text == inner[i])
            && (forall i | 0 <= i < |ls| && i != s && i != e ::
                  ls[i] in f.before || ls[i] in f.after || ls[i].text in inner)
  {
    var ls, s, e := Framed(f, inner, eol), |f.before|, |f.before| + |inner| + 1;
    forall i | 0 <= i < |ls| && i != s && i != e
      ensures ls[i] in f.before || ls[i] in f.after || ls[i].text in inner
    {
      if s < i < e {
        assert ls[i].text == inner[i - s - 1];
      }
    }
  }

  lemma MarkersTrimmed()
    ensures Trim(START) == START && Trim(END) == END
    ensures TrimEnd(START) == START && TrimEnd(END) == END
  {
    TrimTrimmed(START);
    TrimTrimmed(END);
  }

  lemma MarkedTwice(ls: seq<RawLine>, s: nat, i: nat, e: nat)
    requires s < i < e < |ls| && IsMark(ls[s], START) && IsMark(ls[e], END)
    requires IsMark(ls[i], START) || IsMark(ls[i], END)
    ensures Locate(ls) == BrokenMarkers
  {
    hide IsMark, Marks;
    MarksExact(ls, START, 0);
    MarksExact(ls, END, 0);
    assert s in Marks(ls, START, 0) && e in Marks(ls, END, 0);
    assert i in Marks(ls, START, 0) || i in Marks(ls, END, 0);
  }

  lemma NoMarksUnmarked(ls: seq<RawLine>)
    requires Locate(ls) == Ok(None)
    ensures Unmarked(ls)
  {
    MarksNone(ls, START, 0);
    MarksNone(ls, END, 0);
  }

  lemma FrameUnmarked(ls: seq<RawLine>, at: Option<Span>)
    requires Locate(ls) == Ok(at)
    requires at.Some? ==> at.value.start < at.value.end < |ls|
    ensures Unmarked(FrameOf(ls, at).before) && Unmarked(FrameOf(ls, at).after)
  {
    hide FirstEol, Trim, Marks, Locate;
    if at.Some? {
      MarksOutsideIn(ls);
    } else {
      NoMarksUnmarked(ls);
      var n := |ls| - 1;
      if ls != [] && ls[n].eol == "" {
        var last := RawLine(ls[n].text, FirstEol(ls));
        assert IsMark(last, START) == IsMark(ls[n], START) && IsMark(last, END) == IsMark(ls[n], END);
      }
    }
  }

  // ---------------------------------------------------------------------
  // What the block promises
  // ---------------------------------------------------------------------

  /** Adding a block to a file that has none and taking it out gives back the same
      bytes, whatever the line breaks, exactly when no inner line is a marker. */
  lemma RemoveUndoesUpsert(c: string, inner: seq<string>)
    requires SingleLines(inner) && Locate(Lines(c)) == Ok(None)
    ensures UpsertManagedBlock(c, inner).Ok?
    ensures Removed(UpsertManagedBlock(c, inner).value) == Ok(c) <==> NoMarkers(inner)
  {
    hide Canonical, Sound, Lines, Flat, Unmarked, Marks, Locate;
    var ls := Lines(c);
    UpsertLines(c, inner, None);
    FrameUnmarked(ls, None);
    var f, eol := FrameOf(ls, None), FirstEol(ls);
    FramedMarks(f, inner, eol);
    LinesLossless(c);
    if NoMarkers(inner) {
      KeptFramed(f, inner, eol);
      var span := Span(|f.before|, |f.before| + |inner| + 1);
      assert Kept(Framed(f, inner, eol), span) == ls by {
        FirstEolExact(ls);
        assert f.before + f.after == f.before;
        assert ls != [] && ls[|ls| - 1].eol == "" ==>
            f.before[|ls| - 1 := RawLine(ls[|ls| - 1].text, "")] == ls;
      }
    }
  }

  /** What stays when a framed block goes: the frame, less the line break that came with the block. */
  lemma KeptFramed(f: Frame, inner: seq<string>, eol: string)
    ensures var kept := f.before + f.after;
            Kept(Framed(f, inner, eol), Span(|f.before|, |f.before| + |inner| + 1)) ==
            if f.after == [] && f.last == "" && f.before != []
            then kept[|f.before| - 1 := RawLine(f.before[|f.before| - 1].text, "")]
            else kept
  {
    var ls, e := Framed(f, inner, eol), |f.before| + |inner| + 1;
    assert ls[..|f.before|] == f.before;
    assert ls[e + 1..] == f.after;
    assert ls[e] == RawLine(END, f.last);
  }

  /** Replacing a block changes nothing outside it: taking the new one out is
      taking the old one out. */
  lemma RemoveForgetsUpsert(c: string, inner: seq<string>, at: Span)
    requires SingleLines(inner) && NoMarkers(inner) && Locate(Lines(c)) == Ok(Some(at))
    ensures UpsertManagedBlock(c, inner).Ok?
    ensures Removed(UpsertManagedBlock(c, inner).value) == Removed(c)
  {
    hide Canonical, Sound, Lines, Flat, Unmarked, Marks, Locate;
    var ls := Lines(c);
    UpsertLines(c, inner, Some(at));
    FrameUnmarked(ls, Some(at));
    var f := FrameOf(ls, Some(at));
    FramedMarks(f, inner, FirstEol(ls));
    KeptFramed(f, inner, FirstEol(ls));
  }

  /** The last upsert wins, byte for byte, with or without a block to begin with.
      With `x == y` this is idempotence. */
  lemma UpsertTwice(c: string, x: seq<string>, y: seq<string>)
    requires SingleLines(x) && NoMarkers(x) && SingleLines(y) && Locate(Lines(c)).Ok?
    ensures UpsertManagedBlock(c, x).Ok?
    ensures UpsertManagedBlock(UpsertManagedBlock(c, x).value, y) == UpsertManagedBlock(c, y)
  {
    hide Canonical, Sound, Lines, Flat, Unmarked, Marks, Locate;
    var ls, at := Lines(c), Locate(Lines(c)).value;
    UpsertLines(c, x, at);
    UpsertLines(c, y, at);
    FrameUnmarked(ls, at);
    var f, eol := FrameOf(ls, at), FirstEol(ls);
    FramedMarks(f, x, eol);
    var framed := Framed(f, x, eol);
    var span := Span(|f.before|, |f.before| + |x| + 1);
    UpsertLines(Flat(framed), y, Some(span));
    assert framed[..span.start] == f.before;
    assert framed[span.end + 1..] == f.after;
    assert FrameOf(framed, Some(span)) == f;
    FirstEolExact(ls);
    FirstEolExact(framed);
    assert framed[0] == if f.before == [] then RawLine(START, eol) else f.before[0];
  }

  /** What was written is what is read back: the markers and the inner lines. */
  lemma ExtractAfterUpsert(c: string, inner: seq<string>)
    requires SingleLines(inner) && NoMarkers(inner) && Locate(Lines(c)).Ok?
    ensures UpsertManagedBlock(c, inner).Ok?
    ensures ExtractManagedBlock(UpsertManagedBlock(c, inner).value) ==
            Ok(Some(Join([START] + TrimEnds(inner) + [END], "\n") + "\n"))
  {
    hide Canonical, Sound, Lines, Flat, Unmarked, Marks, Locate, Join, TrimEnd, Trim, FirstEol;
    var ls, at := Lines(c), Locate(Lines(c)).value;
    UpsertLines(c, inner, at);
    FrameUnmarked(ls, at);
    var f, eol := FrameOf(ls, at), FirstEol(ls);
    FramedMarks(f, inner, eol);
    var framed := Framed(f, inner, eol);
    FramedTexts(f, inner, eol);
  }

  /** The line numbers found after an update are those of the markers, and between them are the inner lines. */
  lemma FindAfterUpsert(c: string, inner: seq<string>)
    requires SingleLines(inner) && NoMarkers(inner) && Locate(Lines(c)).Ok?
    ensures UpsertManagedBlock(c, inner).Ok?
    ensures var ls, found := Lines(UpsertManagedBlock(c, inner).value),
                             FindManagedBlock(UpsertManagedBlock(c, inner).value);
            && found.Ok? && found.value.Some?
            && var Span(start, end) := found.value.value;
               && 1 <= start < end <= |ls| && end == start + |inner| + 1
               && ls[start - 1].text == START && ls[end - 1].text == END
               && forall i | 0 <= i < |inner| :: ls[start + i].text == inner[i]
  {
    hide Canonical, Sound, Lines, Flat, Unmarked, Marks, Locate, Framed, FirstEol;
    var ls, at := Lines(c), Locate(Lines(c)).value;
    UpsertLines(c, inner, at);
    FrameUnmarked(ls, at);
    FramedMarks(FrameOf(ls, at), inner, FirstEol(ls));
    FramedAt(FrameOf(ls, at), inner, FirstEol(ls));
  }

  lemma FramedTexts(f: Frame, inner: seq<string>, eol: string)
    ensures |f.before| + |inner| + 2 <= |Framed(f, inner, eol)|
    ensures TrimmedTexts(Framed(f, inner, eol)[|f.before|..|f.before| + |inner| + 2]) ==
            [START] + TrimEnds(inner) + [END]
  {
    hide Trim, TrimEnd;
    var block := Framed(f, inner, eol)[|f.before|..|f.before| + |inner| + 2];
    assert block == BlockLines(inner, eol, f.last);
    MarkersTrimmed();
    assert TrimmedTexts(block) == [START] + TrimEnds(inner) + [END];
  }

  function TrimEnds(texts: seq<string>): seq<string> {
    seq(|texts|, i requires 0 <= i < |texts| => TrimEnd(texts[i]))
  }
}
