/** Drift checks of packages/compiler/src/parse.ts: whether a file changed since it was delivered. */
module Drift {
  import opened Text
  import opened ManagedBlock
  import Parse

  /** Line breaks as `\n`: what replacing `\r\n?` does. */
  function Unixed(s: string): string
    decreases |s|
  {
    if s == "" then ""
    else if s[0] == '\r' then "\n" + Unixed(if |s| > 1 && s[1] == '\n' then s[2..] else s[1..])
    else [s[0]] + Unixed(s[1..])
  }

  function Normalize(content: string): string { Unixed(Parse.StripBom(content)) }

  /** What a drift check compares: the managed block, or all of a file without one. Broken
      markers leave the region unknown, so all of the file counts. */
  function Compared(content: string): string {
    match ExtractManagedBlock(Normalize(content))
    case Ok(Some(block)) => block
    case _ => Normalize(content)
  }

  function DriftHash<H>(hash: string -> H, content: string): H { hash(Compared(content)) }

  /** `isDrifted`, with its shortcut on the whole file's hash. */
  predicate IsDrifted<H(==)>(hash: string -> H, lastDelivered: H, current: string) {
    hash(Normalize(current)) != lastDelivered && DriftHash(hash, current) != lastDelivered
  }

  lemma TrimEndTwice(s: string)
    ensures TrimEnd(TrimEnd(s)) == TrimEnd(s)
  {
  }

  lemma {:induction false} TrimStartEnd(s: string)
    ensures TrimEnd(TrimStart(TrimEnd(s))) == TrimEnd(TrimStart(s))
    decreases |s|
  {
    if s != "" && IsSpace(s[|s| - 1]) {
      var t := s[..|s| - 1];
      TrimStartEnd(t);
      TrimStartLast(s);
    }
  }

  lemma {:induction false} TrimStartLast(s: string)
    requires s != "" && IsSpace(s[|s| - 1])
    ensures TrimEnd(TrimStart(s)) == TrimEnd(TrimStart(s[..|s| - 1]))
  {
    if |s| > 1 {
      if IsSpace(s[0]) {
        TrimStartLast(s[1..]);
        assert s[1..][..|s| - 2] == s[..|s| - 1][1..];
      }
    } else {
      assert s[1..] == "" && s[..0] == "";
    }
  }

  /** Line texts don't hold line breaks. */
  lemma {:induction false} CanonicalTexts(ls: seq<RawLine>)
    requires Canonical(ls)
    ensures forall i | 0 <= i < |ls| :: NoBreak(ls[i].text)
  {
    if ls != [] {
      CanonicalTexts(ls[1..]);
    }
  }

  lemma TrimEndUnbroken(s: string)
    requires NoBreak(s)
    ensures NoBreak(TrimEnd(s))
  {
    assert forall i | 0 <= i < |TrimEnd(s)| :: TrimEnd(s)[i] == s[i];
  }

  lemma JoinedLines(texts: seq<string>)
    requires texts != [] && SingleLines(texts)
    ensures Lines(Join(texts, "\n") + "\n") == WithEol(texts, "\n")
  {
    hide Lines, Flat, Canonical, Join;
    var n := |texts| - 1;
    CanonicalWithEol(texts, "\n");
    CanonicalUnique(WithEol(texts, "\n"));
    assert texts == texts[..n] + [texts[n]];
    JoinAsLines(texts[..n], "\n", texts[n]);
    FlatLast(WithEol(texts, "\n"), WithEol(texts[..n], "\n"), RawLine(texts[n], "\n"));
  }

  lemma TrimOfTrimEnd(s: string)
    ensures Trim(TrimEnd(s)) == Trim(s)
  {
    TrimStartEnd(s);
  }

  /** Lines with the same trimmed texts as a block's hold the same block. */
  lemma SameBlock(part: seq<RawLine>, again: seq<RawLine>)
    requires |part| == |again| >= 2 && IsMark(part[0], START) && IsMark(part[|part| - 1], END)
    requires Unmarked(part[1..|part| - 1])
    requires forall i | 0 <= i < |part| :: Trim(again[i].text) == Trim(part[i].text)
    ensures Locate(again) == Ok(Some(Span(0, |part| - 1)))
  {
    hide Trim, Marks;
    var n := |part| - 1;
    MarkersDiffer();
    forall i | 0 < i < n
      ensures !IsMark(again[i], START) && !IsMark(again[i], END)
    {
      assert part[1..n][i - 1] in part[1..n];
      assert Trim(again[i].text) == Trim(part[i].text);
    }
    MarksSingle(again, START, 0, 0);
    MarksSingle(again, END, 0, n);
  }

  /** An extracted block is its own block. */
  lemma ExtractTwice(content: string, block: string)
    requires ExtractManagedBlock(content) == Ok(Some(block))
    ensures ExtractManagedBlock(block) == Ok(Some(block))
  {
    hide Lines, Locate, Join, Trim, TrimEnd, Canonical;
    var ls := Lines(content);
    LocateInRange(ls);
    MarksOutsideIn(ls);
    LinesCanonical(content);
    CanonicalTexts(ls);
    var at := Locate(ls).value.value;
    var part := ls[at.start..at.end + 1];
    assert part[1..|part| - 1] == ls[at.start + 1..at.end];
    var texts := TrimmedTexts(part);
    forall i | 0 <= i < |part|
      ensures NoBreak(texts[i]) && Trim(texts[i]) == Trim(part[i].text) && TrimEnd(texts[i]) == texts[i]
    {
      assert part[i] == ls[at.start + i];
      TrimEndUnbroken(part[i].text);
      TrimEndTwice(part[i].text);
      TrimOfTrimEnd(part[i].text);
    }
    JoinedLines(texts);
    var again := WithEol(texts, "\n");
    SameBlock(part, again);
    assert again[0..|again|] == again;
    assert TrimmedTexts(again) == texts;
  }

  lemma MarkersDiffer()
    ensures START != END
  {
    assert START[11] != END[11];
  }

  ghost predicate Injective<H(!new)>(hash: string -> H) {
    forall a, b :: hash(a) == hash(b) ==> a == b
  }

  /** A file drifted exactly when what is compared changed. The shortcut changes no answer. */
  lemma DriftedExactly<H(!new)>(hash: string -> H, delivered: string, current: string)
    requires Injective(hash)
    ensures IsDrifted(hash, DriftHash(hash, delivered), current) <==> Compared(delivered) != Compared(current)
  {
    hide Unixed, ExtractManagedBlock;
    if Normalize(current) == Compared(delivered) {
      match ExtractManagedBlock(Normalize(delivered))
      case Ok(Some(block)) => ExtractTwice(Normalize(delivered), block);
      case _ =>
    }
  }

  lemma BlockBetween(p: seq<RawLine>, m: seq<RawLine>, s: seq<RawLine>)
    requires |m| >= 2 && IsMark(m[0], START) && IsMark(m[|m| - 1], END)
    requires Unmarked(p) && Unmarked(m[1..|m| - 1]) && Unmarked(s)
    ensures Locate(p + m + s) == Ok(Some(Span(|p|, |p| + |m| - 1)))
    ensures (p + m + s)[|p|..|p| + |m|] == m
  {
    hide Trim, Marks;
    var ls, n := p + m + s, |p| + |m| - 1;
    MarkersDiffer();
    forall i | 0 <= i < |ls| && i != |p| && i != n
      ensures !IsMark(ls[i], START) && !IsMark(ls[i], END)
    {
      if i < |p| { assert ls[i] in p; }
      else if i < n { assert ls[i] == m[1..|m| - 1][i - |p| - 1]; assert ls[i] in m[1..|m| - 1]; }
      else { assert ls[i] == s[i - n - 1]; assert ls[i] in s; }
    }
    MarksSingle(ls, START, 0, |p|);
    MarksSingle(ls, END, 0, n);
  }

  /** A stretch of lines from a start marker to the end marker after it. */
  predicate IsBlock(m: seq<RawLine>) {
    |m| >= 2 && IsMark(m[0], START) && IsMark(m[|m| - 1], END) && Unmarked(m[1..|m| - 1])
  }

  // ---------------------------------------------------------------------
  // Line endings and a BOM don't count
  // ---------------------------------------------------------------------

  /** The same lines with other line breaks. */
  ghost predicate SameTexts(a: seq<RawLine>, b: seq<RawLine>) {
    |a| == |b| && forall i | 0 <= i < |a| :: a[i].text == b[i].text && (a[i].eol == "" <==> b[i].eol == "")
  }

  lemma {:induction false} UnixedText(t: string, rest: string)
    requires NoBreak(t)
    ensures Unixed(t + rest) == t + Unixed(rest)
  {
    if t == "" {
      assert t + rest == rest;
    } else {
      assert (t + rest)[1..] == t[1..] + rest;
      UnixedText(t[1..], rest);
    }
  }

  function UnixLine(l: RawLine): RawLine { RawLine(l.text, if l.eol == "" then "" else "\n") }

  function UnixLines(ls: seq<RawLine>): seq<RawLine> {
    seq(|ls|, i requires 0 <= i < |ls| => UnixLine(ls[i]))
  }

  lemma UnixedBreak(eol: string, rest: string)
    requires IsEol(eol) && (eol == "\r" && rest != "" ==> rest[0] != '\n')
    ensures Unixed(eol + rest) == "\n" + Unixed(rest)
  {
    var s := eol + rest;
    if eol == "\r\n" {
      assert s[2..] == rest;
    } else {
      assert s[1..] == rest;
      assert rest != "" ==> s[1] == rest[0];
    }
  }

  lemma UnixedLine(l: RawLine, rest: string)
    requires NoBreak(l.text) && (l.eol == "\r" && rest != "" ==> rest[0] != '\n')
    requires IsEol(l.eol) || (l.eol == "" && rest == "")
    ensures Unixed(Raw(l) + rest) == Raw(UnixLine(l)) + Unixed(rest)
  {
    hide Unixed;
    assert Raw(l) + rest == l.text + (l.eol + rest);
    UnixedText(l.text, l.eol + rest);
    if l.eol == "" {
      UnixedNothing();
      assert l.eol + rest == "";
    } else {
      UnixedBreak(l.eol, rest);
    }
  }

  lemma {:induction false} UnixedLines(ls: seq<RawLine>)
    requires Canonical(ls)
    ensures Unixed(Flat(ls)) == Flat(UnixLines(ls))
  {
    hide Unixed, UnixLine, Raw;
    if ls == [] {
      UnixedNothing();
    } else {
      UnixedLines(ls[1..]);
      assert UnixLines(ls)[1..] == UnixLines(ls[1..]);
      if |ls| > 1 { FlatHead(ls[1..]); }
      UnixedLine(ls[0], Flat(ls[1..]));
    }
  }

  lemma UnixedNothing()
    ensures Unixed("") == ""
  {
  }

  /** Files that differ only in a BOM and in which line breaks they use never drift from each other. */
  lemma BreaksNeverDrift<H(!new)>(hash: string -> H, delivered: string, current: string)
    requires SameTexts(Lines(Parse.StripBom(delivered)), Lines(Parse.StripBom(current)))
    ensures !IsDrifted(hash, DriftHash(hash, delivered), current)
  {
    hide Unixed, ExtractManagedBlock, Lines, Canonical, Flat;
    var a, b := Parse.StripBom(delivered), Parse.StripBom(current);
    LinesCanonical(a);
    LinesCanonical(b);
    LinesLossless(a);
    LinesLossless(b);
    UnixedLines(Lines(a));
    UnixedLines(Lines(b));
    assert UnixLines(Lines(a)) == UnixLines(Lines(b));
  }

  // ---------------------------------------------------------------------
  // What drifts, by the lines of both files
  // ---------------------------------------------------------------------

  /** A file's lines, but for a BOM in front of them. */
  function FileLines(content: string): seq<RawLine> { Lines(Parse.StripBom(content)) }

  /** The lines from the one start marker to the one end marker after it. */
  ghost predicate HasBlock(ls: seq<RawLine>, m: seq<RawLine>) {
    IsBlock(m) && exists p, s :: IsAround(ls, p, m, s)
  }

  predicate IsAround(ls: seq<RawLine>, p: seq<RawLine>, m: seq<RawLine>, s: seq<RawLine>) {
    ls == p + m + s && Unmarked(p) && Unmarked(s)
  }

  /** No markers, or broken ones. */
  ghost predicate Blockless(ls: seq<RawLine>) { forall m :: !HasBlock(ls, m) }

  lemma NoneFound(ls: seq<RawLine>)
    ensures Locate(ls) == Ok(None) <==> Unmarked(ls)
  {
    hide IsMark, Marks;
    MarksNone(ls, START, 0);
    MarksNone(ls, END, 0);
  }

  lemma FoundThere(ls: seq<RawLine>)
    requires Locate(ls).Ok? && Locate(ls).value.Some?
    ensures var at := Locate(ls).value.value;
            && at.start < at.end < |ls|
            && IsBlock(ls[at.start..at.end + 1])
            && IsAround(ls, ls[..at.start], ls[at.start..at.end + 1], ls[at.end + 1..])
  {
    hide IsMark, Marks, Locate, Unmarked;
    MarksOutsideIn(ls);
    var at := Locate(ls).value.value;
    var m := ls[at.start..at.end + 1];
    assert m[1..|m| - 1] == ls[at.start + 1..at.end];
    assert ls == ls[..at.start] + m + ls[at.end + 1..];
  }

  /** The scan finds a block exactly if the lines have one, and none at all exactly if no line is a marker. Any other
      markers are broken. */
  lemma LocateExactly(ls: seq<RawLine>)
    ensures Locate(ls) == Ok(None) <==> Unmarked(ls)
    ensures (Locate(ls).Ok? && Locate(ls).value.Some?) <==> !Blockless(ls)
  {
    hide Locate, Unmarked, IsBlock;
    NoneFound(ls);
    if Locate(ls).Ok? && Locate(ls).value.Some? {
      var at := Locate(ls).value.value;
      FoundThere(ls);
      assert HasBlock(ls, ls[at.start..at.end + 1]);
    }
    if !Blockless(ls) {
      var m :| HasBlock(ls, m);
      var p, s :| IsAround(ls, p, m, s);
      BlockIn(ls, p, m, s);
    }
  }

  lemma BlockIn(ls: seq<RawLine>, p: seq<RawLine>, m: seq<RawLine>, s: seq<RawLine>)
    requires IsBlock(m) && IsAround(ls, p, m, s)
    ensures Locate(ls).Ok? && Locate(ls).value.Some?
  {
    hide IsMark, Locate, Unmarked;
    BlockBetween(p, m, s);
  }

  lemma {:induction false} UnixCanonical(ls: seq<RawLine>)
    requires Canonical(ls)
    ensures Canonical(UnixLines(ls))
  {
    if ls != [] {
      UnixCanonical(ls[1..]);
      assert UnixLines(ls)[1..] == UnixLines(ls[1..]);
    }
  }

  lemma Normalized(content: string)
    ensures Flat(UnixLines(FileLines(content))) == Normalize(content)
    ensures Lines(Normalize(content)) == UnixLines(FileLines(content))
  {
    hide Unixed, Lines, Canonical, Flat, UnixLines;
    var ls := FileLines(content);
    LinesCanonical(Parse.StripBom(content));
    LinesLossless(Parse.StripBom(content));
    UnixedLines(ls);
    UnixCanonical(ls);
    CanonicalUnique(UnixLines(ls));
  }

  function BlockText(m: seq<RawLine>): string { Join(TrimmedTexts(m), "\n") + "\n" }

  lemma UnixMarks(ls: seq<RawLine>)
    ensures Unmarked(ls) <==> Unmarked(UnixLines(ls))
    ensures TrimmedTexts(UnixLines(ls)) == TrimmedTexts(ls)
  {
    hide Trim, TrimEnd;
    forall i | 0 <= i < |ls|
      ensures ls[i] in ls && UnixLines(ls)[i] in UnixLines(ls)
    {
      assert UnixLines(ls)[i] == UnixLine(ls[i]);
    }
  }

  lemma UnixBlock(m: seq<RawLine>)
    ensures IsBlock(m) <==> IsBlock(UnixLines(m))
  {
    hide Trim, Unmarked;
    if |m| >= 2 {
      assert UnixLines(m)[1..|m| - 1] == UnixLines(m[1..|m| - 1]);
      UnixMarks(m[1..|m| - 1]);
    }
  }

  lemma BlockRead(content: string, m: seq<RawLine>)
    requires HasBlock(FileLines(content), m)
    ensures ExtractManagedBlock(Normalize(content)) == Ok(Some(BlockText(m)))
  {
    hide Unixed, Lines, Locate, IsMark, Unmarked, Join, TrimmedTexts, UnixLine;
    var ls := FileLines(content);
    var p, s :| IsAround(ls, p, m, s);
    Normalized(content);
    var a, b, c := UnixLines(p), UnixLines(m), UnixLines(s);
    assert UnixLines(ls) == a + b + c;
    UnixMarks(p);
    UnixMarks(m);
    UnixMarks(s);
    UnixBlock(m);
    BlockBetween(a, b, c);
  }

  lemma UnixSlice(ls: seq<RawLine>, i: nat, j: nat)
    requires i <= j <= |ls|
    ensures |UnixLines(ls)| == |ls| && UnixLines(ls[i..j]) == UnixLines(ls)[i..j]
  {
    hide UnixLine;
  }

  lemma BlockFound(content: string) returns (m: seq<RawLine>)
    requires var us := UnixLines(FileLines(content)); Locate(us).Ok? && Locate(us).value.Some?
    ensures HasBlock(FileLines(content), m)
  {
    hide Unixed, Lines, Locate, IsMark, Unmarked, TrimmedTexts, UnixLine;
    var ls := FileLines(content);
    var us := UnixLines(ls);
    MarksOutsideIn(us);
    var at := Locate(us).value.value;
    var p, s := ls[..at.start], ls[at.end + 1..];
    m := ls[at.start..at.end + 1];
    UnixSlice(ls, 0, at.start);
    UnixSlice(ls, at.start, at.end + 1);
    UnixSlice(ls, at.end + 1, |ls|);
    assert us[..at.start] == UnixLines(p) && us[at.end + 1..] == UnixLines(s);
    assert us[at.start..at.end + 1] == UnixLines(m);
    assert us[at.start + 1..at.end] == us[at.start..at.end + 1][1..|m| - 1];
    hide UnixLines;
    UnixMarks(p);
    UnixMarks(s);
    UnixBlock(m);
    assert ls == p + m + s;
    assert IsAround(ls, p, m, s);
  }

  lemma NoBlockRead(content: string)
    requires Blockless(FileLines(content))
    ensures !(ExtractManagedBlock(Normalize(content)).Ok? && ExtractManagedBlock(Normalize(content)).value.Some?)
  {
    hide Unixed, Lines, Locate, IsMark, Unmarked, Join, TrimmedTexts, UnixLine;
    Normalized(content);
    var us := UnixLines(FileLines(content));
    if Locate(us).Ok? && Locate(us).value.Some? { var m := BlockFound(content); }
  }

  lemma BlockTexts(content: string, m: seq<RawLine>)
    requires HasBlock(FileLines(content), m)
    ensures TrimmedTexts(m) != [] && SingleLines(TrimmedTexts(m))
  {
    hide Lines, Canonical, IsMark, Unmarked, TrimEnd;
    var ls := FileLines(content);
    var p, s :| IsAround(ls, p, m, s);
    LinesCanonical(Parse.StripBom(content));
    CanonicalTexts(ls);
    forall i | 0 <= i < |m|
      ensures NoBreak(TrimmedTexts(m)[i])
    {
      assert ls[|p| + i] == m[i];
      TrimEndUnbroken(m[i].text);
    }
  }

  /** Both files with a block: what matters is the block's lines without trailing white space and line breaks. So
      nothing outside the block ever drifts, and everything inside it does. */
  lemma BlocksDrift<H(!new)>(hash: string -> H, delivered: string, current: string,
                             m: seq<RawLine>, n: seq<RawLine>)
    requires Injective(hash) && HasBlock(FileLines(delivered), m) && HasBlock(FileLines(current), n)
    ensures IsDrifted(hash, DriftHash(hash, delivered), current) <==> TrimmedTexts(m) != TrimmedTexts(n)
  {
    hide Unixed, Lines, Join, TrimmedTexts, HasBlock, ExtractManagedBlock, IsDrifted, DriftHash;
    BlockRead(delivered, m);
    BlockRead(current, n);
    BlockTexts(delivered, m);
    BlockTexts(current, n);
    JoinedLines(TrimmedTexts(m));
    JoinedLines(TrimmedTexts(n));
    DriftedExactly(hash, delivered, current);
    if BlockText(m) == BlockText(n) {
      SameEol(TrimmedTexts(m), TrimmedTexts(n));
    }
  }

  lemma SameEol(a: seq<string>, b: seq<string>)
    requires WithEol(a, "\n") == WithEol(b, "\n")
    ensures a == b
  {
    assert |WithEol(a, "\n")| == |a| && |WithEol(b, "\n")| == |b|;
    assert forall i | 0 <= i < |a| :: WithEol(a, "\n")[i].text == a[i] && WithEol(b, "\n")[i].text == b[i];
  }

  /** Neither with a block: every line's text matters, and whether the last one ends, but not how lines end. */
  lemma WholeFilesDrift<H(!new)>(hash: string -> H, delivered: string, current: string)
    requires Injective(hash) && Blockless(FileLines(delivered)) && Blockless(FileLines(current))
    ensures IsDrifted(hash, DriftHash(hash, delivered), current) <==>
            !SameTexts(FileLines(delivered), FileLines(current))
  {
    hide Unixed, Lines, Flat, Blockless, ExtractManagedBlock, IsDrifted, DriftHash, Normalize;
    NoBlockRead(delivered);
    NoBlockRead(current);
    Normalized(delivered);
    Normalized(current);
    DriftedExactly(hash, delivered, current);
    SameUnix(FileLines(delivered), FileLines(current));
  }

  lemma SameUnix(a: seq<RawLine>, b: seq<RawLine>)
    ensures UnixLines(a) == UnixLines(b) <==> SameTexts(a, b)
  {
    if UnixLines(a) == UnixLines(b) {
      assert |a| == |UnixLines(a)| && |b| == |UnixLines(b)|;
      forall i | 0 <= i < |a|
        ensures a[i].text == b[i].text && (a[i].eol == "" <==> b[i].eol == "")
      {
        assert UnixLines(a)[i] == UnixLine(a[i]) && UnixLines(b)[i] == UnixLine(b[i]);
      }
    }
  }

  /** One with a block and one without: they always drift. */
  lemma BlockAndNoneDrift<H(!new)>(hash: string -> H, delivered: string, current: string)
    requires Injective(hash) && Blockless(FileLines(delivered)) != Blockless(FileLines(current))
    ensures IsDrifted(hash, DriftHash(hash, delivered), current)
  {
    hide Unixed, Lines, IsBlock, IsAround, HasBlock, ExtractManagedBlock, IsDrifted, DriftHash, Normalize;
    DriftedExactly(hash, delivered, current);
    var with, without := if Blockless(FileLines(current)) then delivered else current,
                         if Blockless(FileLines(current)) then current else delivered;
    var m :| HasBlock(FileLines(with), m);
    BlockRead(with, m);
    NoBlockRead(without);
    ExtractTwice(Normalize(with), BlockText(m));
  }

  /** Files whose blocks differ in trailing white space and line breaks only, such as the one that ends the block,
      never drift from each other, whatever else they hold, and whatever the hash. */
  lemma OutsideNeverDrifts<H>(hash: string -> H, delivered: string, current: string,
                              m: seq<RawLine>, n: seq<RawLine>)
    requires HasBlock(FileLines(delivered), m) && HasBlock(FileLines(current), n)
    requires TrimmedTexts(m) == TrimmedTexts(n)
    ensures !IsDrifted(hash, DriftHash(hash, delivered), current)
  {
    hide Unixed, Lines, HasBlock, TrimmedTexts, ExtractManagedBlock;
    BlockRead(delivered, m);
    BlockRead(current, n);
  }

  /** A BOM never counts. */
  lemma BomNeverDrifts<H>(hash: string -> H, content: string)
    requires content == "" || content[0] != '\U{FEFF}'
    ensures var marked := "\U{FEFF}" + content;
            && !IsDrifted(hash, DriftHash(hash, content), marked)
            && !IsDrifted(hash, DriftHash(hash, marked), content)
  {
    hide Unixed, ExtractManagedBlock;
    var marked := "\U{FEFF}" + content;
    assert marked[1..] == content;
  }
}
