/** The line patterns of packages/compiler/src/parse.ts, as the texts that their regular expressions match. */
module PatternLaws {
  import opened Text
  import opened Patterns
  import Document
  import ManagedBlock
  import opened Parse

  predicate Spaces(s: string) { forall i | 0 <= i < |s| :: IsSpace(s[i]) }

  predicate Digits(s: string) { s != "" && forall i | 0 <= i < |s| :: IsDigit(s[i]) }

  predicate Starts(s: string) { s == "" || !IsSpace(s[0]) }

  // ---------------------------------------------------------------------
  // White space
  // ---------------------------------------------------------------------

  /** White space in front, and what is left. */
  lemma {:induction false} TrimStartSplits(s: string) returns (n: nat)
    ensures n <= |s| && Spaces(s[..n]) && TrimStart(s) == s[n..] && Starts(s[n..])
  {
    n := 0;
    if s != "" && IsSpace(s[0]) {
      var k := TrimStartSplits(s[1..]);
      n := k + 1;
      assert s[..n] == [s[0]] + s[1..][..k];
      assert s[n..] == s[1..][k..];
    }
  }

  lemma {:induction false} TrimStartExact(sp: string, rest: string)
    requires Spaces(sp) && Starts(rest)
    ensures TrimStart(sp + rest) == rest
  {
    if sp == "" {
      assert sp + rest == rest;
    } else {
      assert (sp + rest)[1..] == sp[1..] + rest;
      TrimStartExact(sp[1..], rest);
    }
  }

  lemma {:induction false} TrimEndSplits(s: string)
    ensures Spaces(s[|TrimEnd(s)|..]) && s == TrimEnd(s) + s[|TrimEnd(s)|..]
  {
    if s != "" && IsSpace(s[|s| - 1]) {
      var t := s[..|s| - 1];
      TrimEndSplits(t);
      assert s[|TrimEnd(s)|..] == t[|TrimEnd(s)|..] + [s[|s| - 1]];
    }
  }

  lemma {:induction false} TrimEndExact(text: string, sp: string)
    requires Spaces(sp) && (text == "" || !IsSpace(text[|text| - 1]))
    ensures TrimEnd(text + sp) == text
  {
    if sp == "" {
      assert text + sp == text;
    } else {
      var n := |sp| - 1;
      assert (text + sp)[..|text| + n] == text + sp[..n];
      TrimEndExact(text, sp[..n]);
    }
  }

  // ---------------------------------------------------------------------
  // Whole lines
  // ---------------------------------------------------------------------

  /** FENCE: three backticks or three tildes behind white space. */
  lemma FenceExactly(s: string)
    ensures IsFence(s) <==> exists n :: 0 <= n <= |s| && Spaces(s[..n]) && ("```" <= s[n..] || "~~~" <= s[n..])
  {
    var k := TrimStartSplits(s);
    if n :| 0 <= n <= |s| && Spaces(s[..n]) && ("```" <= s[n..] || "~~~" <= s[n..]) {
      assert s == s[..n] + s[n..];
      assert Starts(s[n..]) by { assert s[n..][0] in {'`', '~'}; }
      TrimStartExact(s[..n], s[n..]);
    }
  }

  /** An import: `@` and no white space behind it. */
  lemma ImportExactly(s: string)
    ensures IsImport(s) <==> |s| >= 2 && s[0] == '@' && forall i | 1 <= i < |s| :: !IsSpace(s[i])
  {
    if s != "" { WordRunExact(s[1..]); }
    assert forall i | 1 <= i < |s| :: s[i] == s[1..][i - 1];
  }

  lemma {:induction false} WordRunExact(s: string)
    ensures var n := WordRun(s);
            && (forall i | 0 <= i < n :: !IsSpace(s[i])) && (n < |s| ==> IsSpace(s[n]))
  {
    if s != "" && !IsSpace(s[0]) {
      WordRunExact(s[1..]);
      assert forall i | 1 <= i < WordRun(s) :: s[i] == s[1..][i - 1];
    }
  }

  /** A line that may continue an item: white space, and then something. */
  lemma IndentedExactly(s: string)
    ensures IsIndented(s) <==> s != "" && IsSpace(s[0]) && exists i :: 0 <= i < |s| && !IsSpace(s[i])
  {
    var n := TrimStartSplits(s);
    if n < |s| {
      assert !IsSpace(s[n..][0]);
      assert s[n..] != "" && !IsSpace(s[n]);
    } else {
      assert s[..n] == s && s[n..] == "";
    }
  }

  /** A comment that is all of a line. */
  lemma CommentExactly(s: string)
    ensures IsComment(s) <==> exists n, inner ::
              0 <= n <= |s| && Spaces(s[..n]) && s[n..] == "<!--" + inner + "-->" && NoTerminator(inner)
  {
    var k := TrimStartSplits(s);
    var t := s[k..];
    if IsComment(s) {
      var inner := t[4..|t| - 3];
      assert t == t[..4] + inner + t[|t| - 3..];
      assert t[..4] == "<!--" && t[|t| - 3..] == "-->";
      assert s[k..] == "<!--" + inner + "-->";
    }
    if n, inner :| 0 <= n <= |s| && Spaces(s[..n]) && s[n..] == "<!--" + inner + "-->" && NoTerminator(inner) {
      assert s == s[..n] + s[n..] && s[n..][0] == '<';
      TrimStartExact(s[..n], s[n..]);
      assert t == "<!--" + inner + "-->";
      assert t[4..|t| - 3] == inner && t[|t| - 3..] == "-->";
    }
  }

  /** HEADER_LINE: a word without white space, and when. */
  predicate IsHeaderOf(s: string, space: string, when: string) {
    && s == "<!-- Compiled by Memax from " + space + " at " + when + " -->"
    && space != "" && (forall i | 0 <= i < |space| :: !IsSpace(space[i])) && NoTerminator(when)
  }

  lemma HeaderExactly(s: string)
    ensures IsHeader(s) <==> exists space, when :: IsHeaderOf(s, space, when)
  {
    hide NoTerminator, IsSpace, WordRun, IsHeaderOf, IsHeader;
    if IsHeader(s) { HeaderSplits(s); }
    if space, when :| IsHeaderOf(s, space, when) { HeaderReads(s, space, when); }
  }

  lemma HeaderSplits(s: string)
    requires IsHeader(s)
    ensures exists space, when :: IsHeaderOf(s, space, when)
  {
    hide NoTerminator, IsSpace, WordRun, HeaderStart, IsHeaderOf, EndsWith;
    var rest := s[|HeaderStart()|..];
    WordRunExact(rest);
    var n := WordRun(rest);
    var tail := rest[n + 4..];
    TailSplits(tail);
    HeaderJoins(s, rest, n);
    HeaderOf(s, rest[..n], tail[..|tail| - 4]);
  }

  lemma TailSplits(tail: string)
    requires EndsWith(tail, " -->")
    ensures |tail| >= 4 && tail == tail[..|tail| - 4] + " -->"
  {
  }

  lemma HeaderJoins(s: string, rest: string, n: nat)
    requires HeaderStart() <= s && rest == s[|HeaderStart()|..] && n <= |rest| && " at " <= rest[n..]
    ensures s == HeaderStart() + rest[..n] + " at " + rest[n + 4..]
  {
    hide HeaderStart;
    assert s == HeaderStart() + rest;
    assert rest == rest[..n] + rest[n..];
    assert rest[n..] == " at " + rest[n + 4..];
  }

  lemma HeaderOf(s: string, space: string, when: string)
    requires s == HeaderStart() + space + " at " + when + " -->"
    requires space != "" && (forall i | 0 <= i < |space| :: !IsSpace(space[i])) && NoTerminator(when)
    ensures IsHeaderOf(s, space, when)
  {
    hide NoTerminator, IsSpace;
  }

  lemma HeaderReads(s: string, space: string, when: string)
    requires IsHeaderOf(s, space, when)
    ensures IsHeader(s)
  {
    hide NoTerminator, IsSpace, WordRun, HeaderStart;
    var start, tail := HeaderStart(), when + " -->";
    var rest := space + (" at " + tail);
    StartIs();
    assert s == start + rest;
    assert s[|start|..] == rest;
    BlankIsSpace();
    WordEnds(space, " at " + tail);
    assert rest[|space|..] == " at " + tail;
    assert rest[|space| + 4..] == tail;
    TailEnds(when);
  }

  lemma StartIs()
    ensures HeaderStart() == "<!-- Compiled by Memax from "
  {
  }

  lemma BlankIsSpace()
    ensures IsSpace(' ')
  {
  }

  lemma TailEnds(when: string)
    ensures var tail := when + " -->"; EndsWith(tail, " -->") && tail[..|tail| - 4] == when
  {
    var tail := when + " -->";
    assert tail[|tail| - 4..] == " -->";
  }

  lemma {:induction false} WordEnds(word: string, rest: string)
    requires (forall i | 0 <= i < |word| :: !IsSpace(word[i])) && rest != "" && IsSpace(rest[0])
    ensures WordRun(word + rest) == |word|
  {
    if word == "" {
      assert word + rest == rest;
    } else {
      assert (word + rest)[1..] == word[1..] + rest;
      WordEnds(word[1..], rest);
    }
  }

  // ---------------------------------------------------------------------
  // List items
  // ---------------------------------------------------------------------

  predicate IsBullet(b: string) {
    || b in {"-", "*", "+"}
    || (2 <= |b| <= 10 && Digits(b[..|b| - 1]) && b[|b| - 1] in {'.', ')'})
  }

  lemma {:induction false} DigitRunExact(s: string)
    ensures var n := DigitRun(s);
            && (forall i | 0 <= i < n :: IsDigit(s[i])) && (n < |s| ==> !IsDigit(s[n]))
  {
    if s != "" && IsDigit(s[0]) {
      DigitRunExact(s[1..]);
      assert forall i | 1 <= i < DigitRun(s) :: s[i] == s[1..][i - 1];
    }
  }

  lemma {:induction false} DigitsEnd(s: string, rest: string)
    requires (forall i | 0 <= i < |s| :: IsDigit(s[i])) && (rest == "" || !IsDigit(rest[0]))
    ensures DigitRun(s + rest) == |s|
  {
    if s == "" {
      assert s + rest == rest;
    } else {
      assert (s + rest)[1..] == s[1..] + rest;
      DigitsEnd(s[1..], rest);
    }
  }

  lemma BulletSplits(s: string)
    ensures AfterBullet(s).Some? ==> exists b :: IsBullet(b) && s == b + AfterBullet(s).value
  {
    if AfterBullet(s).Some? {
      if s[0] in {'-', '*', '+'} {
        assert s == s[..1] + s[1..] && s[..1] == [s[0]];
        assert IsBullet(s[..1]);
      } else {
        var d := DigitRun(s);
        DigitRunExact(s);
        var b := s[..d + 1];
        assert b[..|b| - 1] == s[..d];
        assert s == b + s[d + 1..];
        assert IsBullet(b);
      }
    }
  }

  lemma BulletReads(b: string, rest: string)
    requires IsBullet(b)
    ensures AfterBullet(b + rest) == Some(rest) && Starts(b + rest)
  {
    var s := b + rest;
    if b in {"-", "*", "+"} {
      assert s[0] == b[0] && s[1..] == rest;
    } else {
      var d := |b| - 1;
      assert s == b[..d] + ([b[d]] + rest);
      DigitsEnd(b[..d], [b[d]] + rest);
      assert s[0] == b[..d][0] && s[d] == b[d] && s[d + 1..] == rest;
    }
  }

  /** ITEM: white space, a bullet, white space, and the words, which begin with none. */
  ghost predicate IsItemOf(s: string, w: string, sp: string, b: string, gap: string) {
    s == sp + b + gap + w && Spaces(sp) && IsBullet(b) && gap != "" && Spaces(gap) && NoTerminator(w) && Starts(w)
  }

  lemma ItemExactly(s: string, w: string)
    ensures ItemMatch(s) == Some(w) <==> exists sp, b, gap :: IsItemOf(s, w, sp, b, gap)
  {
    hide AfterBullet, IsBullet, NoTerminator;
    if ItemMatch(s) == Some(w) {
      var n := TrimStartSplits(s);
      BulletSplits(TrimStart(s));
      var rest := AfterBullet(TrimStart(s)).value;
      var b :| IsBullet(b) && TrimStart(s) == b + rest;
      var k := TrimStartSplits(rest);
      assert k > 0;
      assert s == s[..n] + b + rest[..k] + w;
      assert IsItemOf(s, w, s[..n], b, rest[..k]);
    }
    if sp, b, gap :| IsItemOf(s, w, sp, b, gap) {
      ItemReads(s, w, sp, b, gap);
    }
  }

  lemma ItemReads(s: string, w: string, sp: string, b: string, gap: string)
    requires IsItemOf(s, w, sp, b, gap)
    ensures ItemMatch(s) == Some(w)
  {
    hide AfterBullet, IsBullet, NoTerminator;
    assert s == sp + (b + (gap + w)) && b + gap + w == b + (gap + w);
    BulletReads(b, gap + w);
    TrimStartExact(sp, b + (gap + w));
    TrimStartExact(gap, w);
    assert (gap + w)[0] == gap[0];
  }

  // ---------------------------------------------------------------------
  // Cites and markers
  // ---------------------------------------------------------------------

  lemma RefExactly(s: string)
    ensures IsRef(s) <==> exists digits :: s == "M-" + digits && Digits(digits)
  {
    if IsRef(s) {
      assert s == "M-" + s[2..];
      assert Digits(s[2..]);
    }
  }

  /** MARKER: one of the two markers in brackets, white space, and the words. */
  ghost predicate IsMarkedOf(s: string, head: string, text: string) {
    Starts(text) && exists gap :: s == head + gap + text && gap != "" && Spaces(gap)
  }

  lemma MarkerExactly(s: string, marker: string, text: string)
    ensures MarkerMatch(s) == Some(Marked(marker, text)) <==>
            || (marker == "Being verified" && IsMarkedOf(s, "(Being verified)", text))
            || (marker == "In conflict" && IsMarkedOf(s, "(In conflict)", text))
  {
    hide IsMarkedOf, MarkedWith, TrimStart;
    MarkedExactly(s, "(Being verified)", text);
    MarkedExactly(s, "(In conflict)", text);
    HeadsDiffer(s);
  }

  lemma HeadsDiffer(s: string)
    ensures |"(Being verified)"| == 16 && |"(In conflict)"| == 13 && "Being verified" != "In conflict"
    ensures !(MarkedWith(s, "(Being verified)") && MarkedWith(s, "(In conflict)"))
  {
    assert "(Being verified)"[1] == 'B' && "(In conflict)"[1] == 'I';
    assert |"Being verified"| == 14 && |"In conflict"| == 11;
  }

  lemma MarkedExactly(s: string, head: string, text: string)
    ensures IsMarkedOf(s, head, text) <==> MarkedWith(s, head) && TrimStart(s[|head|..]) == text
  {
    hide IsSpace;
    if MarkedWith(s, head) && TrimStart(s[|head|..]) == text {
      var rest := s[|head|..];
      var k := TrimStartSplits(rest);
      assert rest[0] == s[|head|];
      assert k > 0;
      assert s == head + rest[..k] + rest[k..];
    }
    if IsMarkedOf(s, head, text) {
      var gap :| s == head + gap + text && gap != "" && Spaces(gap);
      assert s == head + (gap + text);
      assert s[|head|] == gap[0] && s[|head|..] == gap + text;
      TrimStartExact(gap, text);
    }
  }

  // ---------------------------------------------------------------------
  // Lists of cites
  // ---------------------------------------------------------------------

  /** Refs with commas between them, and white space round the commas only. */
  ghost predicate IsCiteList(inner: string, refs: seq<string>)
    decreases |refs|
  {
    refs != [] && IsRef(refs[0]) &&
    if |refs| == 1 then inner == refs[0]
    else exists a, b, rest :: IsListHead(inner, refs[0], a, b, rest) && IsCiteList(rest, refs[1..])
  }

  predicate IsListHead(inner: string, ref: string, a: string, b: string, rest: string) {
    inner == ref + a + "," + b + rest && Spaces(a) && Spaces(b)
  }

  lemma RefShape(r: string)
    requires IsRef(r)
    ensures r != "" && r[0] == 'M' && !IsSpace('M') && !IsSpace(r[|r| - 1])
    ensures ',' !in r && '[' !in r && ']' !in r && Trim(r) == r
  {
    TrimTrimmed(r);
  }

  lemma SpacesHoldNone(sp: string)
    requires Spaces(sp)
    ensures ',' !in sp && '[' !in sp
  {
  }

  lemma TrimAfter(ref: string, a: string)
    requires IsRef(ref) && Spaces(a)
    ensures Trim(ref + a) == ref
  {
    RefShape(ref);
    TrimStartExact("", ref + a);
    assert "" + (ref + a) == ref + a;
    TrimEndExact(ref, a);
  }

  lemma TrimBefore(b: string, text: string)
    requires Spaces(b)
    ensures Trim(b + text) == Trim(text)
  {
    var n := TrimStartSplits(text);
    assert b + text == (b + text[..n]) + text[n..];
    TrimStartExact(b + text[..n], text[n..]);
  }

  lemma SplitBehind(b: string, rest: string)
    requires ',' !in b
    ensures var parts := Split(rest, ','); Split(b + rest, ',') == [b + parts[0]] + parts[1..]
  {
    var n := IndexOf(rest, ',');
    if n == |rest| {
      IndexOfAbsent(b + rest, ',');
    } else {
      assert b + rest == (b + rest[..n]) + [','] + rest[n + 1..];
      SplitFirst(b + rest[..n], ',', rest[n + 1..]);
    }
  }

  /** The parts of a list, trimmed. */
  lemma {:induction false} ListReads(inner: string, refs: seq<string>)
    requires IsCiteList(inner, refs)
    ensures Trims(Split(inner, ',')) == refs && inner != "" && inner[0] == 'M' && !IsSpace(inner[|inner| - 1])
    ensures '[' !in inner && forall r | r in refs :: IsRef(r)
    decreases |refs|
  {
    hide Split, IsRef, IsSpace, Trim;
    var ref := refs[0];
    RefShape(ref);
    if |refs| == 1 {
      IndexOfAbsent(ref, ',');
      SplitOne(ref);
    } else {
      var a, b, rest :| IsListHead(inner, ref, a, b, rest) && IsCiteList(rest, refs[1..]);
      ListReads(rest, refs[1..]);
      SpacesHoldNone(a);
      SpacesHoldNone(b);
      assert inner == (ref + a) + [','] + (b + rest);
      SplitFirst(ref + a, ',', b + rest);
      SplitBehind(b, rest);
      TrimAfter(ref, a);
      var parts := Split(rest, ',');
      TrimBefore(b, parts[0]);
      assert Trims([ref + a] + ([b + parts[0]] + parts[1..])) == [ref] + Trims(parts);
      assert inner[|inner| - 1] == rest[|rest| - 1];
    }
  }

  lemma SplitOne(s: string)
    requires ',' !in s
    ensures Split(s, ',') == [s]
  {
    IndexOfAbsent(s, ',');
  }

  lemma {:induction false} ListSplits(inner: string, refs: seq<string>)
    requires Trims(Split(inner, ',')) == refs && forall r | r in refs :: IsRef(r)
    requires inner != "" && !IsSpace(inner[0]) && !IsSpace(inner[|inner| - 1])
    ensures IsCiteList(inner, refs)
    decreases |refs|
  {
    hide IsRef, IsSpace, Trim, TrimStart, TrimEnd, Split, IsCiteList;
    var n := IndexOf(inner, ',');
    if n == |inner| {
      SplitOne(inner);
      TrimTrimmed(inner);
      assert refs == [inner];
      OneCite(inner);
    } else {
      var part, after := inner[..n], inner[n + 1..];
      assert inner == part + [','] + after;
      SplitFirst(part, ',', after);
      assert Trims([part] + Split(after, ',')) == [Trim(part)] + Trims(Split(after, ','));
      var a := PartSplits(inner, part, refs[0]);
      var k := TrimStartSplits(after);
      var b, rest := after[..k], after[k..];
      RestStarts(inner, n, k, refs[1..]);
      RestSplits(after, b, rest, refs[1..]);
      ListSplits(rest, refs[1..]);
      assert after == b + rest;
      assert inner == refs[0] + a + "," + b + rest;
      MoreCites(inner, refs, a, b, rest);
    }
  }

  lemma OneCite(inner: string)
    requires IsRef(inner)
    ensures IsCiteList(inner, [inner])
  {
  }

  lemma MoreCites(inner: string, refs: seq<string>, a: string, b: string, rest: string)
    requires |refs| > 1 && IsRef(refs[0]) && IsListHead(inner, refs[0], a, b, rest) && IsCiteList(rest, refs[1..])
    ensures IsCiteList(inner, refs)
  {
  }

  lemma RestSplits(after: string, b: string, rest: string, refs: seq<string>)
    requires after == b + rest && Spaces(b) && Trims(Split(after, ',')) == refs
    ensures Trims(Split(rest, ',')) == refs && refs != []
  {
    hide Trim, Split;
    SpacesHoldNone(b);
    SplitBehind(b, rest);
    var parts := Split(rest, ',');
    TrimBefore(b, parts[0]);
    assert Trims([b + parts[0]] + parts[1..]) == [Trim(b + parts[0])] + Trims(parts[1..]);
    assert Trims(parts) == [Trim(parts[0])] + Trims(parts[1..]);
  }

  lemma PartSplits(inner: string, part: string, ref: string) returns (a: string)
    requires part <= inner && inner != "" && !IsSpace(inner[0]) && Trim(part) == ref && IsRef(ref)
    ensures part == ref + a && Spaces(a)
  {
    RefShape(ref);
    TrimEndSplits(part);
    TrimStartExact("", part);
    assert "" + part == part;
    a := part[|TrimEnd(part)|..];
  }

  lemma RestStarts(inner: string, n: nat, k: nat, refs: seq<string>)
    requires n < |inner| && k <= |inner| - n - 1 && Trims(Split(inner[n + 1..], ',')) == refs
    requires Spaces(inner[n + 1..][..k]) && Starts(inner[n + 1..][k..])
    requires (forall r | r in refs :: IsRef(r)) && !IsSpace(inner[|inner| - 1])
    ensures var rest := inner[n + 1..][k..]; rest != "" && !IsSpace(rest[0]) && !IsSpace(rest[|rest| - 1])
  {
    var after := inner[n + 1..];
    if after[k..] == "" {
      assert after == after[..k];
      SpacesAreNoList(after);
    }
  }

  lemma SpacesAreNoList(sp: string)
    requires Spaces(sp)
    ensures Trims(Split(sp, ',')) == [""] && "" in Trims(Split(sp, ',')) && !IsRef("")
  {
    SpacesHoldNone(sp);
    SplitOne(sp);
    assert sp + "" == sp;
    TrimStartExact(sp, "");
  }

  /** CITES: a list of cites in brackets at the end of a line, and the words before it. */
  ghost predicate IsCitedOf(s: string, c: Cited, pre: string, inner: string) {
    s == pre + "[" + inner + "]" && IsCiteList(inner, c.refs) && c.text == Trim(pre)
  }

  lemma CitesExactly(s: string, c: Cited)
    ensures CitesMatch(s) == Some(c) <==> exists pre, inner :: IsCitedOf(s, c, pre, inner)
  {
    hide Trim, Trims, Split, IsRef, IsSpace, IsCiteList;
    if CitesMatch(s) == Some(c) {
      var at := LastIndexOf(s, '[');
      var inner := s[at + 1..|s| - 1];
      InnerInside(s, at);
      ListSplits(inner, c.refs);
      assert IsCitedOf(s, c, s[..at], inner);
    }
    if pre, inner :| IsCitedOf(s, c, pre, inner) { CitesRead(s, c, pre, inner); }
  }

  lemma InnerInside(s: string, at: int)
    requires 0 <= at < |s| && s[at] == '[' && s[|s| - 1] == ']'
    ensures at + 1 <= |s| - 1 && s == s[..at] + "[" + s[at + 1..|s| - 1] + "]"
  {
  }

  lemma CitesRead(s: string, c: Cited, pre: string, inner: string)
    requires IsCitedOf(s, c, pre, inner)
    ensures CitesMatch(s) == Some(c)
  {
    hide Trim, Trims, Split, IsRef, IsCiteList;
    ListReads(inner, c.refs);
    assert !IsSpace('M');
    assert s == pre + ['['] + (inner + "]");
    LastBracket(pre, inner + "]");
    assert s[..|pre|] == pre && s[|pre| + 1..|s| - 1] == inner;
  }

  lemma {:induction false} LastBracket(a: string, b: string)
    requires '[' !in b
    ensures LastIndexOf(a + ['['] + b, '[') == |a|
  {
    var s := a + ['['] + b;
    if b != "" {
      var n := |s| - 1;
      assert s[n] == b[|b| - 1];
      assert s[..n] == a + ['['] + b[..|b| - 1];
      LastBracket(a, b[..|b| - 1]);
    }
  }

  // ---------------------------------------------------------------------
  // Headings
  // ---------------------------------------------------------------------

  predicate Hashes(s: string) { forall i | 0 <= i < |s| :: s[i] == '#' }

  /** A title with white space and hashes behind it. */
  predicate IsClosed(text: string, title: string, gap: string, hashes: string) {
    text == title + gap + hashes && gap != "" && Spaces(gap) && hashes != "" && Hashes(hashes)
    && (title == "" || !IsSpace(title[|title| - 1]))
  }

  lemma {:induction false} DropHashesSplits(s: string)
    ensures var t := DropHashes(s); Hashes(s[|t|..]) && (t != "" ==> t[|t| - 1] != '#') && s == t + s[|t|..]
  {
    if s != "" && s[|s| - 1] == '#' {
      var t := s[..|s| - 1];
      DropHashesSplits(t);
      assert s[|DropHashes(s)|..] == t[|DropHashes(s)|..] + ['#'];
    }
  }

  lemma {:induction false} DropHashesExact(t: string, hashes: string)
    requires Hashes(hashes) && (t == "" || t[|t| - 1] != '#')
    ensures DropHashes(t + hashes) == t
  {
    if hashes == "" {
      assert t + hashes == t;
    } else {
      var n := |hashes| - 1;
      assert (t + hashes)[..|t| + n] == t + hashes[..n];
      DropHashesExact(t, hashes[..n]);
    }
  }

  /** A title's closing hashes go, with the white space before them; any other text is its own title. */
  lemma TitleExactly(text: string)
    requires Trimmed(text)
    ensures forall title, gap, hashes | IsClosed(text, title, gap, hashes) :: Title(text) == title
    ensures (forall title, gap, hashes :: !IsClosed(text, title, gap, hashes)) ==> Title(text) == text
  {
    hide IsSpace;
    forall title, gap, hashes | IsClosed(text, title, gap, hashes)
      ensures Title(text) == title
    {
      TitleClosed(text, title, gap, hashes);
    }
    var open := DropHashes(text);
    DropHashesSplits(text);
    if open != text && open != "" && IsSpace(open[|open| - 1]) {
      TrimEndSplits(open);
      var title := TrimEnd(open);
      assert text == title + open[|title|..] + text[|open|..];
      assert IsClosed(text, title, open[|title|..], text[|open|..]);
    }
  }

  lemma TitleClosed(text: string, title: string, gap: string, hashes: string)
    requires Trimmed(text) && IsClosed(text, title, gap, hashes)
    ensures Title(text) == title
  {
    var open := title + gap;
    assert text == open + hashes;
    assert open[|open| - 1] == gap[|gap| - 1];
    assert open[|open| - 1] != '#';
    DropHashesExact(open, hashes);
    TrimEndExact(title, gap);
  }

  /** HEADING: one to six hashes, white space, and a text whose title has no line terminator. */
  predicate IsHeadingOf(s: string, level: nat, gap: string, text: string, end: string) {
    && 1 <= level <= 6 && |s| > level && Hashes(s[..level]) && s[level..] == gap + text + end
    && gap != "" && Spaces(gap) && Trimmed(text) && Spaces(end) && NoTerminator(Title(text))
  }

  lemma {:induction false} HashRunExact(s: string)
    ensures var n := HashRun(s); Hashes(s[..n]) && (n < |s| ==> s[n] != '#')
  {
    if s != "" && s[0] == '#' {
      HashRunExact(s[1..]);
      assert s[..HashRun(s)] == ['#'] + s[1..][..HashRun(s) - 1];
    }
  }

  lemma {:induction false} HashRunIs(s: string, n: nat)
    requires n < |s| && Hashes(s[..n]) && s[n] != '#'
    ensures HashRun(s) == n
  {
    if n > 0 {
      assert s[0] == s[..n][0];
      assert s[1..][..n - 1] == s[..n][1..];
      HashRunIs(s[1..], n - 1);
    }
  }

  lemma HeadingExactly(s: string, level: nat, title: string)
    ensures HeadingMatch(s) == Some(HeadingLine(level, title)) <==>
            exists gap, text, end :: IsHeadingOf(s, level, gap, text, end) && title == Title(text)
  {
    hide NoTerminator, Title, IsSpace, TrimStart, TrimEnd, HashRun;
    if HeadingMatch(s) == Some(HeadingLine(level, title)) {
      HashRunExact(s);
      var k := TrimStartSplits(s[level..]);
      var t := s[level..][k..];
      TrimEndSplits(t);
      var text := TrimEnd(t);
      assert text != "" ==> text[0] == t[0];
      assert k > 0 by { assert s[level..][0] == s[level]; }
      assert s[level..] == s[level..][..k] + text + t[|text|..];
      assert IsHeadingOf(s, level, s[level..][..k], text, t[|text|..]);
    }
    if gap, text, end :| IsHeadingOf(s, level, gap, text, end) && title == Title(text) {
      HeadingReads(s, level, gap, text, end);
    }
  }

  lemma HeadingReads(s: string, level: nat, gap: string, text: string, end: string)
    requires IsHeadingOf(s, level, gap, text, end)
    ensures HeadingMatch(s) == Some(HeadingLine(level, Title(text)))
  {
    hide NoTerminator, Title, TrimStart, TrimEnd, HashRun;
    assert s[level] == s[level..][0] == gap[0];
    HashRunIs(s, level);
    if text == "" {
      assert s[level..] == (gap + end) + "";
      TrimStartExact(gap + end, "");
      TrimEndExact("", "");
      assert "" + "" == "";
    } else {
      assert s[level..] == gap + (text + end);
      TrimStartExact(gap, text + end);
      TrimEndExact(text, end);
    }
  }

  // ---------------------------------------------------------------------
  // Scope headings
  // ---------------------------------------------------------------------

  predicate Quotable(ps: seq<string>) { forall p | p in ps :: p != "" && '`' !in p }

  lemma {:induction false} BackticksSplit(s: string) returns (ps: seq<string>)
    requires BacktickList(s)
    ensures ps != [] && Quotable(ps) && s == Join(Document.Quoted(ps), ", ")
    decreases |s|
  {
    hide IndexOf;
    var n := IndexOf(s[1..], '`');
    var rest := s[n + 2..];
    var p := s[1..n + 1];
    assert p == s[1..][..n];
    assert s == "`" + p + "`" + rest;
    if rest == "" {
      ps := [p];
    } else {
      var more := BackticksSplit(rest[2..]);
      ps := [p] + more;
      assert Document.Quoted(ps)[1..] == Document.Quoted(more);
      assert rest == ", " + rest[2..];
    }
  }

  lemma {:induction false} BackticksRead(ps: seq<string>)
    requires ps != [] && Quotable(ps)
    ensures BacktickList(Join(Document.Quoted(ps), ", "))
  {
    hide IndexOf;
    var s, p := Join(Document.Quoted(ps), ", "), ps[0];
    assert p in ps;
    if |ps| == 1 {
      BacktickAt(s, p, "");
    } else {
      var more := Join(Document.Quoted(ps[1..]), ", ");
      assert Document.Quoted(ps)[1..] == Document.Quoted(ps[1..]);
      assert forall q | q in ps[1..] :: q in ps;
      BackticksRead(ps[1..]);
      assert s == "`" + p + "`" + (", " + more);
      BacktickAt(s, p, ", " + more);
      assert (", " + more)[2..] == more;
    }
  }

  lemma BacktickAt(s: string, p: string, rest: string)
    requires s == "`" + p + "`" + rest && '`' !in p
    ensures s[0] == '`' && IndexOf(s[1..], '`') == |p| && s[|p| + 2..] == rest
  {
    assert s[1..] == p + ['`'] + rest;
    IndexOfPrefix(p, '`', rest);
  }

  /** SCOPE_HEADING: `In ` and texts in backticks, with a comma and a space between them. */
  lemma ScopeExactly(title: string)
    ensures ScopeMatch(title).Some? <==>
            exists ps :: ps != [] && Quotable(ps) && title == "In " + Join(Document.Quoted(ps), ", ")
  {
    hide BacktickList, Join, SplitCommas;
    if ScopeMatch(title).Some? {
      var ps := BackticksSplit(title[3..]);
      assert title == "In " + title[3..];
    }
    if ps :| ps != [] && Quotable(ps) && title == "In " + Join(Document.Quoted(ps), ", ") {
      BackticksRead(ps);
      assert title[3..] == Join(Document.Quoted(ps), ", ");
    }
  }

  // ---------------------------------------------------------------------
  // One kind for each line
  // ---------------------------------------------------------------------

  /** The first visible character of a line, and whether the line begins with it. */
  predicate Begins(text: string, c: char) {
    var t := TrimStart(text); t != "" && t[0] == c
  }

  lemma {:induction false} VisibleFirst(text: string)
    requires text != "" && !IsSpace(text[0])
    ensures TrimStart(text) == text
  {
  }

  lemma FirstOfFence(text: string)
    ensures IsFence(text) ==> Begins(text, '`') || Begins(text, '~')
  {
  }

  lemma FirstOfComment(text: string)
    ensures IsComment(text) ==> Begins(text, '<')
  {
    hide NoTerminator, IsSpace;
  }

  lemma FirstOfMarker(text: string)
    ensures Trim(text) in {ManagedBlock.START, ManagedBlock.END} ==> Begins(text, '<')
    ensures IsHeader(Trim(text)) ==> Begins(text, '<')
    ensures Trim(text) == "" <==> TrimStart(text) == ""
  {
    hide IsSpace, WordRun, NoTerminator;
    var t := TrimStart(text);
    var k := TrimStartSplits(text);
    TrimEndFirst(t);
    assert ManagedBlock.START[0] == '<' && ManagedBlock.END[0] == '<' && HeaderStart()[0] == '<';
  }

  lemma TrimEndFirst(t: string)
    requires Starts(t)
    ensures TrimEnd(t) == "" <==> t == ""
    ensures t != "" ==> TrimEnd(t)[0] == t[0]
  {
    TrimEndSplits(t);
    var r := TrimEnd(t);
    assert t[|r|..] != "" ==> IsSpace(t[|r|..][0]) && t[|r|..][0] == t[|r|];
  }

  lemma FirstOfHeading(text: string)
    ensures HeadingMatch(text).Some? ==> Begins(text, '#')
    ensures IsImport(text) ==> Begins(text, '@')
  {
    hide NoTerminator, Title, TrimEnd;
    if HeadingMatch(text).Some? { VisibleFirst(text); }
    if IsImport(text) { VisibleFirst(text); }
  }

  lemma FirstOfItem(text: string)
    ensures ItemMatch(text).Some? ==>
              Begins(text, '-') || Begins(text, '*') || Begins(text, '+')
              || (TrimStart(text) != "" && IsDigit(TrimStart(text)[0]))
  {
    hide NoTerminator, TrimStart, IsSpace;
  }

  /** Outside a fence and an open item, a line's kind is decided by its own pattern: no line matches two, but for the
      block's markers and the first header, which look like comments. So their order in the parser doesn't matter. */
  lemma KindsExactly(env: Env, files: seq<string>, st: State, n: nat, text: string)
    requires st.itemRaw == None && !st.inFence
    ensures var kind, marker := Read(env, files, st, n, text).line.kind,
                                Trim(text) in {ManagedBlock.START, ManagedBlock.END};
            && (kind == Fence <==> IsFence(text)) && (kind == Blank <==> Trim(text) == "")
            && (kind == MarkerLine <==> marker)
            && (kind == Header <==> st.header == None && IsHeader(Trim(text)) && !marker)
            && (kind == Comment ==> IsComment(text)) && (kind in {MarkerLine, Header, Comment} <== IsComment(text))
            && (kind == Heading <==> HeadingMatch(text).Some?) && (kind == Import <==> IsImport(text))
            && (kind == Item <==> ItemMatch(text).Some?)
            && (kind == Words <==> !IsFence(text) && Trim(text) != "" && !marker && !IsComment(text)
                                   && !(st.header == None && IsHeader(Trim(text)))
                                   && HeadingMatch(text) == None && !IsImport(text) && ItemMatch(text) == None)
  {
    FirstOfFence(text);
    FirstOfComment(text);
    FirstOfMarker(text);
    FirstOfHeading(text);
    FirstOfItem(text);
    hide IsFence, IsComment, IsHeader, HeadingMatch, IsImport, ItemMatch, Trim, TrimStart, CitesMatch, MarkerMatch,
      IsSpace, ManagedBlock.START, ManagedBlock.END;
  }
}
