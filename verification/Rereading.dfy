/** What the parser of packages/compiler/src/parse.ts makes of the same region of two files. */
module Rereading {
  import opened Text
  import opened Patterns
  import opened Parse
  import opened Diff
  import ManagedBlock
  import Drift

  predicate IsLayout(l: ParsedLine) {
    l.kind == Heading || l.kind == Import || l.kind == Comment || l.kind == Fence
  }

  function LayoutTexts(ls: seq<ParsedLine>): seq<string> {
    if ls == [] then [] else
    var n := |ls| - 1;
    if IsLayout(ls[n]) then LayoutTexts(ls[..n]) + [ls[n].text] else LayoutTexts(ls[..n])
  }

  lemma {:induction false} LayoutConcat(a: seq<ParsedLine>, b: seq<ParsedLine>)
    ensures LayoutTexts(a + b) == LayoutTexts(a) + LayoutTexts(b)
  {
    if b == [] {
      assert a + b == a;
    } else {
      assert (a + b)[..|a + b| - 1] == a + b[..|b| - 1];
      LayoutConcat(a, b[..|b| - 1]);
    }
  }

  /** What a layout line is compared by: a heading's clean title, and otherwise all of the line but the white space
      round it. */
  lemma LayoutIsText(env: Env, files: seq<string>, st: State, n: nat, text: string)
    requires st.itemRaw == None
    ensures var l := Read(env, files, st, n, text).line;
            && (l.kind in {Fence, Comment} ==> l.text == Trim(text))
            && (l.kind == Import ==> l.text == text)
            && (l.kind == Heading ==> HeadingMatch(text).Some? && l.text == env.clean(HeadingMatch(text).value.title))
  {
    hide Trim, IsFence, ItemMatch, HeadingMatch, IsImport, IsHeader, IsComment, CitesMatch, MarkerMatch;
  }

  lemma LayoutOne(l: ParsedLine)
    ensures LayoutTexts([l]) == if IsLayout(l) then [l.text] else []
  {
    assert [l][..0] == [];
  }

  /** One more line changes a file's layout exactly if it is a heading, an import, a comment or a fence. */
  lemma LayoutRaised(a: seq<ParsedLine>, l: ParsedLine, b: seq<ParsedLine>)
    ensures multiset(LayoutTexts(a + [l] + b)) != multiset(LayoutTexts(a + b)) <==>
            l.kind in {Heading, Import, Comment, Fence}
  {
    hide LayoutTexts;
    LayoutConcat(a + [l], b);
    LayoutConcat(a, [l]);
    LayoutConcat(a, b);
    LayoutOne(l);
    var more, less := LayoutTexts(a + [l] + b), LayoutTexts(a + b);
    if IsLayout(l) {
      assert multiset(more)[l.text] == multiset(less)[l.text] + 1;
    } else {
      assert more == less;
    }
  }

  lemma {:induction false} ContentConcat(a: seq<ParsedLine>, b: seq<ParsedLine>)
    ensures Content(a + b) == Content(a) + Content(b)
  {
    if b == [] {
      assert a + b == a;
    } else {
      assert (a + b)[..|a + b| - 1] == a + b[..|b| - 1];
      ContentConcat(a, b[..|b| - 1]);
    }
  }

  /** The header, where it was read as one. */
  function HeaderTexts(ls: seq<ParsedLine>): seq<string> {
    if ls == [] then [] else
    var n := |ls| - 1;
    if ls[n].kind == Header then HeaderTexts(ls[..n]) + [ls[n].text] else HeaderTexts(ls[..n])
  }

  predicate HoldsHeader(ls: seq<ParsedLine>) { exists l | l in ls :: l.kind == Header }

  lemma {:induction false} HeaderConcat(a: seq<ParsedLine>, b: seq<ParsedLine>)
    ensures HeaderTexts(a + b) == HeaderTexts(a) + HeaderTexts(b)
  {
    if b == [] {
      assert a + b == a;
    } else {
      assert (a + b)[..|a + b| - 1] == a + b[..|b| - 1];
      HeaderConcat(a, b[..|b| - 1]);
    }
  }

  lemma {:induction false} HeaderHeld(ls: seq<ParsedLine>)
    ensures HoldsHeader(ls) <==> HeaderTexts(ls) != []
  {
    if ls != [] {
      HeaderHeld(ls[..|ls| - 1]);
      assert forall l :: l in ls <==> l in ls[..|ls| - 1] || l == ls[|ls| - 1];
    }
  }

  // ---------------------------------------------------------------------
  // Two runs over the same words
  // ---------------------------------------------------------------------

  /** A file has one header; the same comment later is a comment. */
  predicate SameKind(a: Kind, b: Kind, exact: bool) {
    a == b || (!exact && a in {Header, Comment} && b in {Header, Comment})
  }

  /** The same words and cites, whatever section they stand in. */
  predicate Alike(a: ParsedLine, b: ParsedLine, exact: bool) {
    a.text == b.text && a.refs == b.refs && SameKind(a.kind, b.kind, exact)
  }

  predicate AllAlike(a: seq<ParsedLine>, b: seq<ParsedLine>, exact: bool) {
    |a| == |b| && forall i | 0 <= i < |a| :: Alike(a[i], b[i], exact)
  }

  /** The lines from `base` on are the ones read since; an open item is one of them. */
  predicate Since(st: State, base: nat) {
    base <= |st.lines| && (st.itemRaw.Some? ==> base < |st.lines|)
  }

  /** Two runs that both have a header, or both don't. */
  predicate SameHeader(st: State, other: State) { st.header.None? == other.header.None? }

  /** Two runs that have read alike lines, and will read the next line alike. */
  predicate InStep(st: State, base: nat, other: State, otherBase: nat, exact: bool) {
    && StateOk(st) && StateOk(other) && Since(st, base) && Since(other, otherBase)
    && AllAlike(st.lines[base..], other.lines[otherBase..], exact)
    && st.inFence == other.inFence && st.itemRaw == other.itemRaw
    && (exact ==> SameHeader(st, other))
  }

  predicate SameTrims(a: seq<string>, b: seq<string>) {
    |a| == |b| && forall i | 0 <= i < |a| :: TrimEnd(a[i]) == TrimEnd(b[i])
  }

  lemma HeaderIsComment(text: string)
    requires IsHeader(Trim(TrimEnd(text)))
    ensures IsComment(TrimEnd(text))
  {
    hide IsHeader, Trim, TrimEnd, TrimStart, NoTerminator, HeaderStart;
    var t := Trim(TrimEnd(text));
    assert t == TrimStart(TrimEnd(text)) by {
      Drift.TrimEndTwice(text);
      TrimmedStart(TrimEnd(text));
    }
    var words, inner := HeaderShape(t);
    var start := HeaderStart();
    StartShape();
    var mid := start[4..] + words + " at " + inner + " ";
    assert t == "<!--" + mid + "-->";
    assert t[4..|t| - 3] == mid;
    assert NoTerminator(mid) by {
      NoTerminatorConcat(start[4..], words, inner);
    }
  }

  lemma StartShape()
    ensures "<!--" <= HeaderStart() && NoTerminator(HeaderStart()[4..])
  {
  }

  lemma HeaderShape(t: string) returns (words: string, inner: string)
    requires IsHeader(t)
    ensures t == HeaderStart() + words + " at " + inner + " -->"
    ensures NoTerminator(words) && NoTerminator(inner)
  {
    hide HeaderStart, NoTerminator, EndsWith;
    var rest := t[|HeaderStart()|..];
    var n := WordRun(rest);
    var after := rest[n..];
    var tail := after[4..];
    assert rest[n + 4..] == tail;
    WordRunWords(rest);
    Suffixed(tail, " -->");
    words, inner := rest[..n], tail[..|tail| - 4];
    WordsUnbroken(words);
    Prefixed(after, " at ");
    Prefixed(t, HeaderStart());
    HeaderParts(t, HeaderStart(), rest, words, " at ", after, inner, " -->");
  }

  lemma HeaderParts(t: string, a: string, rest: string, b: string, c: string, after: string, d: string, e: string)
    requires t == a + rest && rest == b + after && after == c + (d + e)
    ensures t == a + b + c + d + e
  {
  }

  lemma Suffixed(t: string, suffix: string)
    requires EndsWith(t, suffix)
    ensures |suffix| <= |t| && t == t[..|t| - |suffix|] + suffix
  {
  }

  lemma Prefixed(t: string, prefix: string)
    requires prefix <= t
    ensures t == prefix + t[|prefix|..]
  {
  }

  lemma WordsUnbroken(words: string)
    requires forall i | 0 <= i < |words| :: !IsSpace(words[i])
    ensures NoTerminator(words)
  {
  }

  lemma NoTerminatorConcat(start: string, words: string, inner: string)
    requires NoTerminator(start) && NoTerminator(words) && NoTerminator(inner)
    ensures NoTerminator(start + words + " at " + inner + " ")
  {
  }

  lemma TrimmedStart(s: string)
    requires TrimEnd(s) == s
    ensures Trim(s) == TrimStart(s)
  {
    Drift.TrimStartEnd(s);
    TrimStartSuffix(s);
  }

  lemma {:induction false} TrimStartSuffix(s: string)
    requires s == "" || !IsSpace(s[|s| - 1])
    ensures TrimEnd(TrimStart(s)) == TrimStart(s)
  {
    if s != "" && IsSpace(s[0]) {
      TrimStartSuffix(s[1..]);
    }
  }

  lemma {:induction false} WordRunWords(s: string)
    ensures forall i | 0 <= i < WordRun(s) :: !IsSpace(s[i])
  {
    if s != "" && !IsSpace(s[0]) {
      WordRunWords(s[1..]);
    }
  }

  lemma PushAlike(a: seq<ParsedLine>, base: nat, l: ParsedLine, b: seq<ParsedLine>, otherBase: nat, m: ParsedLine,
                  exact: bool)
    requires base <= |a| && otherBase <= |b| && AllAlike(a[base..], b[otherBase..], exact) && Alike(l, m, exact)
    ensures AllAlike((a + [l])[base..], (b + [m])[otherBase..], exact)
  {
    hide Alike;
    assert (a + [l])[base..] == a[base..] + [l] && (b + [m])[otherBase..] == b[otherBase..] + [m];
  }

  lemma ReplaceAlike(a: seq<ParsedLine>, base: nat, l: ParsedLine, b: seq<ParsedLine>, otherBase: nat, m: ParsedLine,
                     exact: bool)
    requires base < |a| && otherBase < |b| && AllAlike(a[base..], b[otherBase..], exact) && Alike(l, m, exact)
    ensures AllAlike(a[|a| - 1 := l][base..], b[|b| - 1 := m][otherBase..], exact)
  {
    hide Alike;
    var k := |a| - 1 - base;
    assert a[|a| - 1 := l][base..] == a[base..][k := l];
    assert b[|b| - 1 := m][otherBase..] == b[otherBase..][k := m];
  }

  /** Two runs that are in the same place of what they read. */
  predicate SameMode(st: State, other: State, exact: bool) {
    && StateOk(st) && StateOk(other) && st.inFence == other.inFence && st.itemRaw == other.itemRaw
    && (exact ==> SameHeader(st, other))
  }

  lemma SameRead(env: Env, files: seq<string>, st: State, n: nat, raw: string,
                 others: seq<string>, other: State, m: nat, exact: bool)
    requires st.itemRaw == None == other.itemRaw && st.inFence == other.inFence && (exact ==> SameHeader(st, other))
    ensures var r, s := Read(env, files, st, n, TrimEnd(raw)), Read(env, others, other, m, TrimEnd(raw));
            && Alike(r.line, s.line, exact)
            && r.st.inFence == s.st.inFence && r.st.itemRaw == s.st.itemRaw
            && (exact ==> SameHeader(r.st, s.st) && (st.header == other.header ==> r.st.header == s.st.header))
  {
    hide TrimEnd, Trim, IsFence, ItemMatch, HeadingMatch, IsImport, IsHeader, IsComment, ScopeMatch,
      CitesMatch, MarkerMatch;
    if IsHeader(Trim(TrimEnd(raw))) { HeaderIsComment(raw); }
  }

  /** The one line that a step writes: the last item, continued, or a line of its own. */
  lemma SameStep(env: Env, files: seq<string>, st: State, n: nat, raw: string,
                 others: seq<string>, other: State, m: nat, otherRaw: string, exact: bool)
    requires SameMode(st, other, exact) && TrimEnd(raw) == TrimEnd(otherRaw)
    ensures var r, s := Step(env, files, st, n, raw), Step(env, others, other, m, otherRaw);
            && SameMode(r, s, exact) && (exact && st.header == other.header ==> r.header == s.header)
            && (if Continues(st, TrimEnd(raw))
                then |r.lines| == |st.lines| && |s.lines| == |other.lines|
                     && Alike(r.lines[|st.lines| - 1], s.lines[|other.lines| - 1], exact)
                     && r.lines == st.lines[|st.lines| - 1 := r.lines[|st.lines| - 1]]
                     && s.lines == other.lines[|other.lines| - 1 := s.lines[|other.lines| - 1]]
                else |r.lines| == |st.lines| + 1 && |s.lines| == |other.lines| + 1
                     && Alike(r.lines[|st.lines|], s.lines[|other.lines|], exact)
                     && r.lines == st.lines + [r.lines[|st.lines|]]
                     && s.lines == other.lines + [s.lines[|other.lines|]])
  {
    hide TrimEnd, Trim, IsFence, IsIndented, ItemMatch, CitesMatch, MarkerMatch, Read;
    if !Continues(st, TrimEnd(raw)) {
      var text := TrimEnd(raw);
      SameRead(env, files, st.(hidden := st.hidden + env.removed(text), itemRaw := None), n, raw,
               others, other.(hidden := other.hidden + env.removed(text), itemRaw := None), m, exact);
    }
  }

  lemma InStepNext(env: Env, files: seq<string>, st: State, base: nat, n: nat, raw: string,
                   others: seq<string>, other: State, otherBase: nat, m: nat, otherRaw: string, exact: bool)
    requires InStep(st, base, other, otherBase, exact) && TrimEnd(raw) == TrimEnd(otherRaw)
    ensures var r, s := Step(env, files, st, n, raw), Step(env, others, other, m, otherRaw);
            && InStep(r, base, s, otherBase, exact) && (exact && st.header == other.header ==> r.header == s.header)
  {
    hide TrimEnd, Step, Alike, AllAlike, IsIndented, IsFence, ItemMatch;
    var r, s := Step(env, files, st, n, raw), Step(env, others, other, m, otherRaw);
    SameStep(env, files, st, n, raw, others, other, m, otherRaw, exact);
    if Continues(st, TrimEnd(raw)) {
      ReplaceAlike(st.lines, base, r.lines[|st.lines| - 1], other.lines, otherBase, s.lines[|other.lines| - 1], exact);
    } else {
      PushAlike(st.lines, base, r.lines[|st.lines|], other.lines, otherBase, s.lines[|other.lines|], exact);
    }
  }

  lemma {:induction false} InStepFold(env: Env, files: seq<string>, st: State, base: nat, n: nat, raws: seq<string>,
                                      others: seq<string>, other: State, otherBase: nat, m: nat,
                                      otherRaws: seq<string>, exact: bool)
    requires InStep(st, base, other, otherBase, exact) && SameTrims(raws, otherRaws)
    ensures var r, s := Fold(env, files, st, n, raws), Fold(env, others, other, m, otherRaws);
            && InStep(r, base, s, otherBase, exact) && (exact && st.header == other.header ==> r.header == s.header)
    decreases |raws|
  {
    hide TrimEnd, Step, AllAlike;
    if raws != [] {
      InStepNext(env, files, st, base, n, raws[0], others, other, otherBase, m, otherRaws[0], exact);
      InStepFold(env, files, Step(env, files, st, n, raws[0]), base, n + 1, raws[1..],
                 others, Step(env, others, other, m, otherRaws[0]), otherBase, m + 1, otherRaws[1..], exact);
    }
  }

  /** Lines with the same words and cites, in the same order. */
  predicate SameWords(a: seq<ParsedLine>, b: seq<ParsedLine>) {
    |a| == |b| && forall i | 0 <= i < |a| :: a[i].text == b[i].text && a[i].refs == b[i].refs
  }

  lemma {:induction false} AlikeContent(a: seq<ParsedLine>, b: seq<ParsedLine>, exact: bool)
    requires AllAlike(a, b, exact)
    ensures SameWords(Content(a), Content(b))
    ensures exact ==> LayoutTexts(a) == LayoutTexts(b) && HeaderTexts(a) == HeaderTexts(b)
  {
    hide Alike, IsContent, IsLayout;
    if a != [] {
      var n := |a| - 1;
      AlikeKinds(a[n], b[n], exact);
      AlikeContent(a[..n], b[..n], exact);
    }
  }

  /** What is layout in one run is layout or the header in the other. */
  lemma {:induction false} AlikeLayout(a: seq<ParsedLine>, b: seq<ParsedLine>, exact: bool)
    requires AllAlike(a, b, exact)
    ensures multiset(LayoutTexts(a)) + multiset(HeaderTexts(a)) == multiset(LayoutTexts(b)) + multiset(HeaderTexts(b))
  {
    hide Alike, IsContent, IsLayout;
    if a != [] {
      var n := |a| - 1;
      AlikeKinds(a[n], b[n], exact);
      AlikeLayout(a[..n], b[..n], exact);
      LayoutOrHeader(a);
      LayoutOrHeader(b);
    }
  }

  lemma LayoutOrHeader(ls: seq<ParsedLine>)
    requires ls != []
    ensures var n := |ls| - 1;
            multiset(LayoutTexts(ls)) + multiset(HeaderTexts(ls)) ==
            multiset(LayoutTexts(ls[..n])) + multiset(HeaderTexts(ls[..n]))
            + if IsLayout(ls[n]) || ls[n].kind == Header then multiset{ls[n].text} else multiset{}
  {
  }

  lemma AlikeKinds(a: ParsedLine, b: ParsedLine, exact: bool)
    requires Alike(a, b, exact)
    ensures IsContent(a) == IsContent(b) && (exact ==> IsLayout(a) == IsLayout(b) && a.kind == b.kind)
    ensures IsLayout(a) || a.kind == Header <==> IsLayout(b) || b.kind == Header
    ensures !(IsLayout(a) && a.kind == Header) && !(IsLayout(b) && b.kind == Header)
    ensures a.text == b.text && a.refs == b.refs
  {
  }

  // ---------------------------------------------------------------------
  // Blank lines at the end
  // ---------------------------------------------------------------------

  predicate Blanks(raws: seq<string>) { forall r | r in raws :: TrimEnd(r) == "" }

  lemma BlankStep(env: Env, files: seq<string>, st: State, n: nat, raw: string)
    requires StateOk(st) && TrimEnd(raw) == "" && env.clean("") == ""
    ensures var r := Step(env, files, st, n, raw);
            && |r.lines| == |st.lines| + 1 && r.lines[..|st.lines|] == st.lines
            && !IsContent(r.lines[|st.lines|]) && !IsLayout(r.lines[|st.lines|]) && r.lines[|st.lines|].kind != Header
            && r.header == st.header && r.itemRaw == None
  {
    BlankText();
    hide TrimEnd, Trim, IsFence, IsIndented, ItemMatch, HeadingMatch, IsImport, IsHeader, IsComment, ScopeMatch,
      CitesMatch, MarkerMatch;
  }

  lemma BlankText()
    ensures Trim("") == "" && !IsIndented("") && !IsFence("")
  {
  }

  lemma {:induction false} BlankFold(env: Env, files: seq<string>, st: State, n: nat, raws: seq<string>)
    requires StateOk(st) && Blanks(raws) && env.clean("") == ""
    ensures var r := Fold(env, files, st, n, raws);
            && |st.lines| <= |r.lines| && r.lines[..|st.lines|] == st.lines && r.header == st.header
            && Content(r.lines[|st.lines|..]) == [] && LayoutTexts(r.lines[|st.lines|..]) == []
            && HeaderTexts(r.lines[|st.lines|..]) == []
    decreases |raws|
  {
    hide Step, TrimEnd, IsContent, IsLayout;
    if raws != [] {
      var next := Step(env, files, st, n, raws[0]);
      BlankStep(env, files, st, n, raws[0]);
      BlankFold(env, files, next, n + 1, raws[1..]);
      var r := Fold(env, files, st, n, raws);
      var k := |st.lines|;
      assert r.lines[k..] == [next.lines[k]] + r.lines[k + 1..] by {
        assert r.lines[k] == r.lines[..k + 1][k];
      }
      OneContent(next.lines[k]);
      ContentConcat([next.lines[k]], r.lines[k + 1..]);
      LayoutConcat([next.lines[k]], r.lines[k + 1..]);
      HeaderConcat([next.lines[k]], r.lines[k + 1..]);
      assert r.lines[..k] == r.lines[..k + 1][..k];
    } else {
      assert st.lines[|st.lines|..] == [];
    }
  }

  lemma OneContent(l: ParsedLine)
    ensures Content([l]) == if IsContent(l) then [l] else []
    ensures LayoutTexts([l]) == if IsLayout(l) then [l.text] else []
    ensures HeaderTexts([l]) == if l.kind == Header then [l.text] else []
  {
  }

  /** Trailing blank lines don't count. */
  function DropBlank(lines: seq<string>): (r: seq<string>)
    ensures r <= lines
    ensures r != [] ==> r[|r| - 1] != ""
    ensures forall i | |r| <= i < |lines| :: lines[i] == ""
  {
    if lines != [] && lines[|lines| - 1] == "" then DropBlank(lines[..|lines| - 1]) else lines
  }

  /** The same layout, but for a header that is read as one in one file only. */
  ghost predicate SameLayout(a: seq<ParsedLine>, b: seq<ParsedLine>, exact: bool) {
    && multiset(LayoutTexts(a)) + multiset(HeaderTexts(a)) == multiset(LayoutTexts(b)) + multiset(HeaderTexts(b))
    && (exact ==> LayoutTexts(a) == LayoutTexts(b) && HeaderTexts(a) == HeaderTexts(b))
  }

  /** Two regions that compare as equal read alike. */
  lemma SameRegion(env: Env, files: seq<string>, st: State, n: nat, raws: seq<string>,
                   others: seq<string>, other: State, m: nat, otherRaws: seq<string>, exact: bool)
    requires StateOk(st) && StateOk(other) && st.itemRaw == None == other.itemRaw && st.inFence == other.inFence
    requires exact ==> SameHeader(st, other)
    requires DropBlank(TrimEnds(raws)) == DropBlank(TrimEnds(otherRaws)) && env.clean("") == ""
    ensures var r, s := Fold(env, files, st, n, raws), Fold(env, others, other, m, otherRaws);
            && |st.lines| <= |r.lines| && |other.lines| <= |s.lines|
            && SameWords(Content(r.lines[|st.lines|..]), Content(s.lines[|other.lines|..]))
            && SameLayout(r.lines[|st.lines|..], s.lines[|other.lines|..], exact)
            && (exact && st.header == other.header ==> r.header == s.header)
  {
    hide Step, Fold, TrimEnd, DropBlank, Content, LayoutTexts, HeaderTexts, AllAlike;
    var k := |DropBlank(TrimEnds(raws))|;
    SameTrimsTo(raws, otherRaws, k);
    var b, c := |st.lines|, |other.lines|;
    assert AllAlike(st.lines[b..], other.lines[c..], exact) by { NothingAlike(st.lines, other.lines, exact); }
    InStepFold(env, files, st, b, n, raws[..k], others, other, c, m, otherRaws[..k], exact);
    var mid, otherMid := Fold(env, files, st, n, raws[..k]), Fold(env, others, other, m, otherRaws[..k]);
    AlikeContent(mid.lines[b..], otherMid.lines[c..], exact);
    AlikeLayout(mid.lines[b..], otherMid.lines[c..], exact);
    TrailingBlanks(env, files, st, b, n, raws, k);
    TrailingBlanks(env, others, other, c, m, otherRaws, k);
  }

  lemma NothingAlike(a: seq<ParsedLine>, b: seq<ParsedLine>, exact: bool)
    ensures AllAlike(a[|a|..], b[|b|..], exact)
  {
  }

  lemma SameTrimsTo(raws: seq<string>, others: seq<string>, k: nat)
    requires DropBlank(TrimEnds(raws)) == DropBlank(TrimEnds(others)) && k == |DropBlank(TrimEnds(raws))|
    ensures k <= |raws| && k <= |others| && SameTrims(raws[..k], others[..k])
    ensures Blanks(raws[k..]) && Blanks(others[k..])
    ensures forall i | k <= i < |raws| :: TrimEnd(raws[i]) == ""
  {
    hide TrimEnd;
    var a, b := TrimEnds(raws), TrimEnds(others);
    forall i | 0 <= i < k
      ensures TrimEnd(raws[i]) == TrimEnd(others[i])
    {
      assert a[i] == DropBlank(a)[i] && b[i] == DropBlank(b)[i];
    }
    assert forall i | k <= i < |raws| :: TrimEnd(raws[i]) == a[i];
    assert forall i | k <= i < |others| :: TrimEnd(others[i]) == b[i];
  }

  lemma TrailingBlanks(env: Env, files: seq<string>, st: State, base: nat, n: nat, raws: seq<string>, k: nat)
    requires StateOk(st) && k <= |raws| && Blanks(raws[k..]) && env.clean("") == ""
    requires base <= |Fold(env, files, st, n, raws[..k]).lines|
    ensures var mid, r := Fold(env, files, st, n, raws[..k]), Fold(env, files, st, n, raws);
            && base <= |r.lines| && r.header == mid.header
            && Content(r.lines[base..]) == Content(mid.lines[base..])
            && LayoutTexts(r.lines[base..]) == LayoutTexts(mid.lines[base..])
            && HeaderTexts(r.lines[base..]) == HeaderTexts(mid.lines[base..])
  {
    hide Step, Fold, TrimEnd, Content, LayoutTexts, HeaderTexts, Blanks;
    var mid, r := Fold(env, files, st, n, raws[..k]), Fold(env, files, st, n, raws);
    assert raws == raws[..k] + raws[k..];
    FoldConcat(env, files, st, n, raws[..k], raws[k..]);
    BlankFold(env, files, mid, n + k, raws[k..]);
    var p := |mid.lines|;
    assert r.lines[base..] == mid.lines[base..] + r.lines[p..] by {
      assert r.lines == r.lines[..p] + r.lines[p..];
    }
    ContentConcat(mid.lines[base..], r.lines[p..]);
    LayoutConcat(mid.lines[base..], r.lines[p..]);
    HeaderConcat(mid.lines[base..], r.lines[p..]);
  }

  /** What was read before `base` stays as it is. */
  lemma {:induction false} Keeps(env: Env, files: seq<string>, st: State, base: nat, n: nat, raws: seq<string>)
    requires StateOk(st) && Since(st, base)
    ensures var r := Fold(env, files, st, n, raws); base <= |r.lines| && r.lines[..base] == st.lines[..base]
    decreases |raws|
  {
    hide Step;
    if raws != [] {
      StepKeeps(env, files, st, base, n, raws[0]);
      Keeps(env, files, Step(env, files, st, n, raws[0]), base, n + 1, raws[1..]);
    }
  }

  lemma StepKeeps(env: Env, files: seq<string>, st: State, base: nat, n: nat, raw: string)
    requires StateOk(st) && Since(st, base)
    ensures var r := Step(env, files, st, n, raw); Since(r, base) && r.lines[..base] == st.lines[..base]
  {
    hide TrimEnd, Trim, IsFence, IsIndented, ItemMatch, CitesMatch, MarkerMatch, Read;
  }

  /** Once a header was read, no other is. */
  predicate NoHeaderSince(st: State, base: nat) {
    st.header.Some? && Since(st, base) && forall i | base <= i < |st.lines| :: st.lines[i].kind != Header
  }

  lemma HeaderStep(env: Env, files: seq<string>, st: State, base: nat, n: nat, raw: string)
    requires StateOk(st) && NoHeaderSince(st, base)
    ensures NoHeaderSince(Step(env, files, st, n, raw), base)
  {
    hide TrimEnd, Trim, IsFence, IsIndented, ItemMatch, CitesMatch, MarkerMatch, Read;
    var text := TrimEnd(raw);
    HeaderRead(env, files, st.(hidden := st.hidden + env.removed(text), itemRaw := None), n, text);
  }

  lemma HeaderRead(env: Env, files: seq<string>, st: State, n: nat, text: string)
    requires st.itemRaw == None && st.header.Some?
    ensures var r := Read(env, files, st, n, text); r.line.kind != Header && r.st.header == st.header
  {
    hide Trim, IsFence, ItemMatch, HeadingMatch, IsImport, IsHeader, IsComment, ScopeMatch, CitesMatch, MarkerMatch;
  }

  lemma {:induction false} HeaderOnce(env: Env, files: seq<string>, st: State, base: nat, n: nat, raws: seq<string>)
    requires StateOk(st) && NoHeaderSince(st, base)
    ensures var r := Fold(env, files, st, n, raws); NoHeaderSince(r, base) && HeaderTexts(r.lines[base..]) == []
    decreases |raws|
  {
    hide Step, HeaderTexts;
    if raws != [] {
      HeaderStep(env, files, st, base, n, raws[0]);
      HeaderOnce(env, files, Step(env, files, st, n, raws[0]), base, n + 1, raws[1..]);
    } else {
      HeaderHeld(st.lines[base..]);
    }
  }

  // ---------------------------------------------------------------------
  // Where the markers cut a file
  // ---------------------------------------------------------------------

  /** The lines read from `base` on have numbers from `lo` on, below `n`. */
  predicate Numbered(st: State, base: nat, lo: nat, n: nat) {
    Since(st, base) && forall i | base <= i < |st.lines| :: lo <= st.lines[i].line < n
  }

  lemma NumberedStep(env: Env, files: seq<string>, st: State, base: nat, lo: nat, n: nat, raw: string)
    requires StateOk(st) && Numbered(st, base, lo, n) && lo <= n
    ensures var r := Step(env, files, st, n, raw);
            Numbered(r, base, lo, n + 1) && r.lines[..base] == st.lines[..base]
  {
    hide TrimEnd, Trim, IsFence, IsIndented, ItemMatch, CitesMatch, MarkerMatch, Read;
    var text := TrimEnd(raw);
    ReadNumber(env, files, st.(hidden := st.hidden + env.removed(text), itemRaw := None), n, text);
  }

  lemma ReadNumber(env: Env, files: seq<string>, st: State, n: nat, text: string)
    requires st.itemRaw == None
    ensures Read(env, files, st, n, text).line.line == n
  {
    hide Trim, IsFence, ItemMatch, HeadingMatch, IsImport, IsHeader, IsComment, ScopeMatch, CitesMatch, MarkerMatch;
  }

  lemma {:induction false} NumberedFold(env: Env, files: seq<string>, st: State, base: nat, lo: nat, n: nat,
                                        raws: seq<string>)
    requires StateOk(st) && Numbered(st, base, lo, n) && lo <= n
    ensures var r := Fold(env, files, st, n, raws);
            Numbered(r, base, lo, n + |raws|) && r.lines[..base] == st.lines[..base]
    decreases |raws|
  {
    hide Step;
    if raws != [] {
      NumberedStep(env, files, st, base, lo, n, raws[0]);
      NumberedFold(env, files, Step(env, files, st, n, raws[0]), base, lo, n + 1, raws[1..]);
    }
  }

  /** Line `n` was a marker: it closed any open item, and no fence was open. */
  predicate JustMarked(st: State, before: State, n: nat) {
    && st.itemRaw == None && !st.inFence
    && |st.lines| == |before.lines| + 1 && st.lines[..|before.lines|] == before.lines
    && st.lines[|before.lines|].line == n && !IsContent(st.lines[|before.lines|])
  }

  lemma MarkStep(env: Env, files: seq<string>, st: State, n: nat, raw: string)
    requires StateOk(st)
    ensures var r := Step(env, files, st, n, raw);
            || (r.starts == st.starts && r.ends == st.ends)
            || (JustMarked(r, st, n) && r.starts == st.starts + [n] && r.ends == st.ends)
            || (JustMarked(r, st, n) && r.starts == st.starts && r.ends == st.ends + [n])
  {
    hide TrimEnd, Trim, IsFence, IsIndented, ItemMatch, HeadingMatch, IsImport, IsHeader, IsComment, ScopeMatch,
      CitesMatch, MarkerMatch;
  }

  predicate HasMark(st: State, n: nat) { n in st.starts || n in st.ends }

  /** The line that a marker was found on, and the run up to it. */
  lemma {:induction false} FindMark(env: Env, files: seq<string>, st: State, n: nat, raws: seq<string>, k: nat)
    requires StateOk(st) && HasMark(Fold(env, files, st, n, raws), k) && !HasMark(st, k)
    ensures n <= k < n + |raws|
    ensures var a := Fold(env, files, st, n, raws[..k - n]);
            JustMarked(Step(env, files, a, k, raws[k - n]), a, k)
    decreases |raws|
  {
    hide Step, JustMarked;
    var next := Step(env, files, st, n, raws[0]);
    MarkStep(env, files, st, n, raws[0]);
    if HasMark(next, k) {
      assert raws[..0] == [];
    } else {
      FindMark(env, files, next, n + 1, raws[1..], k);
      var head := raws[..k - n];
      assert head[0] == raws[0] && head[1..] == raws[1..][..k - n - 1];
    }
  }

  function Within(ls: seq<ParsedLine>, range: Range): seq<ParsedLine> {
    if ls == [] then [] else
    var n := |ls| - 1;
    if range.start <= ls[n].line <= range.end then Within(ls[..n], range) + [ls[n]] else Within(ls[..n], range)
  }

  /** The lines inside the range are one stretch. */
  ghost predicate IsStretch(ls: seq<ParsedLine>, range: Range, lo: nat, hi: nat) {
    && lo <= hi <= |ls|
    && forall i | 0 <= i < |ls| :: lo <= i < hi <==> range.start <= ls[i].line <= range.end
  }

  lemma {:induction false} WithinStretch(ls: seq<ParsedLine>, range: Range, lo: nat, hi: nat)
    requires IsStretch(ls, range, lo, hi)
    ensures Within(ls, range) == ls[lo..hi]
  {
    if ls != [] {
      var n := |ls| - 1;
      if hi == |ls| && lo < hi {
        WithinStretch(ls[..n], range, lo, n);
        assert ls[lo..hi] == ls[..n][lo..n] + [ls[n]];
      } else if hi == |ls| {
        WithinStretch(ls[..n], range, n, n);
      } else {
        WithinStretch(ls[..n], range, lo, hi);
        assert ls[lo..hi] == ls[..n][lo..hi];
      }
    }
  }

  /** The run at the block's start, and where its lines end. */
  datatype Cut = Cut(open: State, from: nat, to: nat)

  /** The block was read from a fresh state, and its lines are one stretch of the file's. */
  ghost predicate IsCut(env: Env, raws: seq<string>, cut: Cut) {
    var st := FinalState(env, raws);
    var range := ManagedRange(st.starts, st.ends);
    && range.Some? && StateOk(cut.open) && cut.open.itemRaw == None && !cut.open.inFence
    && 2 <= range.value.start <= range.value.end + 1 <= |raws|
    && cut.from == |cut.open.lines| <= cut.to < |st.lines|
    && (var r := Fold(env, FilePaths(env, raws), cut.open, range.value.start,
                      raws[range.value.start - 1..range.value.end]);
        |r.lines| == cut.to && st.lines[cut.from..cut.to] == r.lines[cut.from..])
    && IsStretch(st.lines, range.value, cut.from, cut.to) && Within(st.lines, range.value) == st.lines[cut.from..cut.to]
  }

  lemma CutFile(env: Env, raws: seq<string>) returns (cut: Cut)
    requires ManagedRange(FinalState(env, raws).starts, FinalState(env, raws).ends).Some?
    ensures IsCut(env, raws, cut)
  {
    hide Step, Fold, TrimEnd, Within, FrontmatterClose, FilePaths, JustMarked;
    var files, bs, st := FilePaths(env, raws), BodyStart(raws), FinalState(env, raws);
    var body, init, n := raws[bs..], InitialState(env, raws), bs + 1;
    var s, e := st.starts[0], st.ends[0];
    FindMark(env, files, init, n, body, s);
    FindMark(env, files, init, n, body, e);
    var a, b := Fold(env, files, init, n, body[..s - n]), Fold(env, files, init, n, body[..e - n]);
    var open, done := Step(env, files, a, s, body[s - n]), Step(env, files, b, e, body[e - n]);
    Between(env, files, init, n, body, s, e);
    assert body[s - n + 1..e - n] == raws[s..e - 1];
    var rest := body[e - n + 1..];
    FoldAfter(env, files, init, n, body, e);
    InitNumbered(env, raws);
    NumberedFold(env, files, init, 0, 0, n, body[..s - n]);
    Stretch(env, files, a, open, raws[s..e - 1], b, done, rest, st, s, e);
    WithinStretch(st.lines, Range(s + 1, e - 1), |open.lines|, |b.lines|);
    cut := Cut(open, |open.lines|, |b.lines|);
    OpenState(open, a, s);
    assert st.lines[cut.from..cut.to] == st.lines[..cut.to][cut.from..];
  }

  lemma InitNumbered(env: Env, raws: seq<string>)
    ensures Numbered(InitialState(env, raws), 0, 0, BodyStart(raws) + 1)
    ensures InitialState(env, raws).starts == [] == InitialState(env, raws).ends
  {
  }

  /** Line numbers tell the lines before, inside and after a block apart. */
  lemma Stretch(env: Env, files: seq<string>, a: State, open: State, mid: seq<string>, b: State, done: State,
                rest: seq<string>, st: State, s: nat, e: nat)
    requires StateOk(a) && StateOk(open) && StateOk(done) && s < e && Numbered(a, 0, 0, s)
    requires JustMarked(open, a, s) && b == Fold(env, files, open, s + 1, mid) && s + 1 + |mid| == e
    requires JustMarked(done, b, e) && st == Fold(env, files, done, e + 1, rest)
    ensures |open.lines| <= |b.lines| < |done.lines| <= |st.lines| && st.lines[..|b.lines|] == b.lines
    ensures IsStretch(st.lines, Range(s + 1, e - 1), |open.lines|, |b.lines|)
  {
    hide Step, Fold, Within;
    NumberedFold(env, files, open, |open.lines|, s + 1, s + 1, mid);
    NumberedFold(env, files, done, |done.lines|, e + 1, e + 1, rest);
    assert b.lines[..|open.lines|] == open.lines;
    assert forall i | 0 <= i < |a.lines| :: open.lines[i] == open.lines[..|a.lines|][i];
    assert forall i | 0 <= i < |open.lines| :: b.lines[i] == b.lines[..|open.lines|][i];
    assert forall i | 0 <= i < |b.lines| :: done.lines[i] == done.lines[..|b.lines|][i];
    assert forall i | 0 <= i < |done.lines| :: st.lines[i] == st.lines[..|done.lines|][i];
  }

  lemma OpenState(open: State, a: State, s: nat)
    requires JustMarked(open, a, s)
    ensures open.itemRaw == None && !open.inFence
  {
  }

  /** The run up to the end marker goes on from the start marker. */
  lemma Between(env: Env, files: seq<string>, st: State, n: nat, body: seq<string>, s: nat, e: nat)
    requires StateOk(st) && n <= s < e < n + |body|
    ensures var a := Fold(env, files, st, n, body[..s - n]);
            Fold(env, files, st, n, body[..e - n]) ==
            Fold(env, files, Step(env, files, a, s, body[s - n]), s + 1, body[s - n + 1..e - n])
  {
    hide Step, Fold;
    var head, mid := body[..s - n], body[s - n..e - n];
    assert body[..e - n] == head + mid;
    FoldConcat(env, files, st, n, head, mid);
    FoldStep(env, files, Fold(env, files, st, n, head), s, mid, body[s - n + 1..e - n]);
  }

  lemma FoldAfter(env: Env, files: seq<string>, st: State, n: nat, body: seq<string>, e: nat)
    requires StateOk(st) && n <= e < n + |body|
    ensures var b := Fold(env, files, st, n, body[..e - n]);
            Fold(env, files, st, n, body) ==
            Fold(env, files, Step(env, files, b, e, body[e - n]), e + 1, body[e - n + 1..])
  {
    hide Step, Fold;
    var head, mid := body[..e - n], body[e - n..];
    assert body == head + mid;
    FoldConcat(env, files, st, n, head, mid);
    FoldStep(env, files, Fold(env, files, st, n, head), e, mid, body[e - n + 1..]);
  }
}
