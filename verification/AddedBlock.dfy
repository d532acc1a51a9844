/** A managed block put around the last file: what `parseBack` of packages/compiler/src/parse.ts then reports. */
module AddedBlock {
  import opened Text
  import opened Patterns
  import opened Parse
  import opened Diff
  import opened DiffLaws
  import opened Rereading
  import opened ParseBack
  import Matching
  import ManagedBlock

  // ---------------------------------------------------------------------
  // Frontmatter, read as the lines of a block
  // ---------------------------------------------------------------------

  function Fences(raws: seq<string>): nat {
    if raws == [] then 0 else Fences(raws[1..]) + if IsFence(TrimEnd(raws[0])) then 1 else 0
  }

  lemma {:induction false} FenceParity(env: Env, files: seq<string>, st: State, n: nat, raws: seq<string>)
    requires StateOk(st)
    ensures Fold(env, files, st, n, raws).inFence == (st.inFence != (Fences(raws) % 2 == 1))
    decreases |raws|
  {
    hide Step, IsFence, TrimEnd;
    if raws != [] {
      FenceStep(env, files, st, n, raws[0]);
      FenceParity(env, files, Step(env, files, st, n, raws[0]), n + 1, raws[1..]);
    }
  }

  lemma FenceStep(env: Env, files: seq<string>, st: State, n: nat, raw: string)
    requires StateOk(st)
    ensures Step(env, files, st, n, raw).inFence == (st.inFence != IsFence(TrimEnd(raw)))
  {
    hide TrimEnd, Trim, IsFence, IsIndented, ItemMatch, HeadingMatch, IsImport, IsHeader, IsComment, ScopeMatch,
      CitesMatch, MarkerMatch;
  }

  /** A rule is a line of words, in a fence or not. */
  lemma RuleStep(env: Env, files: seq<string>, st: State, n: nat, raw: string)
    requires StateOk(st) && IsRule(raw)
    ensures var r := Step(env, files, st, n, raw);
            && r.itemRaw == None && |r.lines| == |st.lines| + 1 && r.lines[..|st.lines|] == st.lines
            && r.lines[|st.lines|].line == n && (env.clean("---") == "---" ==> IsContent(r.lines[|st.lines|]))
  {
    var text := "---";
    assert TrimEnd(raw) == text && Trim(text) == text && !IsIndented(text) && !IsFence(text);
    assert HeadingMatch(text) == None && ItemMatch(text) == None && CitesMatch(text) == None && !IsImport(text);
    assert text != ManagedBlock.START && text != ManagedBlock.END;
    hide TrimEnd, Trim, IsFence, IsIndented, ItemMatch, HeadingMatch, IsImport, IsHeader, IsComment, ScopeMatch,
      CitesMatch, MarkerMatch;
  }

  /** What a block makes of frontmatter whose fences are closed: lines like any other, and then a fresh start. */
  lemma FrontRead(env: Env, files: seq<string>, st: State, n: nat, front: seq<string>)
    requires StateOk(st) && st.itemRaw == None && !st.inFence && Fences(front) % 2 == 0
    requires front != [] ==> IsRule(front[|front| - 1])
    ensures var r := Fold(env, files, st, n, front);
            && r.itemRaw == None && !r.inFence && Numbered(r, |st.lines|, n, n + |front|)
            && r.lines[..|st.lines|] == st.lines
  {
    hide Step, Fold, IsRule, Fences;
    FenceParity(env, files, st, n, front);
    NumberedFold(env, files, st, |st.lines|, n, n, front);
    if front == [] {
      FoldEnd(env, files, st, n);
    } else {
      var k := |front| - 1;
      assert front == front[..k] + [front[k]];
      FoldConcat(env, files, st, n, front[..k], [front[k]]);
      var before := Fold(env, files, st, n, front[..k]);
      FoldStep(env, files, before, n + k, [front[k]], []);
      FoldEnd(env, files, Step(env, files, before, n + k, front[k]), n + k + 1);
      RuleStep(env, files, before, n + k, front[k]);
    }
  }

  // ---------------------------------------------------------------------
  // Where the last file's body is in the current file
  // ---------------------------------------------------------------------

  /** The last file had no block, the current one does, and the block holds the last file. Fences in the last file's
      frontmatter are closed. */
  ghost predicate BlockAround(env: Env, last: string, current: string) {
    && !Changed(env, last, current)
    && FileOf(env, last).managed.None? && FileOf(env, current).managed.Some?
    && Fences(FrontOf(last)) % 2 == 0
  }

  /** The lines of a file's frontmatter, its rules included. */
  function FrontOf(content: string): seq<string> { SplitLines(content)[..BodyStart(SplitLines(content))] }

  /** The current file's lines that hold the last file's body: the block without the frontmatter. */
  function BodyRange(env: Env, last: string, current: string): Range
    requires FileOf(env, current).managed.Some?
  {
    var block := FileOf(env, current).managed.value;
    Range(block.start + |FrontOf(last)|, block.end)
  }

  /** A block whose lines compare as all of another file. */
  ghost predicate BlockHolds(env: Env, raws: seq<string>, others: seq<string>) {
    && Fences(raws[..BodyStart(raws)]) % 2 == 0
    && (match Parsed(env, others).managed
        case Some(block) =>
          && 1 <= block.start <= block.end + 1 <= |others| + 1
          && DropBlank(TrimEnds(raws)) == DropBlank(TrimEnds(others[block.start - 1..block.end]))
        case None => false)
  }

  lemma AroundHolds(env: Env, last: string, current: string)
    requires BlockAround(env, last, current)
    ensures BlockHolds(env, SplitLines(last), SplitLines(current))
  {
    hide SplitLines, DropBlank, TrimEnds, FinalState, Changed, Fences, FrontmatterClose, Region;
    UnchangedRegions(env, last, current);
    BlockInLines(env, SplitLines(current));
    RegionTexts(SplitLines(current), FileOf(env, current).managed.value);
    WholeRegion(SplitLines(last));
  }

  /** The run at the start of the body, the body's lines of text, and where its lines end. */
  datatype BodyCut = BodyCut(mid: State, raws: seq<string>, to: nat)

  ghost predicate IsBodyCut(env: Env, raws: seq<string>, others: seq<string>, range: Range, cut: BodyCut) {
    && StateOk(cut.mid) && cut.mid.itemRaw == None && !cut.mid.inFence
    && DropBlank(TrimEnds(raws[BodyStart(raws)..])) == DropBlank(TrimEnds(cut.raws))
    && IsStretch(FinalState(env, others).lines, range, |cut.mid.lines|, cut.to)
    && ReadsTo(Fold(env, FilePaths(env, others), cut.mid, range.start, cut.raws), FinalState(env, others), cut)
  }

  predicate ReadsTo(r: State, st: State, cut: BodyCut) {
    |cut.mid.lines| <= |r.lines| == cut.to <= |st.lines|
    && st.lines[|cut.mid.lines|..cut.to] == r.lines[|cut.mid.lines|..]
  }

  /** The frontmatter, as long as the block's lines before the body. */
  lemma FrontInBlock(raws: seq<string>, region: seq<string>)
    requires DropBlank(TrimEnds(raws)) == DropBlank(TrimEnds(region))
    ensures var bs := BodyStart(raws);
            && bs <= |region| && Fences(region[..bs]) == Fences(raws[..bs])
            && (bs > 0 ==> IsRule(region[0]) && IsRule(region[bs - 1]))
            && DropBlank(TrimEnds(raws[bs..])) == DropBlank(TrimEnds(region[bs..]))
  {
    hide TrimEnd, DropBlank, RuleFrom, Fences;
    SameFrontmatter(raws, region);
    var bs := BodyStart(raws);
    if bs > 0 {
      SameRule(raws, region, 1);
    }
    SameTrimsTo(raws, region, |DropBlank(TrimEnds(raws))|);
    forall i | 0 <= i < bs
      ensures TrimEnd(raws[i]) == TrimEnd(region[i])
    {
      var k := |DropBlank(TrimEnds(raws))|;
      assert TrimEnd(raws[..k][i]) == TrimEnd(region[..k][i]);
    }
    SameFences(raws[..bs], region[..bs]);
  }

  lemma {:induction false} SameFences(a: seq<string>, b: seq<string>)
    requires SameTrims(a, b)
    ensures Fences(a) == Fences(b)
  {
    hide IsFence, TrimEnd;
    if a != [] { SameFences(a[1..], b[1..]); }
  }

  /** Reading a region is reading its frontmatter, and then its body from a fresh start. */
  lemma ReadRegion(env: Env, files: seq<string>, open: State, n: nat, region: seq<string>, bs: nat) returns (mid: State)
    requires StateOk(open) && open.itemRaw == None && !open.inFence && bs <= |region|
    requires Fences(region[..bs]) % 2 == 0 && (bs > 0 ==> IsRule(region[bs - 1]))
    ensures StateOk(mid) && mid.itemRaw == None && !mid.inFence && |open.lines| <= |mid.lines|
    ensures var r := Fold(env, files, open, n, region);
            && r == Fold(env, files, mid, n + bs, region[bs..]) && |mid.lines| <= |r.lines|
            && (forall i | |open.lines| <= i < |mid.lines| :: r.lines[i].line < n + bs)
            && (forall i | |mid.lines| <= i < |r.lines| :: n + bs <= r.lines[i].line)
  {
    hide Step, Fold, IsRule, Fences;
    var front, body := region[..bs], region[bs..];
    FrontRead(env, files, open, n, front);
    mid := Fold(env, files, open, n, front);
    assert region == front + body;
    FoldConcat(env, files, open, n, front, body);
    NumberedFold(env, files, mid, |mid.lines|, n + bs, n + bs, body);
    FrontNumbers(mid, Fold(env, files, open, n, region), |open.lines|, n + bs);
  }

  /** The body in a file that was cut at its block. */
  lemma CutBody(env: Env, raws: seq<string>, others: seq<string>) returns (cut: BodyCut)
    requires BlockHolds(env, raws, others)
    ensures var block := Parsed(env, others).managed.value;
            IsBodyCut(env, raws, others, Range(block.start + BodyStart(raws), block.end), cut)
  {
    hide Step, Fold, DropBlank, TrimEnds, FilePaths, FinalState, Within, IsRule, Fences, FrontmatterClose, IsStretch;
    var outer := CutFile(env, others);
    var block, files := Parsed(env, others).managed.value, FilePaths(env, others);
    var region, bs := others[block.start - 1..block.end], BodyStart(raws);
    FrontInBlock(raws, region);
    var mid := ReadRegion(env, files, outer.open, block.start, region, bs);
    var r := Fold(env, files, outer.open, block.start, region);
    StretchTail(FinalState(env, others).lines, r.lines, outer.from, |mid.lines|, outer.to, block, bs);
    cut := BodyCut(mid, region[bs..], outer.to);
  }

  lemma FrontNumbers(mid: State, r: State, from: nat, n: nat)
    requires |mid.lines| <= |r.lines| && r.lines[..|mid.lines|] == mid.lines
    requires forall i | from <= i < |mid.lines| :: mid.lines[i].line < n
    ensures forall i | from <= i < |mid.lines| :: r.lines[i].line < n
  {
    assert forall i | 0 <= i < |mid.lines| :: r.lines[i] == r.lines[..|mid.lines|][i];
  }

  lemma WholeRegion(raws: seq<string>)
    ensures Region(TrimEnds(raws), None) == TrimEnds(raws)
  {
  }

  /** The rule that opens the frontmatter is content of the block. */
  lemma RuleIsContent(env: Env, raws: seq<string>, others: seq<string>) returns (i: nat)
    requires BlockHolds(env, raws, others) && FrontmatterOf(raws).Some? && env.clean("---") == "---"
    ensures var lines := FinalState(env, others).lines;
            i < |lines| && IsContent(lines[i]) && lines[i].line == Parsed(env, others).managed.value.start
  {
    hide Step, Fold, DropBlank, TrimEnds, FilePaths, FinalState, Within, Fences, IsStretch, IsRule, IsContent, RuleFrom;
    var outer := CutFile(env, others);
    var block := Parsed(env, others).managed.value;
    var region := others[block.start - 1..block.end];
    FrontInBlock(raws, region);
    FirstRule(env, FilePaths(env, others), outer.open, block.start, region);
    i := outer.from;
    assert FinalState(env, others).lines[outer.from..outer.to][0] == FinalState(env, others).lines[outer.from];
  }

  /** The first line of a block, where it is a rule. */
  lemma FirstRule(env: Env, files: seq<string>, st: State, n: nat, raws: seq<string>)
    requires StateOk(st) && raws != [] && IsRule(raws[0]) && env.clean("---") == "---"
    ensures var r := Fold(env, files, st, n, raws);
            |st.lines| < |r.lines| && IsContent(r.lines[|st.lines|]) && r.lines[|st.lines|].line == n
  {
    hide Step, Fold, IsRule, IsContent;
    var next := Step(env, files, st, n, raws[0]);
    RuleStep(env, files, st, n, raws[0]);
    FoldStep(env, files, st, n, raws, raws[1..]);
    Keeps(env, files, next, |next.lines|, n + 1, raws[1..]);
    var r := Fold(env, files, st, n, raws);
    assert r.lines[|st.lines|] == r.lines[..|next.lines|][|st.lines|];
  }

  /** The end of a stretch, from line number `block.start + bs` on. */
  lemma StretchTail(ls: seq<ParsedLine>, r: seq<ParsedLine>, from: nat, mid: nat, to: nat, block: Range, bs: nat)
    requires IsStretch(ls, block, from, to) && from <= mid <= to == |r| && ls[from..to] == r[from..]
    requires forall i | from <= i < mid :: r[i].line < block.start + bs
    requires forall i | mid <= i < to :: block.start + bs <= r[i].line
    ensures IsStretch(ls, Range(block.start + bs, block.end), mid, to) && ls[mid..to] == r[mid..]
  {
    assert forall i | from <= i < to :: ls[i] == ls[from..to][i - from] == r[from..][i - from] == r[i];
  }

  // ---------------------------------------------------------------------
  // What is proposed
  // ---------------------------------------------------------------------

  lemma {:induction false} TextsLength(ls: seq<ParsedLine>, n: nat)
    requires n <= |ls|
    ensures |DiffLaws.Texts(ls, n)| == n
  {
    if n > 0 { TextsLength(ls, n - 1); }
  }

  lemma {:induction false} WithinOnly(ls: seq<ParsedLine>, range: Range)
    ensures Within(ls, range) == ls <==> forall i | 0 <= i < |ls| :: range.start <= ls[i].line <= range.end
  {
    if ls != [] {
      var n := |ls| - 1;
      var rest := Within(ls[..n], range);
      WithinOnly(ls[..n], range);
      WithinShorter(ls[..n], range);
      if range.start <= ls[n].line <= range.end {
        assert rest + [ls[n]] == ls <==> rest == ls[..n] by { assert ls == ls[..n] + [ls[n]]; }
      }
    }
  }

  lemma {:induction false} WithinShorter(ls: seq<ParsedLine>, range: Range)
    ensures |Within(ls, range)| <= |ls|
  {
    if ls != [] { WithinShorter(ls[..|ls| - 1], range); }
  }

  lemma {:induction false} WithinContent(ls: seq<ParsedLine>, range: Range)
    ensures Content(Within(ls, range)) == Within(Content(ls), range)
  {
    if ls != [] {
      var n := |ls| - 1;
      WithinContent(ls[..n], range);
    }
  }

  /** `changed` compares the file that was with the block that is, but the proposals compare the two files: an
      unchanged file is silent exactly when all the content of the current one is in the block, after what was
      the last file's frontmatter. */
  lemma SilentExactly(env: Env, last: string, current: string)
    requires env.clean("") == "" && BlockAround(env, last, current)
    ensures var was, now := Content(FileOf(env, last).lines), Content(FileOf(env, current).lines);
            var body := BodyRange(env, last, current);
            Proposals(was, now) == [] && !LayoutLeft(was, now) <==>
            forall i | 0 <= i < |now| :: body.start <= now[i].line <= body.end
  {
    hide Fold, SplitLines, Content, Proposals, LayoutLeft, Within, BlockAround;
    BodyWords(env, last, current);
    var was, now := Content(FileOf(env, last).lines), Content(FileOf(env, current).lines);
    WithinOnly(now, BodyRange(env, last, current));
    SameSize(was, now, BodyRange(env, last, current));
  }

  /** The body holds the last file's content, and its layout but for a header. */
  lemma BodyWords(env: Env, last: string, current: string)
    requires env.clean("") == "" && BlockAround(env, last, current)
    ensures FileOf(env, current).managed.Some?
    ensures var was, now := Content(FileOf(env, last).lines), Content(FileOf(env, current).lines);
            SameWords(was, Within(now, BodyRange(env, last, current)))
  {
    hide Fold, SplitLines, Content, LayoutTexts, HeaderTexts, DropBlank, TrimEnds, FilePaths, FinalState, Changed,
      Within, IsStretch, FrontmatterClose;
    var raws, others := SplitLines(last), SplitLines(current);
    AroundHolds(env, last, current);
    var cut := CutBody(env, raws, others);
    var init, bs, range := InitialState(env, raws), BodyStart(raws), BodyRange(env, last, current);
    SameRegion(env, FilePaths(env, raws), init, bs + 1, raws[bs..],
               FilePaths(env, others), cut.mid, range.start, cut.raws, false);
    BodyLines(env, raws);
    FromTheBody(env, raws);
    WithinStretch(FinalState(env, others).lines, range, |cut.mid.lines|, cut.to);
    WithinContent(FinalState(env, others).lines, range);
  }

  lemma FromTheBody(env: Env, raws: seq<string>)
    ensures var init := InitialState(env, raws);
            && StateOk(init) && init.itemRaw == None && !init.inFence && init.header == None
            && FinalState(env, raws) ==
               Fold(env, FilePaths(env, raws), init, BodyStart(raws) + 1, raws[BodyStart(raws)..])
  {
    hide Fold, FrontmatterClose;
  }

  /** With frontmatter it is never silent: the rules are content of the block. */
  lemma FrontmatterIsProposed(env: Env, last: string, current: string)
    requires env.clean("") == "" && env.clean("---") == "---" && BlockAround(env, last, current)
    requires FileOf(env, last).frontmatter.Some?
    ensures var was, now := Content(FileOf(env, last).lines), Content(FileOf(env, current).lines);
            !(Proposals(was, now) == [] && !LayoutLeft(was, now))
  {
    hide Fold, SplitLines, Content, Proposals, LayoutLeft, FinalState, IsContent, BlockAround, RuleFrom, TrimEnds;
    SilentExactly(env, last, current);
    AroundHolds(env, last, current);
    var i := RuleIsContent(env, SplitLines(last), SplitLines(current));
    ContentHolds(FileOf(env, current).lines, i);
  }

  lemma {:induction false} ContentHolds(ls: seq<ParsedLine>, i: nat)
    requires i < |ls| && IsContent(ls[i])
    ensures exists k :: 0 <= k < |Content(ls)| && Content(ls)[k] == ls[i]
  {
    var n := |ls| - 1;
    if i < n {
      ContentHolds(ls[..n], i);
      var k :| 0 <= k < |Content(ls[..n])| && Content(ls[..n])[k] == ls[i];
      assert Content(ls)[k] == ls[i];
    } else {
      assert Content(ls)[|Content(ls)| - 1] == ls[i];
    }
  }

  // ---------------------------------------------------------------------
  // What becomes of the layout
  // ---------------------------------------------------------------------

  predicate LayoutInside(ls: seq<ParsedLine>, range: Range) {
    forall i | 0 <= i < |ls| && IsLayout(ls[i]) :: range.start <= ls[i].line <= range.end
  }

  lemma {:induction false} NoLayoutIn(ls: seq<ParsedLine>)
    ensures LayoutTexts(ls) == [] <==> forall i | 0 <= i < |ls| :: !IsLayout(ls[i])
  {
    if ls != [] { NoLayoutIn(ls[..|ls| - 1]); }
  }

  /** The layout lines of a file are those of a stretch exactly if there are none outside it. */
  lemma LayoutOutside(ls: seq<ParsedLine>, range: Range, lo: nat, hi: nat)
    requires IsStretch(ls, range, lo, hi)
    ensures lo <= hi <= |ls|
    ensures LayoutTexts(ls) == LayoutTexts(ls[..lo]) + LayoutTexts(ls[lo..hi]) + LayoutTexts(ls[hi..])
    ensures LayoutInside(ls, range) <==> LayoutTexts(ls[..lo]) == [] && LayoutTexts(ls[hi..]) == []
  {
    hide LayoutTexts, IsLayout;
    assert ls == ls[..lo] + ls[lo..hi] + ls[hi..];
    LayoutConcat(ls[..lo] + ls[lo..hi], ls[hi..]);
    LayoutConcat(ls[..lo], ls[lo..hi]);
    NoLayoutIn(ls[..lo]);
    NoLayoutIn(ls[hi..]);
    assert forall i | hi <= i < |ls| :: ls[hi..][i - hi] == ls[i];
  }

  /** The layout flag: it stays down exactly if the current file has no layout outside the last file's body, and the
      last file's header, if it has one, is read as a header there. */
  lemma LayoutExactly(env: Env, last: string, current: string)
    requires env.clean("") == "" && BlockAround(env, last, current)
    ensures var before, after, body := FileOf(env, last), FileOf(env, current), BodyRange(env, last, current);
            && !LayoutLeft(Content(before.lines), Content(after.lines))
            && (multiset(LayoutTexts(before.lines)) == multiset(LayoutTexts(after.lines)) <==>
                LayoutInside(after.lines, body)
                && (HoldsHeader(before.lines) ==> HoldsHeader(Within(after.lines, body))))
  {
    hide Fold, SplitLines, Content, LayoutTexts, HeaderTexts, DropBlank, TrimEnds, FilePaths, FinalState, Changed,
      Within, IsStretch, FrontmatterClose, LayoutInside, HoldsHeader, LayoutLeft;
    var raws, others := SplitLines(last), SplitLines(current);
    AroundHolds(env, last, current);
    var cut := CutBody(env, raws, others);
    var init, bs, range := InitialState(env, raws), BodyStart(raws), BodyRange(env, last, current);
    var st, other := FinalState(env, raws), FinalState(env, others);
    FromTheBody(env, raws);
    SameRegion(env, FilePaths(env, raws), init, bs + 1, raws[bs..],
               FilePaths(env, others), cut.mid, range.start, cut.raws, SameHeader(init, cut.mid));
    BodyLines(env, raws);
    var a, b := st.lines[bs..], other.lines[|cut.mid.lines|..cut.to];
    HeaderHeld(st.lines);
    HeaderHeld(a);
    HeaderHolds(env, FilePaths(env, others), cut.mid, range.start, cut.raws);
    WithinStretch(other.lines, range, |cut.mid.lines|, cut.to);
    LayoutOutside(other.lines, range, |cut.mid.lines|, cut.to);
    HeaderHeld(b);
    LayoutSums(LayoutTexts(a), HeaderTexts(a), LayoutTexts(b), HeaderTexts(b),
               LayoutTexts(other.lines[..|cut.mid.lines|]), LayoutTexts(other.lines[cut.to..]),
               SameHeader(init, cut.mid));
    BodyWords(env, last, current);
    NothingLeft(Content(st.lines), Content(other.lines), range);
  }

  lemma LayoutSums(l: seq<string>, h: seq<string>, m: seq<string>, k: seq<string>, p: seq<string>, s: seq<string>,
                   exact: bool)
    requires multiset(l) + multiset(h) == multiset(m) + multiset(k)
    requires if exact then l == m && h == k else k == []
    ensures multiset(l) == multiset(p + m + s) <==> p == [] && s == [] && (h != [] ==> k != [])
  {
    assert multiset(p + m + s) == multiset(p) + multiset(m) + multiset(s);
    assert |multiset(l) + multiset(h)| == |l| + |h| && |multiset(m) + multiset(k)| == |m| + |k|;
    assert |multiset(p + m + s)| == |p| + |m| + |s|;
    if p == [] && s == [] {
      assert p + m + s == m;
      if k == [] && h == [] {
        assert multiset(l) + multiset(h) == multiset(l) && multiset(m) + multiset(k) == multiset(m);
      }
    }
  }

  /** All of the last file's uncited words are in the body. */
  lemma NothingLeft(was: seq<ParsedLine>, now: seq<ParsedLine>, range: Range)
    requires SameWords(was, Within(now, range))
    ensures !LayoutLeft(was, now)
  {
    hide Within;
    forall t
      ensures Uncited(was, |was|, t) <= Uncited(now, |now|, t)
    {
      SameWordsCount(was, Within(now, range), |was|, t);
      UncitedWithin(now, range, t);
    }
  }

  lemma {:induction false} UncitedWithin(ls: seq<ParsedLine>, range: Range, t: string)
    ensures Uncited(Within(ls, range), |Within(ls, range)|, t) <= Uncited(ls, |ls|, t)
  {
    if ls != [] {
      var n := |ls| - 1;
      UncitedWithin(ls[..n], range, t);
      UncitedPrefix(ls[..n], [ls[n]], n, t);
      assert ls[..n] + [ls[n]] == ls;
      var rest := Within(ls[..n], range);
      UncitedPrefix(rest, [ls[n]], |rest|, t);
    }
  }

  lemma {:induction false} UncitedPrefix(ls: seq<ParsedLine>, more: seq<ParsedLine>, n: nat, t: string)
    requires n <= |ls|
    ensures Uncited(ls + more, n, t) == Uncited(ls, n, t)
  {
    if n > 0 { UncitedPrefix(ls, more, n - 1, t); }
  }

  lemma SameSize(was: seq<ParsedLine>, now: seq<ParsedLine>, range: Range)
    requires SameWords(was, Within(now, range))
    ensures Proposals(was, now) == [] && !LayoutLeft(was, now) <==> Within(now, range) == now
  {
    hide Proposals, LayoutLeft, Within;
    if Within(now, range) == now {
      SameWordsSilent(was, now);
    } else if Proposals(was, now) == [] && !LayoutLeft(was, now) {
      SilentKeepsTexts(was, now);
      TextsLength(was, |was|);
      TextsLength(now, |now|);
      assert |multiset(DiffLaws.Texts(was, |was|))| == |was|;
      assert |multiset(DiffLaws.Texts(now, |now|))| == |now|;
      WithinAll(now, range);
    }
  }

  lemma {:induction false} WithinAll(ls: seq<ParsedLine>, range: Range)
    requires |Within(ls, range)| == |ls|
    ensures Within(ls, range) == ls
  {
    if ls != [] {
      WithinShorter(ls[..|ls| - 1], range);
      WithinAll(ls[..|ls| - 1], range);
    }
  }
}
