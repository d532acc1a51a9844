/** `parseBack` of packages/compiler/src/parse.ts: what an edit of a compiled file proposes. */
module ParseBack {
  import opened Text
  import opened Patterns
  import opened Parse
  import opened Diff
  import opened DiffLaws
  import opened Rereading
  import ManagedBlock
  import Matching
  import Drift

  datatype BlockState = Removed | Edited | Intact

  datatype ChangeSet = ChangeSet(changes: seq<Change>, changed: bool, headerEdited: bool, frontmatterEdited: bool,
                                 layoutEdited: bool, block: Option<BlockState>, hidden: nat)

  predicate InLines(range: Option<Range>, count: nat) {
    range.Some? ==> 1 <= range.value.start <= range.value.end + 1 <= count + 1
  }

  function Region(lines: seq<string>, range: Option<Range>): seq<string>
    requires InLines(range, |lines|)
  {
    match range
    case Some(r) => lines[r.start - 1..r.end]
    case None => lines
  }

  /** Lines as compared for "changed": no BOM, no trailing white space, no trailing blank lines. */
  function Comparable(content: string, range: Option<Range>): seq<string>
    requires InLines(range, |SplitLines(content)|)
  {
    DropBlank(Region(TrimEnds(SplitLines(content)), range))
  }

  function FileOf(env: Env, content: string): (file: ParsedFile)
    ensures InLines(file.managed, |SplitLines(content)|)
  {
    BlockInLines(env, SplitLines(content));
    Parsed(env, SplitLines(content))
  }

  lemma BlockInLines(env: Env, raws: seq<string>)
    ensures InLines(Parsed(env, raws).managed, |raws|)
  {
    hide FinalState, Fold, Within;
    if Parsed(env, raws).managed.Some? {
      var cut := CutFile(env, raws);
    }
  }

  predicate Changed(env: Env, last: string, current: string) {
    Join(Comparable(last, FileOf(env, last).managed), "\n") !=
    Join(Comparable(current, FileOf(env, current).managed), "\n")
  }

  /** The lines that are compared: a file that had a block answers for its block only. */
  function Tracked(before: ParsedFile, file: ParsedFile): seq<ParsedLine> {
    if before.managed.Some? && file.managed.Some? then Within(file.lines, file.managed.value) else file.lines
  }

  lemma LayoutStep(ls: seq<ParsedLine>, i: nat)
    requires i < |ls|
    ensures LayoutTexts(ls[..i + 1]) == LayoutTexts(ls[..i]) + if IsLayout(ls[i]) then [ls[i].text] else []
  {
    assert ls[..i + 1][..i] == ls[..i];
  }

  method CountLayout(lines: seq<ParsedLine>) returns (tally: Tally)
    ensures fresh(tally) && tally.Valid()
    ensures forall t :: tally.Count(t) == multiset(LayoutTexts(lines))[t]
  {
    hide LayoutTexts, IsLayout;
    tally := new Tally();
    assert lines[..0] == [] && LayoutTexts([]) == [] by { NoLayout(); }
    for i := 0 to |lines|
      invariant fresh(tally) && tally.Valid()
      invariant forall t :: tally.Count(t) == multiset(LayoutTexts(lines[..i]))[t]
    {
      LayoutStep(lines, i);
      if IsLayout(lines[i]) { tally.Add(lines[i].text); }
    }
    assert lines[..|lines|] == lines;
  }

  lemma NoLayout()
    ensures LayoutTexts([]) == []
  {
  }

  method LayoutDiffers(before: seq<ParsedLine>, after: seq<ParsedLine>) returns (differs: bool)
    ensures differs <==> multiset(LayoutTexts(before)) != multiset(LayoutTexts(after))
  {
    hide LayoutTexts, IsLayout;
    var left := CountLayout(before);
    ghost var had := multiset(LayoutTexts(before));
    assert after[..0] == [] && LayoutTexts([]) == [] by { NoLayout(); }
    for i := 0 to |after|
      invariant fresh(left) && left.Valid()
      invariant forall t :: had[t] == left.Count(t) + multiset(LayoutTexts(after[..i]))[t]
    {
      LayoutStep(after, i);
      if IsLayout(after[i]) {
        var taken := left.Take(after[i].text);
        if !taken {
          LayoutGrows(after, i + 1);
          assert had[after[i].text] < multiset(LayoutTexts(after))[after[i].text];
          return true;
        }
      }
    }
    assert after[..|after|] == after;
    if left.counts != map[] {
      var t :| t in left.counts;
      assert left.Count(t) > 0;
      return true;
    }
    assert forall t :: left.Count(t) == 0;
    return false;
  }

  lemma {:induction false} LayoutGrows(ls: seq<ParsedLine>, k: nat)
    requires k <= |ls|
    ensures multiset(LayoutTexts(ls[..k])) <= multiset(LayoutTexts(ls))
  {
    assert ls == ls[..k] + ls[k..];
    LayoutConcat(ls[..k], ls[k..]);
  }

  /** `parseBack`. */
  method ParseBack(env: Env, last: string, current: string) returns (r: ChangeSet)
    ensures var before, after := FileOf(env, last), FileOf(env, current);
            if before.managed.Some? && after.managed.None?
            then r == ChangeSet([], true, false, false, false, Some(Removed), RemovedIn(env, Comparable(current, None)))
            else
              var was, now := Tracked(before, before), Tracked(before, after);
              && r.changes == Proposals(Content(was), Content(now))
              && r.changed == Changed(env, last, current)
              && r.headerEdited == (before.header != after.header)
              && r.frontmatterEdited == (before.frontmatter != after.frontmatter)
              && (r.layoutEdited <==> multiset(LayoutTexts(was)) != multiset(LayoutTexts(now))
                                      || LayoutLeft(Content(was), Content(now)))
              && r.block == (if before.managed.None? then None else Some(if r.changed then Edited else Intact))
              && r.hidden == RemovedIn(env, Comparable(current, after.managed))
  {
    hide Parsed, Proposals, LayoutTexts, Content, SplitLines, DropBlank, Within, RemovedIn, Join, LayoutLeft;
    var before := ParseFile(env, last);
    var after := ParseFile(env, current);
    BlockInLines(env, SplitLines(last));
    BlockInLines(env, SplitLines(current));
    var oldLines, newLines := before.lines, after.lines;
    var block: Option<BlockState> := None;
    if before.managed.Some? {
      if after.managed.None? {
        return ChangeSet([], true, false, false, false, Some(Removed), RemovedIn(env, Comparable(current, None)));
      }
      oldLines := Within(oldLines, before.managed.value);
      newLines := Within(newLines, after.managed.value);
    }
    var oldRegion := Comparable(last, before.managed);
    var newRegion := Comparable(current, after.managed);
    var changed := Join(oldRegion, "\n") != Join(newRegion, "\n");
    if before.managed.Some? { block := Some(if changed then Edited else Intact); }
    var changes := Matching.DiffLines(oldLines, newLines);
    var layout := LayoutDiffers(oldLines, newLines);
    r := ChangeSet(changes.list, changed, before.header != after.header, before.frontmatter != after.frontmatter,
                   layout || changes.layout, block, RemovedIn(env, newRegion));
  }

  // ---------------------------------------------------------------------
  // Unchanged files propose nothing
  // ---------------------------------------------------------------------

  /** Joined regions are equal only if their lines are. */
  lemma RegionsJoined(a: seq<string>, b: seq<string>)
    requires (forall l | l in a :: NoBreak(l)) && (forall l | l in b :: NoBreak(l))
    requires (a != [] ==> a[|a| - 1] != "") && (b != [] ==> b[|b| - 1] != "")
    requires Join(a, "\n") == Join(b, "\n")
    ensures a == b
  {
    hide Join;
    if a == [] || b == [] {
      JoinedNonempty(a);
      JoinedNonempty(b);
    } else {
      JoinInjective(a, b, '\n');
    }
  }

  lemma JoinedNonempty(a: seq<string>)
    requires a != [] ==> a[|a| - 1] != ""
    ensures Join(a, "\n") == "" <==> a == []
  {
  }

  lemma ComparableUnbroken(content: string, range: Option<Range>)
    requires InLines(range, |SplitLines(content)|)
    ensures forall l | l in Comparable(content, range) :: NoBreak(l)
  {
    hide TrimEnd, DropBlank, ManagedBlock.Lines, ManagedBlock.Canonical;
    var ls := ManagedBlock.Lines(StripBom(content));
    ManagedBlock.LinesCanonical(StripBom(content));
    Drift.CanonicalTexts(ls);
    forall i | 0 <= i < |ls|
      ensures NoBreak(TrimEnds(SplitLines(content))[i])
    {
      Drift.TrimEndUnbroken(ls[i].text);
    }
  }

  lemma UnchangedRegions(env: Env, last: string, current: string)
    requires !Changed(env, last, current)
    ensures Comparable(last, FileOf(env, last).managed) == Comparable(current, FileOf(env, current).managed)
  {
    hide Parsed, SplitLines, Join, TrimEnds, DropBlank, Region;
    ComparableUnbroken(last, FileOf(env, last).managed);
    ComparableUnbroken(current, FileOf(env, current).managed);
    RegionsJoined(Comparable(last, FileOf(env, last).managed), Comparable(current, FileOf(env, current).managed));
  }

  lemma {:induction false} SameWordsCount(a: seq<ParsedLine>, b: seq<ParsedLine>, n: nat, key: string)
    requires SameWords(a, b) && n <= |a|
    ensures Positions(a, n, key) == Positions(b, n, key)
    ensures Uncited(a, n, key) == Uncited(b, n, key)
  {
    hide Join;
    if n > 0 { SameWordsCount(a, b, n - 1, key); }
  }

  lemma SameWordsSilent(a: seq<ParsedLine>, b: seq<ParsedLine>)
    requires SameWords(a, b)
    ensures Proposals(a, b) == [] && !LayoutLeft(a, b)
  {
    hide Proposals, LayoutLeft, Uncited, Positions, Key;
    forall key
      ensures CitedTexts(a, key) == CitedTexts(b, key) && Uncited(a, |a|, key) == Uncited(b, |b|, key)
    {
      SameWordsCount(a, b, |a|, key);
    }
    MovesAreSilent(a, b);
  }

  lemma {:induction false} DropBlankSuffix(lines: seq<string>, k: nat)
    requires k <= |DropBlank(lines)|
    ensures DropBlank(lines[k..]) == DropBlank(lines)[k..]
  {
    if lines != [] {
      var n := |lines| - 1;
      if lines[n] == "" {
        assert lines[k..][..n - k] == lines[..n][k..];
        assert lines[k..][n - k] == "";
        DropBlankSuffix(lines[..n], k);
      } else if k <= n {
        assert lines[k..][n - k] == lines[n];
      }
    }
  }

  lemma {:induction false} NoRuleBefore(raws: seq<string>, i: nat)
    requires i <= |raws|
    ensures forall k | i <= k < RuleFrom(raws, i) :: !IsRule(raws[k])
    decreases |raws| - i
  {
    hide TrimEnd;
    if i < |raws| && !IsRule(raws[i]) { NoRuleBefore(raws, i + 1); }
  }

  lemma {:induction false} RuleIs(raws: seq<string>, i: nat, j: nat)
    requires i <= j < |raws| && IsRule(raws[j]) && forall k | i <= k < j :: !IsRule(raws[k])
    ensures RuleFrom(raws, i) == j
    decreases j - i
  {
    hide TrimEnd;
    if i < j { RuleIs(raws, i + 1, j); }
  }

  lemma SameRule(raws: seq<string>, others: seq<string>, i: nat)
    requires DropBlank(TrimEnds(raws)) == DropBlank(TrimEnds(others)) && i <= |raws| && i <= |others|
    requires RuleFrom(raws, i) < |raws|
    ensures RuleFrom(raws, i) < |DropBlank(TrimEnds(raws))|
    ensures RuleFrom(others, i) == RuleFrom(raws, i)
  {
    hide TrimEnd, RuleFrom, DropBlank;
    var k, j := |DropBlank(TrimEnds(raws))|, RuleFrom(raws, i);
    SameTrimsTo(raws, others, k);
    NoRuleBefore(raws, i);
    assert j < k;
    assert forall h | 0 <= h < k :: IsRule(raws[h]) <==> IsRule(others[h]) by {
      assert forall h | 0 <= h < k :: TrimEnd(raws[..k][h]) == TrimEnd(others[..k][h]);
    }
    RuleIs(others, i, j);
  }

  lemma SameFrontmatter(raws: seq<string>, others: seq<string>)
    requires DropBlank(TrimEnds(raws)) == DropBlank(TrimEnds(others))
    ensures FrontmatterClose(raws) == FrontmatterClose(others) && FrontmatterOf(raws) == FrontmatterOf(others)
    ensures BodyStart(raws) == BodyStart(others)
    ensures DropBlank(TrimEnds(raws[BodyStart(raws)..])) == DropBlank(TrimEnds(others[BodyStart(raws)..]))
  {
    hide TrimEnd, RuleFrom, DropBlank;
    SameOpening(raws, others);
    SameOpening(others, raws);
    var bs, k := BodyStart(raws), |DropBlank(TrimEnds(raws))|;
    SameTrimsTo(raws, others, k);
    if FrontmatterClose(raws).Some? {
      SameRule(raws, others, 1);
      var close := bs - 1;
      forall i | 1 <= i < close
        ensures TrimEnd(raws[i]) == TrimEnd(others[i])
      {
        assert TrimEnd(raws[..k][i]) == TrimEnd(others[..k][i]);
      }
      assert TrimEnds(raws[1..close]) == TrimEnds(others[1..close]);
    }
    assert TrimEnds(raws[bs..]) == TrimEnds(raws)[bs..] && TrimEnds(others[bs..]) == TrimEnds(others)[bs..];
    DropBlankSuffix(TrimEnds(raws), bs);
    DropBlankSuffix(TrimEnds(others), bs);
  }

  lemma SameOpening(raws: seq<string>, others: seq<string>)
    requires DropBlank(TrimEnds(raws)) == DropBlank(TrimEnds(others))
    ensures FrontmatterClose(raws).Some? ==> FrontmatterClose(others) == FrontmatterClose(raws)
  {
    hide TrimEnd, RuleFrom, DropBlank;
    if FrontmatterClose(raws).Some? {
      var k := |DropBlank(TrimEnds(raws))|;
      SameTrimsTo(raws, others, k);
      assert k > 0;
      assert TrimEnd(raws[..k][0]) == TrimEnd(others[..k][0]);
      SameRule(raws, others, 1);
    }
  }

  lemma {:induction false} FrontmatterQuiet(front: seq<string>)
    ensures Content(FrontmatterLines(front)) == [] && LayoutTexts(FrontmatterLines(front)) == []
    ensures HeaderTexts(FrontmatterLines(front)) == []
  {
    if front != [] {
      var n := |front| - 1;
      assert FrontmatterLines(front)[..n] == FrontmatterLines(front[..n]);
      FrontmatterQuiet(front[..n]);
    }
  }

  /** A file's lines are its frontmatter's and the ones its body adds. */
  lemma BodyLines(env: Env, raws: seq<string>)
    ensures BodyStart(raws) <= |FinalState(env, raws).lines|
    ensures |InitialState(env, raws).lines| == BodyStart(raws)
    ensures Content(FinalState(env, raws).lines) == Content(FinalState(env, raws).lines[BodyStart(raws)..])
    ensures LayoutTexts(FinalState(env, raws).lines) == LayoutTexts(FinalState(env, raws).lines[BodyStart(raws)..])
    ensures HeaderTexts(FinalState(env, raws).lines) == HeaderTexts(FinalState(env, raws).lines[BodyStart(raws)..])
  {
    hide Step, Fold, Content, LayoutTexts, HeaderTexts, FrontmatterClose;
    var bs, st := BodyStart(raws), FinalState(env, raws);
    var init := InitialState(env, raws);
    NumberedFold(env, FilePaths(env, raws), init, bs, 0, bs + 1, raws[bs..]);
    FrontmatterQuiet(raws[..bs]);
    assert st.lines == st.lines[..bs] + st.lines[bs..];
    assert st.lines[..bs] == init.lines;
    ContentConcat(st.lines[..bs], st.lines[bs..]);
    LayoutConcat(st.lines[..bs], st.lines[bs..]);
    HeaderConcat(st.lines[..bs], st.lines[bs..]);
  }

  /** Without a managed block: a file that compares as unchanged proposes nothing, and neither its
      layout nor its header nor its frontmatter counts as edited. */
  lemma UnchangedIsSilent(env: Env, last: string, current: string)
    requires env.clean("") == "" && !Changed(env, last, current)
    requires FileOf(env, last).managed.None? && FileOf(env, current).managed.None?
    ensures var before, after := FileOf(env, last), FileOf(env, current);
            && Proposals(Content(before.lines), Content(after.lines)) == []
            && !LayoutLeft(Content(before.lines), Content(after.lines))
            && LayoutTexts(before.lines) == LayoutTexts(after.lines)
            && before.header == after.header && before.frontmatter == after.frontmatter
  {
    hide Fold, SplitLines, Content, LayoutTexts, Proposals, LayoutLeft, DropBlank, TrimEnds, FilePaths,
      FrontmatterClose, Changed;
    UnchangedRegions(env, last, current);
    var raws, others := SplitLines(last), SplitLines(current);
    SameFrontmatter(raws, others);
    var bs := BodyStart(raws);
    SameRegion(env, FilePaths(env, raws), InitialState(env, raws), bs + 1, raws[bs..],
               FilePaths(env, others), InitialState(env, others), bs + 1, others[bs..], true);
    BodyLines(env, raws);
    BodyLines(env, others);
    SameWordsSilent(Content(FinalState(env, raws).lines), Content(FinalState(env, others).lines));
  }

  lemma RegionTexts(raws: seq<string>, range: Range)
    requires InLines(Some(range), |raws|)
    ensures Region(TrimEnds(raws), Some(range)) == TrimEnds(raws[range.start - 1..range.end])
  {
    hide TrimEnd;
  }

  /** Both files with a managed block: if the blocks compare as unchanged, nothing is proposed,
      whatever happened around them. */
  lemma UnchangedBlockIsSilent(env: Env, last: string, current: string)
    requires env.clean("") == "" && !Changed(env, last, current)
    requires FileOf(env, last).managed.Some? && FileOf(env, current).managed.Some?
    ensures var before, after := FileOf(env, last), FileOf(env, current);
            && Proposals(Content(Tracked(before, before)), Content(Tracked(before, after))) == []
            && !LayoutLeft(Content(Tracked(before, before)), Content(Tracked(before, after)))
  {
    hide Fold, SplitLines, Content, LayoutTexts, Proposals, LayoutLeft, DropBlank, TrimEnds, FilePaths,
      FinalState, Changed, Within, Region;
    UnchangedRegions(env, last, current);
    var raws, others := SplitLines(last), SplitLines(current);
    var cut := CutFile(env, raws);
    var other := CutFile(env, others);
    var r, q := FileOf(env, last).managed.value, FileOf(env, current).managed.value;
    RegionTexts(raws, r);
    RegionTexts(others, q);
    SameRegion(env, FilePaths(env, raws), cut.open, r.start, raws[r.start - 1..r.end],
               FilePaths(env, others), other.open, q.start, others[q.start - 1..q.end], false);
    SameWordsSilent(Content(Within(FinalState(env, raws).lines, r)), Content(Within(FinalState(env, others).lines, q)));
  }

  /** The layout flag of two unchanged blocks: it stays down exactly if the header stands inside both blocks or inside
      neither. A header line inside a block is no layout, but the same line is a comment where the file has a header
      before the block. */
  lemma UnchangedBlockLayout(env: Env, last: string, current: string)
    requires env.clean("") == "" && !Changed(env, last, current)
    requires FileOf(env, last).managed.Some? && FileOf(env, current).managed.Some?
    ensures var before, after := FileOf(env, last), FileOf(env, current);
            var was, now := Tracked(before, before), Tracked(before, after);
            multiset(LayoutTexts(was)) == multiset(LayoutTexts(now)) <==> (HoldsHeader(was) <==> HoldsHeader(now))
  {
    hide Fold, SplitLines, Content, LayoutTexts, HeaderTexts, DropBlank, TrimEnds, FilePaths, FinalState, Changed,
      Within, Region, IsStretch, HoldsHeader;
    UnchangedRegions(env, last, current);
    var raws, others := SplitLines(last), SplitLines(current);
    var cut := CutFile(env, raws);
    var other := CutFile(env, others);
    var r, q := FileOf(env, last).managed.value, FileOf(env, current).managed.value;
    RegionTexts(raws, r);
    RegionTexts(others, q);
    var region, otherRegion := raws[r.start - 1..r.end], others[q.start - 1..q.end];
    SameRegion(env, FilePaths(env, raws), cut.open, r.start, region,
               FilePaths(env, others), other.open, q.start, otherRegion, SameHeader(cut.open, other.open));
    HeaderHolds(env, FilePaths(env, raws), cut.open, r.start, region);
    HeaderHolds(env, FilePaths(env, others), other.open, q.start, otherRegion);
    HeaderLayout(Fold(env, FilePaths(env, raws), cut.open, r.start, region).lines[cut.from..],
                 Fold(env, FilePaths(env, others), other.open, q.start, otherRegion).lines[other.from..],
                 SameHeader(cut.open, other.open));
  }

  /** A region holds a header only if none was read before it. */
  lemma HeaderHolds(env: Env, files: seq<string>, st: State, n: nat, raws: seq<string>)
    requires StateOk(st) && st.itemRaw == None
    ensures var r := Fold(env, files, st, n, raws);
            |st.lines| <= |r.lines| && (HoldsHeader(r.lines[|st.lines|..]) ==> st.header == None)
  {
    hide Fold, HoldsHeader, HeaderTexts;
    var r := Fold(env, files, st, n, raws);
    Keeps(env, files, st, |st.lines|, n, raws);
    HeaderHeld(r.lines[|st.lines|..]);
    if st.header.Some? { HeaderOnce(env, files, st, |st.lines|, n, raws); }
  }

  lemma HeaderLayout(a: seq<ParsedLine>, b: seq<ParsedLine>, exact: bool)
    requires SameLayout(a, b, exact) && (HoldsHeader(a) && HoldsHeader(b) ==> exact)
    ensures multiset(LayoutTexts(a)) == multiset(LayoutTexts(b)) <==> (HoldsHeader(a) <==> HoldsHeader(b))
  {
    hide HoldsHeader, LayoutTexts, HeaderTexts;
    HeaderHeld(a);
    HeaderHeld(b);
    MoreLayout(LayoutTexts(a), HeaderTexts(a), LayoutTexts(b), HeaderTexts(b));
  }

  lemma MoreLayout(l: seq<string>, h: seq<string>, m: seq<string>, k: seq<string>)
    requires multiset(l) + multiset(h) == multiset(m) + multiset(k)
    ensures h == [] && k == [] ==> multiset(l) == multiset(m)
    ensures (h == []) != (k == []) ==> multiset(l) != multiset(m)
  {
    assert |multiset(l) + multiset(h)| == |l| + |h| && |multiset(m) + multiset(k)| == |m| + |k|;
    if h == [] && k == [] {
      assert multiset(l) + multiset(h) == multiset(l) && multiset(m) + multiset(k) == multiset(m);
    }
  }
}
