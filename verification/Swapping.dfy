/** One line of a file swapped for another with the same cites: how the two files are read. */
module Swapping {
  import opened Text
  import opened Patterns
  import opened Parse
  import opened Diff
  import opened Rereading
  import opened ParseBack

  /** A line that doesn't continue an item. */
  predicate Separate(raw: string) {
    !IsIndented(TrimEnd(raw)) || ItemMatch(TrimEnd(raw)).Some? || IsFence(TrimEnd(raw))
  }

  /** Lines that stand on the same lines of their files. */
  predicate SameNumbers(a: seq<ParsedLine>, b: seq<ParsedLine>) {
    |a| == |b| && forall i | 0 <= i < |a| :: a[i].line == b[i].line
  }

  /** Two runs that differ in nothing but the kind and words of their lines. */
  predicate SamePlaces(st: State, other: State) {
    && StateOk(st) && StateOk(other) && SameNumbers(st.lines, other.lines)
    && st.starts == other.starts && st.ends == other.ends && st.inFence == other.inFence && st.header == other.header
  }

  lemma PlacesStep(env: Env, files: seq<string>, st: State, other: State, n: nat, raw: string)
    requires SamePlaces(st, other) && (Separate(raw) || st.itemRaw.Some? == other.itemRaw.Some?)
    ensures var r, s := Step(env, files, st, n, raw), Step(env, files, other, n, raw);
            SamePlaces(r, s) && r.itemRaw.Some? == s.itemRaw.Some?
  {
    hide TrimEnd, IsFence, IsIndented, ItemMatch, Read, Trim, CitesMatch, MarkerMatch;
    var text := TrimEnd(raw);
    if !Continues(st, text) {
      PlacesRead(env, files, st.(hidden := st.hidden + env.removed(text), itemRaw := None),
                 other.(hidden := other.hidden + env.removed(text), itemRaw := None), n, text);
    }
  }

  lemma PlacesRead(env: Env, files: seq<string>, st: State, other: State, n: nat, text: string)
    requires SamePlaces(st, other) && st.itemRaw == None == other.itemRaw
    ensures var r, s := Read(env, files, st, n, text), Read(env, files, other, n, text);
            && r.st.starts == s.st.starts && r.st.ends == s.st.ends && r.st.inFence == s.st.inFence
            && r.st.header == s.st.header && r.st.itemRaw.Some? == s.st.itemRaw.Some?
            && r.line.line == n == s.line.line
  {
    hide Trim, IsFence, ItemMatch, HeadingMatch, IsImport, IsHeader, IsComment, ScopeMatch, CitesMatch, MarkerMatch;
  }

  lemma {:induction false} PlacesFold(env: Env, files: seq<string>, st: State, other: State, n: nat, raws: seq<string>)
    requires SamePlaces(st, other)
    requires raws != [] ==> Separate(raws[0]) || st.itemRaw.Some? == other.itemRaw.Some?
    ensures SamePlaces(Fold(env, files, st, n, raws), Fold(env, files, other, n, raws))
    decreases |raws|
  {
    hide Step, SameNumbers, Separate;
    if raws == [] {
      FoldEnd(env, files, st, n);
      FoldEnd(env, files, other, n);
    } else {
      FoldStep(env, files, st, n, raws, raws[1..]);
      FoldStep(env, files, other, n, raws, raws[1..]);
      PlacesStep(env, files, st, other, n, raws[0]);
      PlacesFold(env, files, Step(env, files, st, n, raws[0]), Step(env, files, other, n, raws[0]), n + 1, raws[1..]);
    }
  }

  /** After a line of its own, the two runs are in step again. */
  lemma Settles(env: Env, files: seq<string>, st: State, other: State, n: nat, raw: string)
    requires SamePlaces(st, other) && Separate(raw)
    ensures var r, s := Step(env, files, st, n, raw), Step(env, files, other, n, raw);
            && InStep(r, |st.lines|, s, |other.lines|, true)
            && r.lines[..|st.lines|] == st.lines && s.lines[..|other.lines|] == other.lines
  {
    hide TrimEnd, IsFence, IsIndented, ItemMatch, Read, Alike;
    var text := TrimEnd(raw);
    var a, b := st.(hidden := st.hidden + env.removed(text), itemRaw := None),
                other.(hidden := other.hidden + env.removed(text), itemRaw := None);
    SameRead(env, files, a, n, raw, files, b, n, true);
    var r, s := Step(env, files, st, n, raw), Step(env, files, other, n, raw);
    assert r.lines == st.lines + [Read(env, files, a, n, text).line];
    assert s.lines == other.lines + [Read(env, files, b, n, text).line];
    assert r.lines[|st.lines|..] == [Read(env, files, a, n, text).line];
    assert s.lines[|other.lines|..] == [Read(env, files, b, n, text).line];
  }

  /** The rest of the file reads the same in both runs. */
  lemma RestAlike(env: Env, files: seq<string>, st: State, other: State, n: nat, rest: seq<string>)
    requires SamePlaces(st, other) && (rest != [] ==> Separate(rest[0]))
    ensures var r, s := Fold(env, files, st, n, rest), Fold(env, files, other, n, rest);
            && |st.lines| <= |r.lines| && |other.lines| <= |s.lines|
            && r.lines[..|st.lines|] == st.lines && s.lines[..|other.lines|] == other.lines
            && AllAlike(r.lines[|st.lines|..], s.lines[|other.lines|..], true)
  {
    hide Step, Fold, Separate, TrimEnd, Alike;
    var k := |st.lines|;
    assert k == |other.lines|;
    if rest == [] {
      FoldEnd(env, files, st, n);
      FoldEnd(env, files, other, n);
    } else {
      Settles(env, files, st, other, n, rest[0]);
      FoldStep(env, files, st, n, rest, rest[1..]);
      FoldStep(env, files, other, n, rest, rest[1..]);
      var r, s := Step(env, files, st, n, rest[0]), Step(env, files, other, n, rest[0]);
      assert SameTrims(rest[1..], rest[1..]);
      hide SameNumbers, AllAlike, SameTrims;
      InStepFold(env, files, r, k, n + 1, rest[1..], files, s, k, n + 1, rest[1..], true);
      Keeps(env, files, r, k, n + 1, rest[1..]);
      Keeps(env, files, s, k, n + 1, rest[1..]);
    }
  }

  /** Lists of content lines that differ in the words of one line. */
  ghost predicate RewordedAt(before: seq<ParsedLine>, after: seq<ParsedLine>, i: nat) {
    && i < |before| == |after|
    && (forall j | 0 <= j < |before| :: before[j].refs == after[j].refs && (j != i ==> before[j].text == after[j].text))
  }

  /** Two lists of lines around the one that differs: what comes before it, the line, and what comes after it. */
  datatype Reworked = Reworked(pre: seq<ParsedLine>, was: ParsedLine, now: ParsedLine,
                               rest: seq<ParsedLine>, others: seq<ParsedLine>)

  ghost predicate IsReworked(before: seq<ParsedLine>, after: seq<ParsedLine>, cut: Reworked) {
    && before == cut.pre + [cut.was] + cut.rest && after == cut.pre + [cut.now] + cut.others
    && cut.was.line == cut.now.line && cut.was.refs == cut.now.refs && IsContent(cut.was) && IsContent(cut.now)
    && AllAlike(cut.rest, cut.others, true) && SameNumbers(cut.rest, cut.others)
  }

  lemma ReworkedContent(before: seq<ParsedLine>, after: seq<ParsedLine>, cut: Reworked)
    requires IsReworked(before, after, cut)
    ensures var i := |Content(cut.pre)|;
            && RewordedAt(Content(before), Content(after), i)
            && Content(before)[i] == cut.was && Content(after)[i] == cut.now
    ensures LayoutTexts(before) == LayoutTexts(after)
  {
    hide Content, IsContent, Alike, AllAlike, LayoutTexts, RewordedAt, SameWords;
    var l, m := cut.was, cut.now;
    ContentConcat(cut.pre + [l], cut.rest);
    ContentConcat(cut.pre, [l]);
    ContentConcat(cut.pre + [m], cut.others);
    ContentConcat(cut.pre, [m]);
    LayoutConcat(cut.pre + [l], cut.rest);
    LayoutConcat(cut.pre, [l]);
    LayoutConcat(cut.pre + [m], cut.others);
    LayoutConcat(cut.pre, [m]);
    OneContent(l);
    OneContent(m);
    ContentNoLayout(l);
    ContentNoLayout(m);
    AlikeContent(cut.rest, cut.others, true);
    RewordedJoin(Content(cut.pre), l, m, Content(cut.rest), Content(cut.others));
  }

  lemma ContentNoLayout(l: ParsedLine)
    requires IsContent(l)
    ensures !IsLayout(l)
  {
  }

  lemma RewordedJoin(c: seq<ParsedLine>, l: ParsedLine, m: ParsedLine, x: seq<ParsedLine>, y: seq<ParsedLine>)
    requires SameWords(x, y) && l.refs == m.refs
    ensures var before, after := c + [l] + x, c + [m] + y;
            RewordedAt(before, after, |c|) && before[|c|] == l && after[|c|] == m
  {
    var before, after, n := c + [l] + x, c + [m] + y, |c|;
    forall j | 0 <= j < |before|
      ensures before[j].refs == after[j].refs && (j != n ==> before[j].text == after[j].text)
    {
      if j > n { assert before[j] == x[j - n - 1] && after[j] == y[j - n - 1]; }
    }
  }

  lemma {:induction false} SameRules(raws: seq<string>, others: seq<string>, i: nat)
    requires |raws| == |others| && i <= |raws| && forall j | 0 <= j < |raws| :: IsRule(raws[j]) == IsRule(others[j])
    ensures RuleFrom(raws, i) == RuleFrom(others, i)
    decreases |raws| - i
  {
    hide TrimEnd, IsRule;
    if i < |raws| && !IsRule(raws[i]) { SameRules(raws, others, i + 1); }
  }

  /** The run up to line `k`. */
  ghost function Before(env: Env, raws: seq<string>, k: nat): State
    requires BodyStart(raws) <= k <= |raws|
  {
    var bs := BodyStart(raws);
    Fold(env, FilePaths(env, raws), InitialState(env, raws), bs + 1, raws[bs..k])
  }

  /** From this state, the text is read as this one line, and nothing else changes. */
  ghost predicate Reads(env: Env, files: seq<string>, st: State, n: nat, raw: string, l: ParsedLine) {
    && StateOk(st)
    && var r := Step(env, files, st, n, raw);
       && r.lines == st.lines + [l] && r.starts == st.starts && r.ends == st.ends && r.inFence == st.inFence
       && r.header == st.header
  }

  /** One file is the other with line `k` (from 0) swapped for one that has the same cites: after the frontmatter, and
      with no line continuing it. */
  ghost predicate OneLineSwapped(env: Env, raws: seq<string>, others: seq<string>, k: nat,
                                 l: ParsedLine, m: ParsedLine) {
    && BodyStart(raws) <= k < |raws| == |others| && others == raws[k := others[k]]
    && !IsRule(raws[k]) && !IsRule(others[k]) && (k + 1 < |raws| ==> Separate(raws[k + 1]))
    && Reads(env, FilePaths(env, raws), Before(env, raws, k), k + 1, raws[k], l)
    && Reads(env, FilePaths(env, raws), Before(env, raws, k), k + 1, others[k], m)
    && l.line == k + 1 == m.line && l.refs == m.refs && IsContent(l) && IsContent(m)
  }

  lemma SameFront(env: Env, raws: seq<string>, others: seq<string>, k: nat)
    requires BodyStart(raws) <= k < |raws| == |others| && others == raws[k := others[k]]
    requires !IsRule(raws[k]) && !IsRule(others[k])
    ensures BodyStart(others) == BodyStart(raws) && FilePaths(env, others) == FilePaths(env, raws)
    ensures InitialState(env, others) == InitialState(env, raws)
    ensures others[BodyStart(raws)..k] == raws[BodyStart(raws)..k]
  {
    hide TrimEnd, IsRule, RuleFrom, Fold, Separate, FrontmatterLines, RemovedIn;
    SameRules(raws, others, 1);
    assert raws[..BodyStart(raws)] == others[..BodyStart(raws)];
    if FrontmatterClose(raws).Some? {
      var close := FrontmatterClose(raws).value;
      assert raws[1..close] == others[1..close];
    }
  }

  /** From line `k` on: the line, then the rest. */
  lemma SplitAt(env: Env, files: seq<string>, st: State, n: nat, raws: seq<string>, k: nat)
    requires StateOk(st) && k < |raws|
    ensures var mid := Fold(env, files, st, n, raws[..k]);
            Fold(env, files, st, n, raws) ==
            Fold(env, files, Step(env, files, mid, n + k, raws[k]), n + k + 1, raws[k + 1..])
  {
    hide Step, Fold;
    assert raws == raws[..k] + raws[k..];
    FoldConcat(env, files, st, n, raws[..k], raws[k..]);
    FoldStep(env, files, Fold(env, files, st, n, raws[..k]), n + k, raws[k..], raws[k + 1..]);
  }

  lemma FinalAt(env: Env, raws: seq<string>, k: nat)
    requires BodyStart(raws) <= k < |raws|
    ensures FinalState(env, raws) ==
            Fold(env, FilePaths(env, raws), Step(env, FilePaths(env, raws), Before(env, raws, k), k + 1, raws[k]),
                 k + 2, raws[k + 1..])
  {
    hide Step, Fold;
    var bs := BodyStart(raws);
    var body := raws[bs..];
    SplitAt(env, FilePaths(env, raws), InitialState(env, raws), bs + 1, body, k - bs);
    assert body[..k - bs] == raws[bs..k] && body[k - bs..][1..] == raws[k + 1..] && body[k - bs + 1..] == raws[k + 1..];
  }

  /** The two files, cut at line `k`. */
  lemma ReworkedFile(env: Env, raws: seq<string>, others: seq<string>, k: nat, l: ParsedLine, m: ParsedLine)
    returns (cut: Reworked)
    requires OneLineSwapped(env, raws, others, k, l, m)
    ensures SamePlaces(FinalState(env, raws), FinalState(env, others))
    ensures IsReworked(FinalState(env, raws).lines, FinalState(env, others).lines, cut)
    ensures cut.was == l && cut.now == m
  {
    hide Step, Fold, Separate, TrimEnd, FilePaths, AfterFrontmatter, FrontmatterClose, Alike, IsContent;
    SameFront(env, raws, others, k);
    FinalAt(env, raws, k);
    FinalAt(env, others, k);
    var files, st := FilePaths(env, raws), Before(env, raws, k);
    assert Before(env, others, k) == st;
    assert others[k + 1..] == raws[k + 1..];
    var a, b := Step(env, files, st, k + 1, raws[k]), Step(env, files, st, k + 1, others[k]);
    RestAlike(env, files, a, b, k + 2, raws[k + 1..]);
    PlacesFold(env, files, a, b, k + 2, raws[k + 1..]);
    cut := CutAt(FinalState(env, raws).lines, FinalState(env, others).lines, st.lines, l, m);
  }

  lemma CutAt(before: seq<ParsedLine>, after: seq<ParsedLine>, pre: seq<ParsedLine>, was: ParsedLine, now: ParsedLine)
    returns (cut: Reworked)
    requires SameNumbers(before, after) && pre + [was] <= before && pre + [now] <= after
    requires AllAlike(before[|pre| + 1..], after[|pre| + 1..], true)
    requires was.refs == now.refs && IsContent(was) && IsContent(now)
    ensures IsReworked(before, after, cut) && cut.was == was && cut.now == now
  {
    hide Alike, IsContent;
    var p := |pre|;
    cut := Reworked(pre, was, now, before[p + 1..], after[p + 1..]);
    assert before[p] == was && after[p] == now;
    assert before == before[..p + 1] + before[p + 1..] && after == after[..p + 1] + after[p + 1..];
  }

  // ---------------------------------------------------------------------
  // Inside a block
  // ---------------------------------------------------------------------

  lemma {:induction false} WithinConcat(a: seq<ParsedLine>, b: seq<ParsedLine>, range: Range)
    ensures Within(a + b, range) == Within(a, range) + Within(b, range)
  {
    if b == [] {
      assert a + b == a;
    } else {
      var n := |b| - 1;
      assert (a + b)[..|a| + n] == a + b[..n];
      WithinConcat(a, b[..n], range);
    }
  }

  lemma {:induction false} AlikeWithin(a: seq<ParsedLine>, b: seq<ParsedLine>, range: Range)
    requires AllAlike(a, b, true) && SameNumbers(a, b)
    ensures AllAlike(Within(a, range), Within(b, range), true) && SameNumbers(Within(a, range), Within(b, range))
  {
    hide Alike;
    if a != [] {
      var n := |a| - 1;
      AlikeWithin(a[..n], b[..n], range);
    }
  }

  /** The block's lines of both lists: cut at the same line if the block has it, alike if not. */
  lemma ReworkedWithin(before: seq<ParsedLine>, after: seq<ParsedLine>, cut: Reworked, range: Range)
    returns (inner: Reworked)
    requires IsReworked(before, after, cut)
    ensures inner.was == cut.was && inner.now == cut.now
    ensures range.start <= cut.was.line <= range.end ==>
              IsReworked(Within(before, range), Within(after, range), inner)
    ensures !(range.start <= cut.was.line <= range.end) ==>
              AllAlike(Within(before, range), Within(after, range), true)
  {
    hide Alike, AllAlike, Within, IsContent;
    inner := cut.(pre := Within(cut.pre, range), rest := Within(cut.rest, range), others := Within(cut.others, range));
    WithinConcat(cut.pre + [cut.was], cut.rest, range);
    WithinConcat(cut.pre, [cut.was], range);
    WithinConcat(cut.pre + [cut.now], cut.others, range);
    WithinConcat(cut.pre, [cut.now], range);
    OneWithin(cut.was, range);
    OneWithin(cut.now, range);
    AlikeWithin(cut.rest, cut.others, range);
    if !(range.start <= cut.was.line <= range.end) {
      assert Within(before, range) == inner.pre + inner.rest && Within(after, range) == inner.pre + inner.others;
      AlikeJoin(inner.pre, inner.rest, inner.others);
    }
  }

  lemma OneWithin(l: ParsedLine, range: Range)
    ensures Within([l], range) == if range.start <= l.line <= range.end then [l] else []
  {
  }

  lemma AlikeJoin(pre: seq<ParsedLine>, a: seq<ParsedLine>, b: seq<ParsedLine>)
    requires AllAlike(a, b, true)
    ensures AllAlike(pre + a, pre + b, true)
  {
  }

  /** Line `n` counts for the proposals. */
  predicate Answers(file: ParsedFile, n: nat) {
    file.managed.Some? ==> file.managed.value.start <= n <= file.managed.value.end
  }

  /** Around the swapped line nothing about the file changes. */
  lemma ReworkedTracked(env: Env, last: string, current: string, k: nat, l: ParsedLine, m: ParsedLine)
    returns (cut: Reworked)
    requires OneLineSwapped(env, SplitLines(last), SplitLines(current), k, l, m)
    ensures var before, after := FileOf(env, last), FileOf(env, current);
            var was, now := Tracked(before, before), Tracked(before, after);
            && before.managed == after.managed && before.header == after.header
            && before.frontmatter == after.frontmatter
            && (Answers(before, k + 1) ==> IsReworked(was, now, cut))
            && (!Answers(before, k + 1) ==> AllAlike(was, now, true))
    ensures cut.was == l && cut.now == m
  {
    hide FinalState, Separate, SplitLines, IsReworked, AllAlike, Within, Fold, FrontmatterClose, Reads;
    var raws, others := SplitLines(last), SplitLines(current);
    cut := ReworkedFile(env, raws, others, k, l, m);
    SameFront(env, raws, others, k);
    var before := FileOf(env, last);
    if before.managed.Some? {
      cut := ReworkedWithin(FinalState(env, raws).lines, FinalState(env, others).lines, cut, before.managed.value);
    }
  }
}
