/** Rewording one line of a file, from the text of both files to the proposal. */
module Rewording {
  import opened Text
  import opened Patterns
  import opened Model
  import Document
  import Matching
  import opened Parse
  import opened Diff
  import opened DiffLaws
  import opened RoundTrip
  import opened Rereading
  import opened ParseBack
  import opened Swapping

  /** A printed item is read as its entry, whatever was read before it outside a fence. */
  lemma ReadPrinted(env: Env, files: seq<string>, st: State, n: nat, e: Entry)
    requires StateOk(st) && !st.inFence && Printable(env, e)
    ensures var text := Document.ItemLine(e);
            Step(env, files, st, n, text) ==
            Push(st.(hidden := st.hidden + env.removed(text), itemRaw := Some(Document.ItemBody(e))),
                 ParsedEntry(e, n, st.section, st.scope.GetOr(files)))
  {
    hide Document.ItemBody, TextLine, IsFence, IsIndented, ItemMatch, HeadingMatch, IsImport, IsHeader, IsComment,
      Trim, TrimEnd, NoTerminator;
    BodyShape(e);
    ItemMatchExact(Document.ItemBody(e));
    NotSpecial(Document.ItemLine(e));
    TextLineExact(e, n, st.section, st.scope.GetOr(files));
    assert Document.ItemLine(e)[0] == '-';
  }

  lemma ItemIsNoRule(e: Entry)
    requires e.refs != []
    ensures !IsRule(Document.ItemLine(e))
  {
    var s := Document.ItemLine(e);
    assert s[|s| - 1] == ']';
    assert TrimEnd(s) == s && s[1] == ' ';
  }

  lemma PrintableCites(env: Env, e: Entry)
    requires Printable(env, e)
    ensures e.refs != [] && e.text != ""
  {
  }

  /** One file is the other with the item on line `k` (from 0) reworded: outside the frontmatter and any fence,
      and with no line continuing it. */
  ghost predicate OneItemReworded(env: Env, raws: seq<string>, others: seq<string>, k: nat, e: Entry, f: Entry) {
    && BodyStart(raws) <= k < |raws| && raws[k] == Document.ItemLine(e) && others == raws[k := Document.ItemLine(f)]
    && Printable(env, e) && Printable(env, f) && e.refs == f.refs
    && (k + 1 < |raws| ==> Separate(raws[k + 1]))
    && !Before(env, raws, k).inFence
  }

  /** Both lines, as they are read. */
  lemma ItemSwapped(env: Env, raws: seq<string>, others: seq<string>, k: nat, e: Entry, f: Entry)
    returns (l: ParsedLine, m: ParsedLine)
    requires OneItemReworded(env, raws, others, k, e, f)
    ensures OneLineSwapped(env, raws, others, k, l, m)
    ensures l.line == k + 1 == m.line && l.refs == e.refs == m.refs && l.text == e.text && m.text == f.text
  {
    hide Step, Fold, Printable, Separate, Document.ItemLine, FilePaths, FrontmatterClose, IsRule;
    PrintableCites(env, e);
    PrintableCites(env, f);
    ItemIsNoRule(e);
    ItemIsNoRule(f);
    var files, st := FilePaths(env, raws), Before(env, raws, k);
    ReadPrinted(env, files, st, k + 1, e);
    ReadPrinted(env, files, st, k + 1, f);
    l := ParsedEntry(e, k + 1, st.section, st.scope.GetOr(files));
    m := ParsedEntry(f, k + 1, st.section, st.scope.GetOr(files));
  }

  // ---------------------------------------------------------------------
  // To the proposal
  // ---------------------------------------------------------------------

  lemma {:induction false} RewordedCounts(before: seq<ParsedLine>, after: seq<ParsedLine>, i: nat, n: nat, key: string)
    requires RewordedAt(before, after, i) && IsCited(before[i]) && n <= |before|
    ensures Positions(before, n, key) == Positions(after, n, key)
    ensures Uncited(before, n, key) == Uncited(after, n, key)
  {
    hide Join;
    if n > 0 { RewordedCounts(before, after, i, n - 1, key); }
  }

  lemma RewordedElsewhere(before: seq<ParsedLine>, after: seq<ParsedLine>, i: nat)
    requires RewordedAt(before, after, i) && IsCited(before[i])
    ensures SameElsewhere(before, after, Key(before[i]))
  {
    hide Key, Positions, Uncited;
    forall k
      ensures Positions(before, |before|, k) == Positions(after, |after|, k)
      ensures Uncited(before, |before|, k) == Uncited(after, |after|, k)
    {
      RewordedCounts(before, after, i, |before|, k);
    }
    forall k | k != Key(before[i])
      ensures CitedTexts(after, k) == CitedTexts(before, k)
    {
      Matching.PositionsExact(before, |before|, k);
      assert i !in Positions(before, |before|, k);
      var ps := Positions(before, |before|, k);
      assert forall r | 0 <= r < |ps| :: ps[r] in ps;
    }
  }

  lemma OnlyPosition(ls: seq<ParsedLine>, i: nat)
    requires i < |ls| && IsCited(ls[i]) && Cites(ls, |ls|, Key(ls[i])) == 1
    ensures Positions(ls, |ls|, Key(ls[i])) == [i]
  {
    hide Key;
    Matching.PositionsExact(ls, |ls|, Key(ls[i]));
    assert i in Positions(ls, |ls|, Key(ls[i]));
  }

  /** Rewording one item whose cites no other line has proposes exactly that edit, with its line, and nothing else
      about the file counts as edited. In a file with a block, the item is a line of the block. */
  lemma RewordingIsProposed(env: Env, last: string, current: string, k: nat, e: Entry, f: Entry)
    requires OneItemReworded(env, SplitLines(last), SplitLines(current), k, e, f) && e.text != f.text
    requires var before := FileOf(env, last);
             var was := Content(Tracked(before, before));
             Answers(before, k + 1) && Cites(was, |was|, Join(e.refs, ",")) == 1
    ensures e.refs != []
    ensures var before, after := FileOf(env, last), FileOf(env, current);
            var was, now := Tracked(before, before), Tracked(before, after);
            && Proposals(Content(was), Content(now)) == [Edit(e.refs[0], e.refs, e.text, f.text, k + 1, k + 1)]
            && !LayoutLeft(Content(was), Content(now)) && LayoutTexts(was) == LayoutTexts(now)
            && before.managed == after.managed && before.header == after.header
            && before.frontmatter == after.frontmatter && (env.clean("") == "" ==> Changed(env, last, current))
  {
    hide FinalState, Content, SplitLines, Proposals, LayoutLeft, Printable, Separate, Positions, SameElsewhere, Join,
      Document.ItemLine, FileOf, Tracked, LayoutTexts, Changed, OneLineSwapped;
    PrintableCites(env, e);
    var l, m := ItemSwapped(env, SplitLines(last), SplitLines(current), k, e, f);
    var cut := ReworkedTracked(env, last, current, k, l, m);
    var file := FileOf(env, last);
    var was, now := Tracked(file, file), Tracked(file, FileOf(env, current));
    ReworkedContent(was, now, cut);
    var before, after, i := Content(was), Content(now), |Content(cut.pre)|;
    var key := Key(before[i]);
    OnlyPosition(before, i);
    RewordedCounts(before, after, i, |before|, key);
    RewordedElsewhere(before, after, i);
    RewordingIsOneEdit(before, after, key, i, i);
    if env.clean("") == "" { ProposedIsChanged(env, last, current); }
  }

  /** An item outside the block can be reworded without a trace. */
  lemma RewordingOutsideIsSilent(env: Env, last: string, current: string, k: nat, e: Entry, f: Entry)
    requires OneItemReworded(env, SplitLines(last), SplitLines(current), k, e, f)
    requires !Answers(FileOf(env, last), k + 1)
    ensures var before, after := FileOf(env, last), FileOf(env, current);
            var was, now := Tracked(before, before), Tracked(before, after);
            && Proposals(Content(was), Content(now)) == []
            && !LayoutLeft(Content(was), Content(now)) && LayoutTexts(was) == LayoutTexts(now)
            && before.managed == after.managed && before.header == after.header
            && before.frontmatter == after.frontmatter
  {
    hide FinalState, Content, SplitLines, Proposals, LayoutLeft, Printable, Separate, Document.ItemLine, FileOf,
      Tracked, LayoutTexts, AllAlike, SameWords, OneLineSwapped, OneItemReworded;
    var l, m := ItemSwapped(env, SplitLines(last), SplitLines(current), k, e, f);
    var cut := ReworkedTracked(env, last, current, k, l, m);
    var before, after := FileOf(env, last), FileOf(env, current);
    AlikeContent(Tracked(before, before), Tracked(before, after), true);
    SameWordsSilent(Content(Tracked(before, before)), Content(Tracked(before, after)));
  }

  lemma ProposedIsChanged(env: Env, last: string, current: string)
    requires env.clean("") == "" && FileOf(env, last).managed == FileOf(env, current).managed
    requires var before, after := FileOf(env, last), FileOf(env, current);
             Proposals(Content(Tracked(before, before)), Content(Tracked(before, after))) != []
    ensures Changed(env, last, current)
  {
    hide Parsed, Content, Proposals, Changed, LayoutLeft, LayoutTexts, Within;
    if !Changed(env, last, current) {
      if FileOf(env, last).managed.Some? {
        UnchangedBlockIsSilent(env, last, current);
      } else {
        UnchangedIsSilent(env, last, current);
      }
    }
  }
}
