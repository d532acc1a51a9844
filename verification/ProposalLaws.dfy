/** What the proposals of `diff` in packages/compiler/src/parse.ts say, and in which order. */
module ProposalLaws {
  import opened Sorting
  import opened Parse
  import opened Diff

  /** The reference that an edited line proposes to change, and what it says now. */
  predicate IsEditOf(before: seq<ParsedLine>, after: seq<ParsedLine>, c: Change, i: nat) {
    && i < |before| && IsCited(before[i])
    && match Partner(before, after, i)
       case Some(j) =>
         && after[j].text != before[i].text
         && c == Edit(before[i].refs[0], before[i].refs, before[i].text, after[j].text, before[i].line, after[j].line)
       case None => false
  }

  predicate IsNewOf(before: seq<ParsedLine>, after: seq<ParsedLine>, c: Change, j: nat) {
    && j < |after| && IsNew(before, after, j)
    && c == New(after[j].text, after[j].line, after[j].section, after[j].paths, after[j].refs)
  }

  predicate IsRemoveOf(before: seq<ParsedLine>, after: seq<ParsedLine>, c: Change, i: nat) {
    && i < |before| && IsRemoved(before, after, i)
    && c == Remove(before[i].refs[0], before[i].refs, before[i].text, before[i].line)
  }

  lemma {:induction false} EditsAre(before: seq<ParsedLine>, after: seq<ParsedLine>, n: nat, c: Change)
    requires n <= |before|
    ensures c in Edits(before, after, n) <==> exists i :: 0 <= i < n && IsEditOf(before, after, c, i)
  {
    hide Partner;
    if n > 0 {
      EditsAre(before, after, n - 1, c);
      assert (exists i :: 0 <= i < n && IsEditOf(before, after, c, i)) <==>
             IsEditOf(before, after, c, n - 1) || exists i :: 0 <= i < n - 1 && IsEditOf(before, after, c, i);
    }
  }

  lemma {:induction false} NewsAre(before: seq<ParsedLine>, after: seq<ParsedLine>, n: nat, c: Change)
    requires n <= |after|
    ensures c in News(before, after, n) <==> exists j :: 0 <= j < n && IsNewOf(before, after, c, j)
  {
    hide IsNew;
    if n > 0 {
      NewsAre(before, after, n - 1, c);
      assert (exists j :: 0 <= j < n && IsNewOf(before, after, c, j)) <==>
             IsNewOf(before, after, c, n - 1) || exists j :: 0 <= j < n - 1 && IsNewOf(before, after, c, j);
    }
  }

  lemma {:induction false} RemovesAre(before: seq<ParsedLine>, after: seq<ParsedLine>, n: nat, c: Change)
    requires n <= |before|
    ensures c in Removes(before, after, n) <==> exists i :: 0 <= i < n && IsRemoveOf(before, after, c, i)
  {
    hide Partner, Spare;
    if n > 0 {
      RemovesAre(before, after, n - 1, c);
      assert (exists i :: 0 <= i < n && IsRemoveOf(before, after, c, i)) <==>
             IsRemoveOf(before, after, c, n - 1) || exists i :: 0 <= i < n - 1 && IsRemoveOf(before, after, c, i);
    }
  }

  /** The proposals are one edit for each cited line whose partner says something else, one new line for each line that
      is new, one removal for each line that is removed, and nothing else. */
  lemma ProposalsAre(before: seq<ParsedLine>, after: seq<ParsedLine>, c: Change)
    ensures c in Proposals(before, after) <==>
            || (exists i :: 0 <= i < |before| && IsEditOf(before, after, c, i))
            || (exists j :: 0 <= j < |after| && IsNewOf(before, after, c, j))
            || (exists i :: 0 <= i < |before| && IsRemoveOf(before, after, c, i))
  {
    hide Sort, Edits, News, Removes, IsEditOf, IsNewOf, IsRemoveOf;
    EditsAre(before, after, |before|, c);
    NewsAre(before, after, |after|, c);
    RemovesAre(before, after, |before|, c);
    var front, back := Edits(before, after, |before|) + News(before, after, |after|), Removes(before, after, |before|);
    SortContents(ByLine(), front);
    SortContents(ByLine(), back);
    SameMembers(Sort(ByLine(), front), front);
    SameMembers(Sort(ByLine(), back), back);
  }

  /** Where a proposal stands: an edit at its new line, a removal at its old one. */
  predicate StandsAt(c: Change, line: nat) {
    match c
    case Edit(_, _, _, _, _, newLine) => newLine == line
    case New(_, newLine, _, _, _) => newLine == line
    case Remove(_, _, _, oldLine) => oldLine == line
  }

  /** Edits and new lines come first, in the new file's order; then removals, in the old file's. */
  lemma ProposalsInLineOrder(before: seq<ParsedLine>, after: seq<ParsedLine>, i: nat, j: nat, a: nat, b: nat)
    requires var cs := Proposals(before, after);
             i < j < |cs| && StandsAt(cs[i], a) && StandsAt(cs[j], b)
    ensures var cs := Proposals(before, after);
            if cs[i].Remove? then cs[j].Remove? && a <= b else cs[j].Remove? || a <= b
  {
    hide Sort, Edits, News, Removes;
    var front, back := Edits(before, after, |before|) + News(before, after, |after|), Removes(before, after, |before|);
    var fs, bs := Sort(ByLine(), front), Sort(ByLine(), back);
    assert TotalPreorder(ByLine());
    SortSorted(ByLine(), front);
    SortSorted(ByLine(), back);
    SortContents(ByLine(), front);
    SortContents(ByLine(), back);
    SameMembers(fs, front);
    SameMembers(bs, back);
    Kinds(before, after);
    assert forall h | 0 <= h < |fs| :: fs[h] in fs && !fs[h].Remove?;
    assert forall h | 0 <= h < |bs| :: bs[h] in bs && bs[h].Remove?;
    if j < |fs| {
      assert ByLine()(fs[i], fs[j]);
    } else if i >= |fs| {
      assert ByLine()(bs[i - |fs|], bs[j - |fs|]);
    }
  }

  lemma Kinds(before: seq<ParsedLine>, after: seq<ParsedLine>)
    ensures forall c | c in Edits(before, after, |before|) + News(before, after, |after|) :: !c.Remove?
    ensures forall c | c in Removes(before, after, |before|) :: c.Remove?
  {
    hide Edits, News, Removes, IsNew, IsRemoved, Partner;
    forall c
      ensures c in Edits(before, after, |before|) + News(before, after, |after|) ==> !c.Remove?
      ensures c in Removes(before, after, |before|) ==> c.Remove?
    {
      EditsAre(before, after, |before|, c);
      NewsAre(before, after, |after|, c);
      RemovesAre(before, after, |before|, c);
    }
  }
}
