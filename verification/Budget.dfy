/** The budget of packages/compiler/src/document.ts: the incremental count is the size
    of the rendered file, and the fill is greedy and maximal. */
module Budget {
  import opened Text
  import opened Sorting
  import opened Model
  import opened Document

  // ---------------------------------------------------------------------
  // What a section weighs
  // ---------------------------------------------------------------------

  function ItemSizer(u: Unit): Entry -> nat { (e: Entry) => Measure(u, [ItemLine(e)]) }

  function ScopeSizer(u: Unit, style: Style): string -> nat {
    (group: string) => ScopeSize(u, style, PathsOf(group))
  }

  lemma {:induction false} ItemsTotal(u: Unit, es: seq<Entry>)
    ensures Measure(u, ItemLines(es)) == Total(ItemSizer(u), es)
  {
    if es != [] {
      ItemsTotal(u, es[1..]);
      assert ItemLines(es) == [ItemLine(es[0])] + ItemLines(es[1..]);
      TotalConcat(LineSizer(u), [ItemLine(es[0])], ItemLines(es[1..]));
    }
  }

  function GroupTotals(f: Entry -> nat, es: seq<Entry>, groups: seq<string>): nat {
    if groups == [] then 0 else
    Total(f, InGroup(es, groups[0])) + GroupTotals(f, es, groups[1..])
  }

  lemma InGroupTotal(f: Entry -> nat, es: seq<Entry>, group: string)
    requires es != []
    ensures Total(f, InGroup(es, group)) ==
            When(es[0].group == group, f(es[0])) + Total(f, InGroup(es[1..], group))
  {
  }

  lemma {:induction false} GroupTotalsCons(f: Entry -> nat, es: seq<Entry>, groups: seq<string>)
    requires es != [] && NoDuplicates(groups)
    ensures GroupTotals(f, es, groups) ==
            When(es[0].group in groups, f(es[0])) + GroupTotals(f, es[1..], groups)
  {
    if groups != [] {
      GroupTotalsCons(f, es, groups[1..]);
      assert groups[0] !in groups[1..];
      InGroupTotal(f, es, groups[0]);
    }
  }

  lemma NoGroups()
    ensures InGroup([], "") == [] && GroupNames([]) == []
  {
  }

  /** Unscoped lines and the groups are all the lines, each once: any total over one is the
      total over the other. */
  lemma {:induction false} GroupsPartition(f: Entry -> nat, es: seq<Entry>, groups: seq<string>)
    requires NoDuplicates(groups) && "" !in groups
    requires forall e | e in es :: e.group == "" || e.group in groups
    ensures Total(f, InGroup(es, "")) + GroupTotals(f, es, groups) == Total(f, es)
  {
    if es == [] {
      EmptyGroupTotals(f, groups);
    } else {
      assert es[0] in es;
      GroupsPartition(f, es[1..], groups);
      GroupTotalsCons(f, es, groups);
      InGroupTotal(f, es, "");
    }
  }

  lemma {:induction false} EmptyGroupTotals(f: Entry -> nat, groups: seq<string>)
    ensures GroupTotals(f, [], groups) == 0
  {
    if groups != [] {
      EmptyGroupTotals(f, groups[1..]);
    }
  }

  lemma {:induction false} InGroupMembers(es: seq<Entry>, group: string)
    ensures forall e :: e in InGroup(es, group) <==> e in es && e.group == group
  {
    if es != [] {
      InGroupMembers(es[1..], group);
      assert es == [es[0]] + es[1..];
    }
  }

  lemma {:induction false} GroupNamesExact(es: seq<Entry>)
    ensures NoDuplicates(GroupNames(es)) && "" !in GroupNames(es)
    ensures forall g :: g in GroupNames(es) <==> g != "" && exists e :: e in es && e.group == g
  {
    if es != [] {
      var n := |es| - 1;
      GroupNamesExact(es[..n]);
      assert es == es[..n] + [es[n]];
    }
  }

  lemma {:induction false} GroupBlocksSize(u: Unit, style: Style, es: seq<Entry>, groups: seq<string>)
    requires forall e | e in es :: EntryOk(e)
    requires "" !in groups && forall g | g in groups :: exists e :: e in es && e.group == g
    ensures Measure(u, GroupBlocks(style, es, groups)) ==
            Total(ScopeSizer(u, style), groups) + GroupTotals(ItemSizer(u), es, groups)
  {
    if groups != [] {
      assert forall g | g in groups[1..] :: g in groups;
      GroupBlocksSize(u, style, es, groups[1..]);
      var members := InGroup(es, groups[0]);
      InGroupMembers(es, groups[0]);
      assert groups[0] in groups;
      assert members != [];
      assert members[0] in members;
      ScopeKeyInjective(members[0].paths);
      ItemsTotal(u, members);
      TotalConcat(LineSizer(u), ["", ScopeHeading(style, members[0].paths)], ItemLines(members));
      TotalConcat(LineSizer(u), GroupBlock(style, members), GroupBlocks(style, es, groups[1..]));
    }
  }

  /** A section: its heading if it has lines, each line, and each scope heading once. */
  function SectionSize(u: Unit, style: Style, heading: string, es: seq<Entry>): nat {
    When(es != [], Measure(u, SectionLines(style, heading)))
    + Total(ItemSizer(u), es) + Total(ScopeSizer(u, style), GroupNames(es))
  }

  lemma SectionBlockSize(u: Unit, style: Style, heading: string, es: seq<Entry>)
    requires forall e | e in es :: EntryOk(e)
    ensures Measure(u, SectionBlock(style, heading, es)) == SectionSize(u, style, heading, es)
  {
    if es == [] {
      NoGroups();
    } else {
      var names := GroupNames(es);
      var groups := Sort(LexLe, names);
      GroupNamesExact(es);
      SortContents(LexLe, names);
      SameMembers(groups, names);
      NoDuplicatesPermuted(groups, names);
      GroupBlocksSize(u, style, es, groups);
      GroupsPartition(ItemSizer(u), es, groups);
      TotalPermuted(ScopeSizer(u, style), groups, names);
      ItemsTotal(u, InGroup(es, ""));
      var opening, loose := SectionLines(style, heading), ItemLines(InGroup(es, ""));
      TotalConcat(LineSizer(u), opening, loose);
      TotalConcat(LineSizer(u), opening + loose, GroupBlocks(style, es, groups));
    }
  }

  /** A section weighs the same in any order. */
  lemma SectionSizePermuted(u: Unit, style: Style, heading: string, a: seq<Entry>, b: seq<Entry>)
    requires multiset(a) == multiset(b)
    ensures SectionSize(u, style, heading, a) == SectionSize(u, style, heading, b)
  {
    SameSize(a, b);
    SameMembers(a, b);
    TotalPermuted(ItemSizer(u), a, b);
    GroupNamesExact(a);
    GroupNamesExact(b);
    SameSet(GroupNames(a), GroupNames(b));
    TotalPermuted(ScopeSizer(u, style), GroupNames(a), GroupNames(b));
  }

  // ---------------------------------------------------------------------
  // Exact accounting
  // ---------------------------------------------------------------------

  predicate IncludedOk(sections: seq<Section>, es: seq<Entry>) {
    forall e | e in es :: EntryOk(e) && e.section < |sections|
  }

  lemma {:induction false} OfSectionMembers(es: seq<Entry>, i: nat)
    ensures forall e :: e in OfSection(es, i) <==> e in es && e.section == i
    ensures OfSection(es, i) != [] <==> HasSection(es, i)
  {
    if es != [] {
      var n := |es| - 1;
      OfSectionMembers(es[..n], i);
      assert es == es[..n] + [es[n]];
      if HasSection(es, i) {
        var k :| 0 <= k < |es| && es[k].section == i;
        assert k < n ==> es[..n][k].section == i;
      }
      if HasSection(es[..n], i) {
        var k :| 0 <= k < n && es[..n][k].section == i;
        assert es[k].section == i;
      }
    }
  }

  lemma HasGroupNames(es: seq<Entry>, i: nat, group: string)
    requires group != ""
    ensures group in GroupNames(OfSection(es, i)) <==> HasGroup(es, i, group)
  {
    OfSectionMembers(es, i);
    GroupNamesExact(OfSection(es, i));
    if HasGroup(es, i, group) {
      var k :| 0 <= k < |es| && es[k].section == i && es[k].group == group;
      assert es[k] in es;
    }
  }

  /** One more entry adds its cost to its own section and nothing to the others. */
  lemma SectionSizeStep(u: Unit, sections: seq<Section>, style: Style, es: seq<Entry>, e: Entry, i: nat)
    requires EntryOk(e) && e.section < |sections| && i < |sections|
    ensures SectionSize(u, style, sections[i].heading, OfSection(es + [e], i)) ==
            SectionSize(u, style, sections[i].heading, OfSection(es, i))
            + When(e.section == i, Cost(u, sections, style, es, e))
  {
    SectionGrows(es, e, i);
    if e.section == i {
      var prior, names := OfSection(es, i), GroupNames(OfSection(es, i));
      OfSectionMembers(es, i);
      TotalConcat(ItemSizer(u), prior, [e]);
      TotalOne(ItemSizer(u), e);
      var opens := e.group != "" && !HasGroup(es, i, e.group);
      var scope := When(opens, ScopeSize(u, style, e.paths));
      assert Total(ScopeSizer(u, style), GroupNames(prior + [e])) == Total(ScopeSizer(u, style), names) + scope by {
        if e.group != "" {
          HasGroupNames(es, i, e.group);
          ScopeKeyInjective(e.paths);
          TotalConcat(ScopeSizer(u, style), names, [e.group]);
          TotalOne(ScopeSizer(u, style), e.group);
        }
      }
    }
  }

  lemma SectionGrows(es: seq<Entry>, e: Entry, i: nat)
    ensures var prior := OfSection(es, i);
            && OfSection(es + [e], i) == (if e.section == i then prior + [e] else prior)
            && GroupNames(prior + [e]) == (if e.group != "" && e.group !in GroupNames(prior)
                                           then GroupNames(prior) + [e.group] else GroupNames(prior))
  {
    var prior := OfSection(es, i);
    assert (es + [e])[..|es|] == es;
    assert (prior + [e])[..|prior|] == prior;
  }

  lemma ShownSize(u: Unit, sections: seq<Section>, style: Style, es: seq<Entry>, i: nat)
    requires IncludedOk(sections, es) && i < |sections|
    ensures Measure(u, SectionBlock(style, sections[i].heading, Shown(es, i))) ==
            SectionSize(u, style, sections[i].heading, OfSection(es, i))
  {
    OfSectionMembers(es, i);
    SortContents(ByOrder(), OfSection(es, i));
    SameMembers(Shown(es, i), OfSection(es, i));
    SectionBlockSize(u, style, sections[i].heading, Shown(es, i));
    SectionSizePermuted(u, style, sections[i].heading, Shown(es, i), OfSection(es, i));
  }

  lemma BodySize(u: Unit, sections: seq<Section>, style: Style, es: seq<Entry>, i: nat)
    requires IncludedOk(sections, es) && i < |sections|
    ensures Measure(u, Body(sections, style, es, i)) ==
            SectionSize(u, style, sections[i].heading, OfSection(es, i))
            + Measure(u, Body(sections, style, es, i + 1))
  {
    hide SectionBlock, Shown, SectionSize;
    ShownSize(u, sections, style, es, i);
    TotalConcat(LineSizer(u), SectionBlock(style, sections[i].heading, Shown(es, i)),
                Body(sections, style, es, i + 1));
  }

  lemma BodyEnd(u: Unit, sections: seq<Section>, style: Style, es: seq<Entry>, i: nat)
    requires i >= |sections|
    ensures Measure(u, Body(sections, style, es, i)) == 0
  {
  }

  lemma {:induction false} BodyStep(u: Unit, sections: seq<Section>, style: Style, es: seq<Entry>, e: Entry, i: nat)
    requires IncludedOk(sections, es + [e])
    ensures e.section < |sections|
    ensures Measure(u, Body(sections, style, es + [e], i)) ==
            Measure(u, Body(sections, style, es, i))
            + When(i <= e.section, Cost(u, sections, style, es, e))
    decreases |sections| - i
  {
    hide Body, Measure, OfSection, SectionSize, Cost;
    assert (es + [e])[|es|] == e;
    if i >= |sections| {
      BodyEnd(u, sections, style, es, i);
      BodyEnd(u, sections, style, es + [e], i);
    } else {
      BodyStep(u, sections, style, es, e, i + 1);
      BodySize(u, sections, style, es, i);
      BodySize(u, sections, style, es + [e], i);
      SectionSizeStep(u, sections, style, es, e, i);
    }
  }

  /** Including one more entry, in whatever place it prints, adds exactly its cost. */
  lemma DocumentSizeStep(u: Unit, sections: seq<Section>, layout: Layout, es: seq<Entry>, e: Entry)
    requires IncludedOk(sections, es + [e])
    ensures e.section < |sections|
    ensures DocumentSize(u, sections, layout, es + [e]) ==
            DocumentSize(u, sections, layout, es) + Cost(u, sections, layout.style, es, e)
  {
    assert e in es + [e];
    BodyStep(u, sections, layout.style, es, e, 0);
    var before, after := Body(sections, layout.style, es, 0), Body(sections, layout.style, es + [e], 0);
    TotalConcat(LineSizer(u), layout.head, before);
    TotalConcat(LineSizer(u), layout.head, after);
    TotalConcat(LineSizer(u), layout.head + before, TailLines(layout.tail));
    TotalConcat(LineSizer(u), layout.head + after, TailLines(layout.tail));
  }

  /** Counting while filling is measuring the file, so the "compiler bug" error is thrown
      exactly when there is nothing at all to print. */
  lemma CountExact(u: Unit, sections: seq<Section>, layout: Layout, es: seq<Entry>)
    requires IncludedOk(sections, es)
    ensures StringSize(u, Content(DocumentLines(sections, layout, es))) == DocumentSize(u, sections, layout, es)
            <==> !(layout.head == [] && layout.tail == [] && es == [])
  {
    var lines := DocumentLines(sections, layout, es);
    if layout.head == [] && layout.tail == [] && es == [] {
      EmptyBody(sections, layout.style, 0);
      assert Content([]) == "\n" && Total(CharSizer(u), "\n") == 1;
    } else {
      if es != [] {
        var n := |es| - 1;
        assert es == es[..n] + [es[n]];
        DocumentSizeStep(u, sections, layout, es[..n], es[n]);
      }
      assert lines != [];
      ContentSize(u, lines);
    }
  }

  lemma {:induction false} EmptyBody(sections: seq<Section>, style: Style, i: nat)
    ensures Body(sections, style, [], i) == []
    decreases |sections| - i
  {
    if i < |sections| {
      EmptyBody(sections, style, i + 1);
    }
  }

  // ---------------------------------------------------------------------
  // The fill
  // ---------------------------------------------------------------------

  /** No head, no tail, and no entry that fits by itself. */
  predicate NothingPrints(selection: Selection, layout: Layout, limit: Limit) {
    && layout.head == [] && layout.tail == []
    && forall e | e in selection.entries :: !DocumentFits(selection.sections, layout, limit, [e])
  }

  /** The fill takes nothing exactly if no entry fits by itself. */
  lemma {:induction false} NothingKept(sections: seq<Section>, layout: Layout, limit: Limit, queue: seq<Entry>)
    ensures Greedy(sections, layout, limit, queue) == [] <==>
            forall e | e in queue :: !DocumentFits(sections, layout, limit, [e])
  {
    hide DocumentFits;
    if queue != [] {
      var n := |queue| - 1;
      NothingKept(sections, layout, limit, queue[..n]);
      assert forall e :: e in queue <==> e in queue[..n] || e == queue[n];
      assert [] + [queue[n]] == [queue[n]];
    }
  }

  /** A line that is longer than the limit, alone in a file without head and tail: one line feed is rendered, and
      nothing was counted. */
  lemma LoneLineThrows(selection: Selection, layout: Layout, limit: Limit, e: Entry)
    requires e == Entry(0, "", [], 1, 0, Some("M-1"), ["M-1"], "a", None)
    requires selection == Selection([Section("decisions", "Decisions")], [e])
    requires layout == Layout(Markdown, [], []) && limit == Limit(0, None)
    ensures SelectionOk(selection) && NothingPrints(selection, layout, limit)
    ensures DocumentSize(Bytes, selection.sections, layout, []) == 0
    ensures StringSize(Bytes, Content(DocumentLines(selection.sections, layout, []))) == 1
  {
    hide Cost, DocumentSize, ItemLine, IsGlob, HeadingSize;
    EmptySize(Bytes, selection.sections, layout);
    DocumentSizeStep(Bytes, selection.sections, layout, [], e);
    assert [] + [e] == [e];
    CostPositive(selection.sections, layout.style, [], e);
    EmptyFile(selection.sections, layout);
  }

  lemma CostPositive(sections: seq<Section>, style: Style, es: seq<Entry>, e: Entry)
    requires e.section < |sections|
    ensures Cost(Bytes, sections, style, es, e) > 0
  {
    hide ItemLine, HeadingSize, ScopeSize, HasSection, HasGroup;
    TotalOne(LineSizer(Bytes), ItemLine(e));
  }

  lemma EmptyFile(sections: seq<Section>, layout: Layout)
    requires layout.head == [] && layout.tail == []
    ensures StringSize(Bytes, Content(DocumentLines(sections, layout, []))) == 1
    ensures Measure(Bytes, layout.head) + Measure(Bytes, TailLines(layout.tail)) == 0
  {
    EmptyBody(sections, layout.style, 0);
    assert Content([]) == "\n" && Total(CharSizer(Bytes), "\n") == 1;
  }

  method Compose(selection: Selection, layout: Layout, limit: Limit) returns (doc: Composed)
    requires SelectionOk(selection)
    ensures var queue := Sort(FillOrder(), selection.entries);
            var included := Greedy(selection.sections, layout, limit, queue);
            doc == if NothingPrints(selection, layout, limit) then CompilerBug
                   else Composed(Content(DocumentLines(selection.sections, layout, included)), included,
                                 Passed(selection.sections, layout, limit, queue))
    ensures doc.Composed? ==>
              FilledInOrder(selection.sections, layout, limit, selection.entries, doc.included, doc.dropped)
  {
    hide Greedy, Passed, DocumentSize, OpenExact, HasSection, HasGroup, Sort, GroupId, NothingPrints,
      FilledInOrder, ItemLine, ScopeHeading, Content, DocumentLines, StringSize, FillOrder, EntryOk;
    var sections, style := selection.sections, layout.style;
    var bytes, chars := MeasureLines(layout.head);
    if layout.tail != [] {
      var b, c := MeasureLines([""] + layout.tail);
      bytes, chars := bytes + b, chars + c;
    }
    var openSections: set<nat>, openGroups: set<string> := {}, {};
    var included: seq<Entry>, dropped: seq<Entry> := [], [];
    var queue := Sort(FillOrder(), selection.entries);
    QueueOk(selection);
    EmptySize(Bytes, sections, layout);
    EmptySize(Chars, sections, layout);
    FillStart(sections, layout, limit);
    for i := 0 to |queue|
      invariant included == Greedy(sections, layout, limit, queue[..i])
      invariant dropped == Passed(sections, layout, limit, queue[..i])
      invariant IncludedOk(sections, included)
      invariant bytes == DocumentSize(Bytes, sections, layout, included)
      invariant chars == DocumentSize(Chars, sections, layout, included)
      invariant OpenExact(included, openSections, openGroups)
    {
      var e := queue[i];
      assert IncludedOk(sections, included + [e]);
      var costBytes, costChars := MeasureLines([ItemLine(e)]);
      OpenMeans(included, openSections, openGroups, e);
      if e.section !in openSections {
        var b, c := MeasureLines(SectionLines(style, sections[e.section].heading));
        costBytes, costChars := costBytes + b, costChars + c;
      }
      if e.group != "" && GroupId(e.section, e.group) !in openGroups {
        var b, c := MeasureLines(["", ScopeHeading(style, e.paths)]);
        costBytes, costChars := costBytes + b, costChars + c;
      }
      DocumentSizeStep(Bytes, sections, layout, included, e);
      DocumentSizeStep(Chars, sections, layout, included, e);
      FillStep(sections, layout, limit, queue, i);
      if !(bytes + costBytes <= limit.bytes && (limit.chars.None? || chars + costChars <= limit.chars.value)) {
        dropped := dropped + [e];
        continue;
      }
      bytes, chars := bytes + costBytes, chars + costChars;
      OpenGrows(included, openSections, openGroups, e);
      openSections := openSections + {e.section};
      openGroups := openGroups + {GroupId(e.section, e.group)};
      included := included + [e];
    }
    assert queue[..|queue|] == queue;
    var content := Render(selection, included, layout);
    CountExact(Bytes, sections, layout, included);
    NothingIncluded(selection, layout, limit);
    QueueFills(selection, layout, limit);
    if StringSize(Bytes, content) != bytes {
      return CompilerBug;
    }
    return Composed(content, included, dropped);
  }

  lemma NothingIncluded(selection: Selection, layout: Layout, limit: Limit)
    ensures NothingPrints(selection, layout, limit) <==>
            layout.head == [] && layout.tail == []
            && Greedy(selection.sections, layout, limit, Sort(FillOrder(), selection.entries)) == []
  {
    hide DocumentFits, Sort, Greedy;
    var queue := Sort(FillOrder(), selection.entries);
    SortContents(FillOrder(), selection.entries);
    SameMembers(queue, selection.entries);
    NothingKept(selection.sections, layout, limit, queue);
  }

  lemma QueueOk(selection: Selection)
    requires SelectionOk(selection)
    ensures IncludedOk(selection.sections, Sort(FillOrder(), selection.entries))
  {
    SortContents(FillOrder(), selection.entries);
    SameMembers(Sort(FillOrder(), selection.entries), selection.entries);
  }

  lemma EmptySize(u: Unit, sections: seq<Section>, layout: Layout)
    ensures DocumentSize(u, sections, layout, []) == Measure(u, layout.head) + Measure(u, TailLines(layout.tail))
  {
    EmptyBody(sections, layout.style, 0);
    TotalConcat(LineSizer(u), layout.head, TailLines(layout.tail));
    assert layout.head + [] == layout.head;
  }

  lemma FillStart(sections: seq<Section>, layout: Layout, limit: Limit)
    ensures Greedy(sections, layout, limit, []) == [] && Passed(sections, layout, limit, []) == []
    ensures OpenExact([], {}, {})
  {
  }

  lemma FillStep(sections: seq<Section>, layout: Layout, limit: Limit, queue: seq<Entry>, i: nat)
    requires i < |queue|
    ensures var kept := Greedy(sections, layout, limit, queue[..i]);
            var passed := Passed(sections, layout, limit, queue[..i]);
            if DocumentFits(sections, layout, limit, kept + [queue[i]])
            then Greedy(sections, layout, limit, queue[..i + 1]) == kept + [queue[i]]
                 && Passed(sections, layout, limit, queue[..i + 1]) == passed
            else Greedy(sections, layout, limit, queue[..i + 1]) == kept
                 && Passed(sections, layout, limit, queue[..i + 1]) == passed + [queue[i]]
  {
    assert queue[..i + 1][..i] == queue[..i];
  }

  /** The open sets record what the included entries opened. */
  ghost predicate OpenExact(included: seq<Entry>, sections: set<nat>, groups: set<string>) {
    && (forall s :: s in sections <==> HasSection(included, s))
    && (forall s: nat, g: string :: GroupId(s, g) in groups <==> HasGroup(included, s, g))
  }

  lemma OpenMeans(included: seq<Entry>, sections: set<nat>, groups: set<string>, e: Entry)
    requires OpenExact(included, sections, groups)
    ensures e.section in sections <==> HasSection(included, e.section)
    ensures GroupId(e.section, e.group) in groups <==> HasGroup(included, e.section, e.group)
  {
  }

  lemma OpenGrows(included: seq<Entry>, sections: set<nat>, groups: set<string>, e: Entry)
    requires OpenExact(included, sections, groups)
    ensures OpenExact(included + [e], sections + {e.section}, groups + {GroupId(e.section, e.group)})
  {
    hide GroupId;
    var grown := included + [e];
    forall s: nat
      ensures HasSection(grown, s) <==> HasSection(included, s) || s == e.section
    {
      HasGrows(included, e, s, "");
    }
    forall s: nat, g: string
      ensures HasGroup(grown, s, g) <==> HasGroup(included, s, g) || GroupId(s, g) == GroupId(e.section, e.group)
    {
      HasGrows(included, e, s, g);
      GroupIdInjective(s, g, e.section, e.group);
    }
  }

  lemma HasGrows(included: seq<Entry>, e: Entry, s: nat, g: string)
    ensures HasSection(included + [e], s) <==> HasSection(included, s) || s == e.section
    ensures HasGroup(included + [e], s, g) <==> HasGroup(included, s, g) || (s == e.section && g == e.group)
  {
    var grown := included + [e];
    assert grown[|included|] == e;
    assert forall k | 0 <= k < |included| :: grown[k] == included[k];
  }

  /** Every entry is kept or passed over, once. */
  lemma {:induction false} FillConserves(sections: seq<Section>, layout: Layout, limit: Limit, queue: seq<Entry>)
    ensures multiset(Greedy(sections, layout, limit, queue)) + multiset(Passed(sections, layout, limit, queue))
            == multiset(queue)
  {
    hide Greedy, Passed, DocumentFits;
    FillStart(sections, layout, limit);
    if queue != [] {
      var n := |queue| - 1;
      FillConserves(sections, layout, limit, queue[..n]);
      FillStep(sections, layout, limit, queue, n);
      assert queue[..n + 1] == queue;
      LastContents(queue);
    }
  }

  /** Headings only get cheaper, but never by more than was paid to open them. */
  lemma CostShrinks(u: Unit, sections: seq<Section>, style: Style, es: seq<Entry>, f: Entry, e: Entry)
    requires EntryOk(e) && EntryOk(f) && e.section < |sections| && f.section < |sections|
    ensures Cost(u, sections, style, es, f) + Cost(u, sections, style, es + [f], e) >=
            Cost(u, sections, style, es, e)
  {
    hide HasSection, HasGroup, Measure, Globs;
    HasGrows(es, f, e.section, e.group);
    ScopeKeyInjective(e.paths);
    ScopeKeyInjective(f.paths);
  }

  lemma FitsShrinks(sections: seq<Section>, layout: Layout, limit: Limit, es: seq<Entry>, f: Entry, e: Entry)
    requires IncludedOk(sections, es + [f]) && EntryOk(e) && e.section < |sections|
    requires DocumentFits(sections, layout, limit, es + [f] + [e])
    ensures DocumentFits(sections, layout, limit, es + [e])
  {
    hide DocumentSize, Cost;
    assert (es + [f])[|es|] == f;
    forall u: Unit
      ensures DocumentSize(u, sections, layout, es + [f] + [e]) >= DocumentSize(u, sections, layout, es + [e])
    {
      DocumentSizeStep(u, sections, layout, es, f);
      DocumentSizeStep(u, sections, layout, es + [f], e);
      DocumentSizeStep(u, sections, layout, es, e);
      CostShrinks(u, sections, layout.style, es, f, e);
    }
  }

  /** No entry the fill passed over would fit in the finished file. */
  lemma {:induction false} FillMaximal(sections: seq<Section>, layout: Layout, limit: Limit, queue: seq<Entry>,
                                       e: Entry)
    requires IncludedOk(sections, queue) && e in Passed(sections, layout, limit, queue)
    ensures !DocumentFits(sections, layout, limit, Greedy(sections, layout, limit, queue) + [e])
  {
    hide DocumentFits;
    var n := |queue| - 1;
    var kept := Greedy(sections, layout, limit, queue[..n]);
    FillConserves(sections, layout, limit, queue);
    FillConserves(sections, layout, limit, queue[..n]);
    assert e in multiset(queue);
    if e in Passed(sections, layout, limit, queue[..n]) {
      FillMaximal(sections, layout, limit, queue[..n], e);
      KeptOk(sections, layout, limit, queue);
      if DocumentFits(sections, layout, limit, kept + [queue[n]] + [e]) &&
         DocumentFits(sections, layout, limit, kept + [queue[n]]) {
        FitsShrinks(sections, layout, limit, kept, queue[n], e);
      }
    }
  }

  lemma KeptOk(sections: seq<Section>, layout: Layout, limit: Limit, queue: seq<Entry>)
    requires IncludedOk(sections, queue)
    ensures IncludedOk(sections, Greedy(sections, layout, limit, queue))
  {
    FillConserves(sections, layout, limit, queue);
    forall e | e in Greedy(sections, layout, limit, queue)
      ensures e in queue
    {
      assert e in multiset(queue);
    }
  }

  /** The finished file is within its limits exactly when its head and tail are. */
  lemma {:induction false} FillWithinLimit(sections: seq<Section>, layout: Layout, limit: Limit, queue: seq<Entry>)
    requires IncludedOk(sections, queue)
    ensures DocumentFits(sections, layout, limit, Greedy(sections, layout, limit, queue))
            <==> DocumentFits(sections, layout, limit, [])
  {
    if queue != [] {
      hide DocumentSize, Cost;
      var n := |queue| - 1;
      FillWithinLimit(sections, layout, limit, queue[..n]);
      KeptOk(sections, layout, limit, queue[..n]);
      var kept := Greedy(sections, layout, limit, queue[..n]);
      DocumentSizeStep(Bytes, sections, layout, kept, queue[n]);
      DocumentSizeStep(Chars, sections, layout, kept, queue[n]);
    }
  }

  // ---------------------------------------------------------------------
  // Which lines are in
  // ---------------------------------------------------------------------

  /** What is filled first: by rank, then by section, then by order. */
  predicate FillsBefore(a: Entry, b: Entry) {
    || a.rank < b.rank
    || (a.rank == b.rank && a.section < b.section)
    || (a.rank == b.rank && a.section == b.section && a.order < b.order)
  }

  predicate Rising(es: seq<Entry>) { forall i, j | 0 <= i < j < |es| :: !FillsBefore(es[j], es[i]) }

  /** The place of `d` among the included entries: none before it goes after `d`, and none after it before `d`. */
  predicate IsPlace(included: seq<Entry>, d: Entry, k: nat) {
    && k <= |included|
    && (forall i | 0 <= i < k :: !FillsBefore(d, included[i]))
    && (forall i | k <= i < |included| :: !FillsBefore(included[i], d))
  }

  /** At its place, `d` does not fit beside what was included by then. */
  ghost predicate IsDropped(sections: seq<Section>, layout: Layout, limit: Limit, included: seq<Entry>, d: Entry) {
    exists k: nat :: IsPlace(included, d, k) && !DocumentFits(sections, layout, limit, included[..k] + [d])
  }

  /** Each entry is taken in its turn if the document up to then fits with it. */
  ghost predicate FilledInOrder(sections: seq<Section>, layout: Layout, limit: Limit, es: seq<Entry>,
                                included: seq<Entry>, dropped: seq<Entry>) {
    && multiset(included) + multiset(dropped) == multiset(es)
    && Rising(included) && Rising(dropped)
    && (forall k | 0 <= k < |included| :: DocumentFits(sections, layout, limit, included[..k] + [included[k]]))
    && (forall d | d in dropped :: IsDropped(sections, layout, limit, included, d))
  }

  lemma QueueRises(es: seq<Entry>)
    ensures Rising(Sort(FillOrder(), es))
  {
    hide Sort;
    assert TotalPreorder(FillOrder());
    SortSorted(FillOrder(), es);
    var queue := Sort(FillOrder(), es);
    assert forall i, j | 0 <= i < j < |queue| :: FillOrder()(queue[i], queue[j]);
  }

  lemma {:induction false} GreedyFills(sections: seq<Section>, layout: Layout, limit: Limit, queue: seq<Entry>)
    requires Rising(queue)
    ensures FilledInOrder(sections, layout, limit, queue, Greedy(sections, layout, limit, queue),
                          Passed(sections, layout, limit, queue))
  {
    hide Greedy, Passed, DocumentFits, IsDropped, FillsBefore;
    FillStart(sections, layout, limit);
    FillConserves(sections, layout, limit, queue);
    if queue != [] {
      var n := |queue| - 1;
      GreedyFills(sections, layout, limit, queue[..n]);
      FillStep(sections, layout, limit, queue, n);
      assert queue[..n + 1] == queue;
      var kept, passed := Greedy(sections, layout, limit, queue[..n]), Passed(sections, layout, limit, queue[..n]);
      FillConserves(sections, layout, limit, queue[..n]);
      Members(kept, passed, queue[..n]);
      assert forall x | x in queue[..n] :: !FillsBefore(queue[n], x);
      assert forall i | 0 <= i < |kept| :: kept[i] in kept;
      assert forall i | 0 <= i < |passed| :: passed[i] in passed;
      if DocumentFits(sections, layout, limit, kept + [queue[n]]) {
        forall d | d in passed
          ensures IsDropped(sections, layout, limit, kept + [queue[n]], d)
        {
          DroppedStays(sections, layout, limit, kept, queue[n], d);
        }
        FitsSoFar(sections, layout, limit, kept, queue[n]);
      } else {
        DroppedNow(sections, layout, limit, kept, queue[n]);
      }
    }
  }

  lemma Members(a: seq<Entry>, b: seq<Entry>, es: seq<Entry>)
    requires multiset(a) + multiset(b) == multiset(es)
    ensures forall x :: x in es <==> x in a || x in b
  {
    assert forall x :: x in es <==> x in multiset(es);
    assert forall x :: x in a <==> x in multiset(a);
    assert forall x :: x in b <==> x in multiset(b);
  }

  lemma FitsSoFar(sections: seq<Section>, layout: Layout, limit: Limit, kept: seq<Entry>, e: Entry)
    requires forall k | 0 <= k < |kept| :: DocumentFits(sections, layout, limit, kept[..k] + [kept[k]])
    requires DocumentFits(sections, layout, limit, kept + [e])
    ensures var more := kept + [e];
            forall k | 0 <= k < |more| :: DocumentFits(sections, layout, limit, more[..k] + [more[k]])
  {
    hide DocumentFits;
    var more := kept + [e];
    assert more[..|kept|] == kept;
    assert forall k | 0 <= k < |kept| :: more[..k] == kept[..k];
  }

  lemma DroppedStays(sections: seq<Section>, layout: Layout, limit: Limit, kept: seq<Entry>, e: Entry, d: Entry)
    requires IsDropped(sections, layout, limit, kept, d) && !FillsBefore(e, d)
    ensures IsDropped(sections, layout, limit, kept + [e], d)
  {
    hide DocumentFits, FillsBefore;
    var k: nat :| IsPlace(kept, d, k) && !DocumentFits(sections, layout, limit, kept[..k] + [d]);
    assert (kept + [e])[..k] == kept[..k];
    assert IsPlace(kept + [e], d, k);
  }

  lemma DroppedNow(sections: seq<Section>, layout: Layout, limit: Limit, kept: seq<Entry>, d: Entry)
    requires !DocumentFits(sections, layout, limit, kept + [d])
    requires forall x | x in kept :: !FillsBefore(d, x)
    ensures IsDropped(sections, layout, limit, kept, d)
  {
    hide DocumentFits, FillsBefore;
    assert kept[..|kept|] == kept;
    assert IsPlace(kept, d, |kept|);
  }

  lemma QueueFills(selection: Selection, layout: Layout, limit: Limit)
    ensures var queue := Sort(FillOrder(), selection.entries);
            FilledInOrder(selection.sections, layout, limit, selection.entries,
                          Greedy(selection.sections, layout, limit, queue),
                          Passed(selection.sections, layout, limit, queue))
  {
    hide Greedy, Passed, DocumentFits, IsDropped, FillsBefore, Sort;
    QueueRises(selection.entries);
    SortContents(FillOrder(), selection.entries);
    GreedyFills(selection.sections, layout, limit, Sort(FillOrder(), selection.entries));
  }

  /** No two entries have the same rank, section and order. */
  predicate KeysDiffer(es: seq<Entry>) {
    forall i, j | 0 <= i < j < |es| :: FillsBefore(es[i], es[j]) || FillsBefore(es[j], es[i])
  }

  /** The included entries that go before `e`. */
  function Ahead(included: seq<Entry>, e: Entry): seq<Entry> {
    if included == [] then [] else
    var n := |included| - 1;
    if FillsBefore(included[n], e) then Ahead(included[..n], e) + [included[n]] else Ahead(included[..n], e)
  }

  lemma {:induction false} AheadOf(included: seq<Entry>, e: Entry, k: nat)
    requires k <= |included|
    requires forall i | 0 <= i < |included| :: FillsBefore(included[i], e) <==> i < k
    ensures Ahead(included, e) == included[..k]
  {
    hide FillsBefore;
    if included != [] {
      var n := |included| - 1;
      AheadOf(included[..n], e, if k <= n then k else n);
      if k <= n { assert included[..n][..k] == included[..k]; }
    }
  }

  lemma KeysTell(es: seq<Entry>, x: Entry, y: Entry)
    requires KeysDiffer(es) && x in es && y in es && x != y
    ensures FillsBefore(x, y) || FillsBefore(y, x)
  {
    var i :| 0 <= i < |es| && es[i] == x;
    var j :| 0 <= j < |es| && es[j] == y;
  }

  lemma OnceEach(es: seq<Entry>)
    requires KeysDiffer(es)
    ensures forall x :: multiset(es)[x] <= 1
  {
    NoDuplicatesCount(es);
  }

  /** An entry is in exactly if the file fits with it and the included entries that go before it. */
  lemma IncludedExactly(sections: seq<Section>, layout: Layout, limit: Limit, es: seq<Entry>,
                        included: seq<Entry>, dropped: seq<Entry>, e: Entry)
    requires FilledInOrder(sections, layout, limit, es, included, dropped) && KeysDiffer(es) && e in es
    ensures e in included <==> DocumentFits(sections, layout, limit, Ahead(included, e) + [e])
  {
    hide DocumentFits, FillsBefore, KeysDiffer, Ahead, IsDropped;
    Members(included, dropped, es);
    OnceEach(es);
    assert forall x :: multiset(included)[x] + multiset(dropped)[x] == multiset(es)[x];
    if e in included {
      var k: nat :| 0 <= k < |included| && included[k] == e;
      PlaceOf(es, included, e, k);
    } else {
      var k := DroppedAt(sections, layout, limit, included, e);
      PlaceOf(es, included, e, k);
    }
  }

  lemma DroppedAt(sections: seq<Section>, layout: Layout, limit: Limit, included: seq<Entry>, d: Entry)
    returns (k: nat)
    requires IsDropped(sections, layout, limit, included, d)
    ensures IsPlace(included, d, k) && !DocumentFits(sections, layout, limit, included[..k] + [d])
  {
    hide DocumentFits;
    k :| IsPlace(included, d, k) && !DocumentFits(sections, layout, limit, included[..k] + [d]);
  }

  lemma PlaceOf(es: seq<Entry>, included: seq<Entry>, e: Entry, k: nat)
    requires KeysDiffer(es) && e in es && (forall x | x in included :: x in es) && Rising(included)
    requires (k < |included| && included[k] == e) || (e !in included && IsPlace(included, e, k))
    requires forall x :: multiset(included)[x] <= 1
    ensures Ahead(included, e) == included[..k]
  {
    hide KeysDiffer, Ahead;
    NoDuplicatesCount(included);
    forall i | 0 <= i < |included|
      ensures FillsBefore(included[i], e) <==> i < k
    {
      assert included[i] in included;
      if included[i] != e { KeysTell(es, included[i], e); }
    }
    AheadOf(included, e, k);
  }

  /** A line is not left out for a later one: where a later line was taken, the dropped one would not have fitted. */
  lemma NoneTakenInstead(sections: seq<Section>, layout: Layout, limit: Limit, es: seq<Entry>,
                         included: seq<Entry>, dropped: seq<Entry>, d: Entry, j: nat)
    requires FilledInOrder(sections, layout, limit, es, included, dropped) && IncludedOk(sections, es)
    requires d in dropped && j < |included|
    requires d.rank < included[j].rank || FillsBefore(d, included[j])
    ensures !DocumentFits(sections, layout, limit, included[..j] + [d])
  {
    hide DocumentFits, IsDropped;
    Members(included, dropped, es);
    var k := DroppedAt(sections, layout, limit, included, d);
    assert k <= j;
    hide FillsBefore, IsPlace, EntryOk;
    if DocumentFits(sections, layout, limit, included[..j] + [d]) {
      FitsLess(sections, layout, limit, included, d, k, j);
    }
  }

  lemma {:induction false} FitsLess(sections: seq<Section>, layout: Layout, limit: Limit, included: seq<Entry>,
                                    d: Entry, k: nat, j: nat)
    requires k <= j <= |included| && IncludedOk(sections, included) && EntryOk(d) && d.section < |sections|
    requires DocumentFits(sections, layout, limit, included[..j] + [d])
    ensures DocumentFits(sections, layout, limit, included[..k] + [d])
    decreases j
  {
    hide DocumentFits;
    if k < j {
      assert included[..j] == included[..j - 1] + [included[j - 1]];
      FitsShrinks(sections, layout, limit, included[..j - 1], included[j - 1], d);
      FitsLess(sections, layout, limit, included, d, k, j - 1);
    }
  }
}
