/** The order in which `render` of packages/compiler/src/document.ts prints the included lines. */
module PrintOrder {
  import opened Text
  import opened Sorting
  import opened Model
  import opened Document
  import Budget
  import opened RoundTrip

  /** Sections in their order; in a section unscoped lines first, then each scope's, by scope key; then the line's own
      order. The empty key comes before every other. */
  predicate PrintsBefore(a: Entry, b: Entry) {
    || a.section < b.section
    || (a.section == b.section && a.group != b.group && LexLe(a.group, b.group))
    || (a.section == b.section && a.group == b.group && a.order < b.order)
  }

  /** Further down the file means not printed before. */
  ghost predicate InOrder(spots: seq<Spot>) {
    forall i, j | 0 <= i < j < |spots| ::
      spots[i].line < spots[j].line && !PrintsBefore(spots[j].entry, spots[i].entry)
  }

  lemma InOrderConcat(a: seq<Spot>, b: seq<Spot>)
    requires InOrder(a) && InOrder(b)
    requires forall x, y | x in a && y in b :: x.line < y.line && !PrintsBefore(y.entry, x.entry)
    ensures InOrder(a + b)
  {
    hide PrintsBefore;
    var c := a + b;
    forall i, j | 0 <= i < j < |c|
      ensures c[i].line < c[j].line && !PrintsBefore(c[j].entry, c[i].entry)
    {
      if i < |a| <= j { assert a[i] in a && b[j - |a|] in b; }
    }
  }

  predicate OrdersRise(es: seq<Entry>) { forall i, j | 0 <= i < j < |es| :: es[i].order <= es[j].order }

  lemma {:induction false} InGroupRises(es: seq<Entry>, group: string)
    requires OrdersRise(es)
    ensures OrdersRise(InGroup(es, group))
  {
    if es != [] {
      InGroupRises(es[1..], group);
      Budget.InGroupMembers(es[1..], group);
      var rest := InGroup(es[1..], group);
      forall j | 0 <= j < |rest|
        ensures es[0].order <= rest[j].order
      {
        assert rest[j] in rest;
        assert rest[j] in es[1..];
      }
    }
  }

  /** Lines of one section and scope. */
  lemma SpotsInOrder(es: seq<Entry>, n: nat, section: nat, group: string)
    requires OrdersRise(es) && forall e | e in es :: e.section == section && e.group == group
    ensures InOrder(Spots(es, n))
    ensures forall x | x in Spots(es, n) :: x.entry in es && n <= x.line < n + |es|
  {
    var spots := Spots(es, n);
    forall i | 0 <= i < |spots|
      ensures spots[i].entry in es && spots[i].line == n + i
    {
      assert spots[i].entry == es[i];
    }
  }

  /** Scope keys, each once and in order. */
  ghost predicate KeysRise(groups: seq<string>) {
    forall i, j | 0 <= i < j < |groups| :: groups[i] != groups[j] && LexLe(groups[i], groups[j])
  }

  lemma GroupsRise(es: seq<Entry>)
    ensures KeysRise(Sort(LexLe, GroupNames(es))) && "" !in Sort(LexLe, GroupNames(es))
  {
    hide Sort, LexLe, GroupNames;
    var names := GroupNames(es);
    Budget.GroupNamesExact(es);
    LexOrder();
    SortContents(LexLe, names);
    SortSorted(LexLe, names);
    NoDuplicatesPermuted(Sort(LexLe, names), names);
    SameMembers(Sort(LexLe, names), names);
  }

  lemma LexOrder()
    ensures TotalPreorder(LexLe)
  {
    hide LexLe;
    forall a, b
      ensures LexLe(a, b) || LexLe(b, a)
    {
      LexTotal(a, b);
    }
    forall a, b, c | LexLe(a, b) && LexLe(b, c)
      ensures LexLe(a, c)
    {
      LexTransitive(a, b, c);
    }
  }

  lemma {:induction false} GroupSpotsInOrder(es: seq<Entry>, groups: seq<string>, n: nat, section: nat)
    requires OrdersRise(es) && (forall e | e in es :: e.section == section) && KeysRise(groups)
    ensures InOrder(GroupSpots(es, groups, n))
    ensures forall x | x in GroupSpots(es, groups, n) :: x.entry in es && x.entry.group in groups && n <= x.line
    decreases |groups|
  {
    hide InGroup, LexLe, InOrder, Spots;
    if groups == [] {
      NoneInOrder();
    } else {
      var members := InGroup(es, groups[0]);
      Budget.InGroupMembers(es, groups[0]);
      InGroupRises(es, groups[0]);
      SpotsInOrder(members, n + 2, section, groups[0]);
      var m := if members == [] then n else n + 2 + |members|;
      GroupSpotsInOrder(es, groups[1..], m, section);
      if members != [] {
        forall x, y | x in Spots(members, n + 2) && y in GroupSpots(es, groups[1..], m)
          ensures x.line < y.line && !PrintsBefore(y.entry, x.entry)
        {
          LexTotal(x.entry.group, y.entry.group);
        }
        InOrderConcat(Spots(members, n + 2), GroupSpots(es, groups[1..], m));
      }
    }
  }

  lemma NoneInOrder()
    ensures InOrder([])
  {
  }

  lemma SectionSpotsInOrder(es: seq<Entry>, n: nat, section: nat)
    requires OrdersRise(es) && forall e | e in es :: e.section == section
    ensures InOrder(SectionSpots(es, n))
    ensures forall x | x in SectionSpots(es, n) :: x.entry.section == section
  {
    hide InGroup, LexLe, InOrder, Spots, GroupSpots, GroupNames, Sort;
    if es == [] {
      NoneInOrder();
    } else {
      var loose, groups := InGroup(es, ""), Sort(LexLe, GroupNames(es));
      Budget.InGroupMembers(es, "");
      InGroupRises(es, "");
      SpotsInOrder(loose, n + 2, section, "");
      GroupsRise(es);
      GroupSpotsInOrder(es, groups, n + 2 + |loose|, section);
      forall x, y | x in Spots(loose, n + 2) && y in GroupSpots(es, groups, n + 2 + |loose|)
        ensures x.line < y.line && !PrintsBefore(y.entry, x.entry)
      {
        NothingFirst(y.entry.group);
      }
      InOrderConcat(Spots(loose, n + 2), GroupSpots(es, groups, n + 2 + |loose|));
    }
  }

  lemma NothingFirst(group: string)
    ensures LexLe(group, "") ==> group == ""
  {
  }

  lemma ShownRises(included: seq<Entry>, i: nat)
    ensures OrdersRise(Shown(included, i)) && forall e | e in Shown(included, i) :: e.section == i
  {
    hide Sort, OfSection;
    assert TotalPreorder(ByOrder());
    SortSorted(ByOrder(), OfSection(included, i));
    SortContents(ByOrder(), OfSection(included, i));
    SameMembers(Shown(included, i), OfSection(included, i));
    Budget.OfSectionMembers(included, i);
    var es := Shown(included, i);
    assert forall a, b | 0 <= a < b < |es| :: ByOrder()(es[a], es[b]);
  }

  lemma {:induction false} BodyInOrder(sections: seq<Section>, included: seq<Entry>, i: nat, n: nat)
    ensures InOrder(BodySpots(sections, included, i, n))
    ensures forall x | x in BodySpots(sections, included, i, n) :: i <= x.entry.section && n <= x.line
    decreases |sections| - i
  {
    hide SectionSpots, SectionBlock, Shown, InOrder, ItemLine;
    if i >= |sections| {
      NoneInOrder();
    } else {
      var es := Shown(included, i);
      var block := SectionBlock(Markdown, sections[i].heading, es);
      ShownRises(included, i);
      SectionSpotsInOrder(es, n, i);
      SectionSpotsOnLines(sections[i].heading, es, n);
      BodyInOrder(sections, included, i + 1, n + |block|);
      InOrderConcat(SectionSpots(es, n), BodySpots(sections, included, i + 1, n + |block|));
    }
  }

  /** Of two included lines, the one printed further down is in a later section, under a later scope key, or of a later
      order. */
  lemma PrintedInOrder(sections: seq<Section>, layout: Layout, included: seq<Entry>)
    ensures var spots := BodySpots(sections, included, 0, |layout.head| + 1);
            forall i, j | 0 <= i < j < |spots| ::
              spots[i].line < spots[j].line && !PrintsBefore(spots[j].entry, spots[i].entry)
  {
    hide BodySpots, PrintsBefore;
    BodyInOrder(sections, included, 0, |layout.head| + 1);
  }
}
