/** What `select` of packages/compiler/src/select.ts accounts for. */
module SelectLaws {
  import opened Text
  import opened Sorting
  import opened Model
  import opened Select

  // ---------------------------------------------------------------------
  // Counting what heads a line
  // ---------------------------------------------------------------------

  /** How many lines are this memory's statement. */
  function Heads(es: seq<Entry>, ref: string): nat {
    if es == [] then 0 else
    var n := |es| - 1;
    Heads(es[..n], ref) + if es[n].ref == Some(ref) then 1 else 0
  }

  lemma {:induction false} HeadsConcat(a: seq<Entry>, b: seq<Entry>, ref: string)
    ensures Heads(a + b, ref) == Heads(a, ref) + Heads(b, ref)
  {
    if b == [] {
      assert a + b == a;
    } else {
      assert (a + b)[..|a + b| - 1] == a + b[..|b| - 1];
      HeadsConcat(a, b[..|b| - 1], ref);
    }
  }

  function HeadsScored(fs: seq<Scored>, ref: string): nat {
    if fs == [] then 0 else
    var n := |fs| - 1;
    HeadsScored(fs[..n], ref) + if fs[n].entry.ref == Some(ref) then 1 else 0
  }

  lemma {:induction false} HeadsScoredConcat(a: seq<Scored>, b: seq<Scored>, ref: string)
    ensures HeadsScored(a + b, ref) == HeadsScored(a, ref) + HeadsScored(b, ref)
  {
    if b == [] {
      assert a + b == a;
    } else {
      assert (a + b)[..|a + b| - 1] == a + b[..|b| - 1];
      HeadsScoredConcat(a, b[..|b| - 1], ref);
    }
  }

  /** Ranking keeps the refs. */
  lemma {:induction false} SameHeads(es: seq<Entry>, fs: seq<Scored>, ref: string)
    requires |es| == |fs| && forall i | 0 <= i < |es| :: es[i].ref == fs[i].entry.ref
    ensures Heads(es, ref) == HeadsScored(fs, ref)
  {
    if es != [] { SameHeads(es[..|es| - 1], fs[..|fs| - 1], ref); }
  }

  lemma {:induction false} NoHeads(es: seq<Entry>, ref: string)
    requires forall e | e in es :: e.ref != Some(ref)
    ensures Heads(es, ref) == 0
  {
    if es != [] { NoHeads(es[..|es| - 1], ref); }
  }

  function MemoryCount(items: seq<Item>, n: nat, ref: string): nat
    requires n <= |items|
  {
    if n == 0 then 0 else MemoryCount(items, n - 1, ref) + if items[n - 1] == Memory(ref) then 1 else 0
  }

  lemma {:induction false} MemoryHeads(r: Record, section: nat, items: seq<Item>, n: nat, f: Fact)
    requires n <= |items| && FactOf(r.facts, f.ref) == Some(f)
    ensures HeadsScored(MemoriesOf(r, section, items, n), f.ref) ==
            if Compiles(r, f) then MemoryCount(items, n, f.ref) else 0
  {
    hide Compiles;
    if n > 0 { MemoryHeads(r, section, items, n - 1, f); }
  }

  function RefCount(fs: seq<Fact>, n: nat, ref: string): nat
    requires n <= |fs|
  {
    if n == 0 then 0 else RefCount(fs, n - 1, ref) + if fs[n - 1].ref == ref then 1 else 0
  }

  lemma {:induction false} LateHeads(section: nat, order: nat, late: seq<Fact>, n: nat, ref: string)
    requires n <= |late|
    ensures HeadsScored(LateOf(section, order, late, n), ref) == RefCount(late, n, ref)
  {
    if n > 0 { LateHeads(section, order, late, n - 1, ref); }
  }

  lemma {:induction false} RefCountExact(fs: seq<Fact>, n: nat, f: Fact)
    requires n <= |fs| && forall g | g in fs && g.ref == f.ref :: g == f
    ensures RefCount(fs, n, f.ref) == multiset(fs[..n])[f]
  {
    if n > 0 {
      RefCountExact(fs, n - 1, f);
      assert fs[..n] == fs[..n - 1] + [fs[n - 1]];
      assert fs[n - 1] in fs;
    }
  }

  lemma LookupExact(facts: seq<Fact>, f: Fact)
    requires UniqueRefs(facts) && f in facts
    ensures FactOf(facts, f.ref) == Some(f)
  {
    RefsDetermine(facts);
  }

  /** An unplaced fact is in its own section's late list, once; any other fact in none. */
  lemma LateCount(r: Record, key: string, f: Fact)
    requires UniqueRefs(r.facts) && f in r.facts
    ensures RefCount(Late(r, key), |Late(r, key)|, f.ref) ==
            if f.section == key && !IsPlaced(r, f.ref) && Compiles(r, f) then 1 else 0
  {
    hide Sort, Filter, IsPlaced, Compiles;
    var picked, late := Filter(IsUnplaced(r), r.facts), Late(r, key);
    RefsDetermine(r.facts);
    SortContents(ByScore(), picked);
    SameMembers(Unplaced(r), picked);
    FilterMembers(IsUnplaced(r), r.facts);
    FilterMembers(InSection(key), Unplaced(r));
    RefCountExact(late, |late|, f);
    assert late[..|late|] == late;
    FilterCount(InSection(key), Unplaced(r), f);
    FilterCount(IsUnplaced(r), r.facts, f);
    NoDuplicatesCount(r.facts);
    assert f in multiset(r.facts);
  }

  lemma SectionHeads(r: Record, section: nat, s: BriefSection, f: Fact)
    requires UniqueRefs(r.facts) && f in r.facts
    ensures Heads(SectionEntries(r, section, s), f.ref) ==
            (if Compiles(r, f) then MemoryCount(s.items, |s.items|, f.ref) else 0)
            + (if f.section == s.key && !IsPlaced(r, f.ref) && Compiles(r, f) then 1 else 0)
  {
    hide Heads, HeadsScored, Late, IsPlaced, Compiles, MemoryCount, RefCount, Position, FillOrder, FactOf;
    var prose := ProseOf(r, section, s.items, |s.items|);
    var late, facts := Late(r, s.key), FactsOf(r, section, s);
    LookupExact(r.facts, f);
    MemoryHeads(r, section, s.items, |s.items|, f);
    LateHeads(section, |s.items|, late, |late|, f.ref);
    LateCount(r, s.key, f);
    HeadsScoredConcat(MemoriesOf(r, section, s.items, |s.items|), LateOf(section, |s.items|, late, |late|), f.ref);
    SameHeads(RankedFacts(facts, |prose|), facts, f.ref);
    ProseShape(r, section, s.items, |s.items|);
    NoHeads(RankedProse(prose), f.ref);
    HeadsConcat(RankedProse(prose), RankedFacts(facts, |prose|), f.ref);
  }

  // ---------------------------------------------------------------------
  // Over all sections
  // ---------------------------------------------------------------------

  function MemoryTotal(ss: seq<BriefSection>, n: nat, ref: string): nat
    requires n <= |ss|
  {
    if n == 0 then 0 else MemoryTotal(ss, n - 1, ref) + MemoryCount(ss[n - 1].items, |ss[n - 1].items|, ref)
  }

  function KeyTotal(ss: seq<BriefSection>, n: nat, key: string): nat
    requires n <= |ss|
  {
    if n == 0 then 0 else KeyTotal(ss, n - 1, key) + if ss[n - 1].key == key then 1 else 0
  }

  lemma {:induction false} EntriesHeads(r: Record, ss: seq<BriefSection>, n: nat, f: Fact)
    requires UniqueRefs(r.facts) && f in r.facts && n <= |ss|
    ensures Heads(Entries(r, ss, n), f.ref) ==
            (if Compiles(r, f) then MemoryTotal(ss, n, f.ref) else 0)
            + (if !IsPlaced(r, f.ref) && Compiles(r, f) then KeyTotal(ss, n, f.section) else 0)
  {
    hide Heads, SectionEntries, IsPlaced, Compiles, MemoryCount;
    if n > 0 {
      EntriesHeads(r, ss, n - 1, f);
      SectionHeads(r, n - 1, ss[n - 1], f);
      HeadsConcat(Entries(r, ss, n - 1), SectionEntries(r, n - 1, ss[n - 1]), f.ref);
    } else {
      NoHeads([], f.ref);
    }
  }

  lemma {:induction false} KeyTotalFilter(p: BriefSection -> bool, ss: seq<BriefSection>, key: string, kept: bool)
    requires forall s | s in ss && s.key == key :: p(s) == kept
    ensures var fs := Filter(p, ss); KeyTotal(fs, |fs|, key) == if kept then KeyTotal(ss, |ss|, key) else 0
  {
    if ss != [] {
      var n := |ss| - 1;
      var fs := Filter(p, ss[..n]);
      KeyTotalFilter(p, ss[..n], key, kept);
      KeyTotalPrefix(ss[..n], [ss[n]], n, key);
      assert ss == ss[..n] + [ss[n]];
      KeyTotalPrefix(fs, [ss[n]], |fs|, key);
    }
  }

  lemma {:induction false} KeyTotalPrefix(ss: seq<BriefSection>, more: seq<BriefSection>, n: nat, key: string)
    requires n <= |ss|
    ensures KeyTotal(ss + more, n, key) == KeyTotal(ss, n, key)
  {
    if n > 0 { KeyTotalPrefix(ss, more, n - 1, key); }
  }

  lemma {:induction false} KeyTotalConcat(ss: seq<BriefSection>, more: seq<BriefSection>, n: nat, key: string)
    requires n <= |more|
    ensures KeyTotal(ss + more, |ss| + n, key) == KeyTotal(ss, |ss|, key) + KeyTotal(more, n, key)
  {
    if n == 0 { KeyTotalPrefix(ss, more, |ss|, key); } else { KeyTotalConcat(ss, more, n - 1, key); }
  }

  lemma {:induction false} KeyTotalAny(ss: seq<BriefSection>, n: nat, key: string)
    requires n <= |ss|
    ensures KeyTotal(ss, n, key) > 0 <==> HasKey(ss[..n], key)
  {
    if n > 0 {
      KeyTotalAny(ss, n - 1, key);
      assert ss[..n] == ss[..n - 1] + [ss[n - 1]];
    }
  }

  lemma {:induction false} MemoryTotalPrefix(ss: seq<BriefSection>, more: seq<BriefSection>, n: nat, ref: string)
    requires n <= |ss|
    ensures MemoryTotal(ss + more, n, ref) == MemoryTotal(ss, n, ref)
  {
    hide MemoryCount;
    if n > 0 { MemoryTotalPrefix(ss, more, n - 1, ref); }
  }

  lemma {:induction false} MemoryCountAny(items: seq<Item>, n: nat, ref: string)
    requires n <= |items|
    ensures MemoryCount(items, n, ref) > 0 <==> Memory(ref) in items[..n]
  {
    if n > 0 {
      MemoryCountAny(items, n - 1, ref);
      assert items[..n] == items[..n - 1] + [items[n - 1]];
    }
  }

  predicate HasMemory(ss: seq<BriefSection>, p: BriefSection -> bool, ref: string) {
    exists s | s in ss :: p(s) && Memory(ref) in s.items
  }

  /** A memory placed at most once stays so in the sections that are kept. */
  lemma {:induction false} MemoryTotalFilter(p: BriefSection -> bool, ss: seq<BriefSection>, ref: string)
    ensures var fs := Filter(p, ss);
            && MemoryTotal(fs, |fs|, ref) <= MemoryTotal(ss, |ss|, ref)
            && (MemoryTotal(fs, |fs|, ref) > 0 <==> HasMemory(ss, p, ref))
  {
    hide MemoryCount;
    if ss != [] {
      var n := |ss| - 1;
      var fs, last := Filter(p, ss[..n]), ss[n];
      MemoryTotalFilter(p, ss[..n], ref);
      assert ss == ss[..n] + [last];
      MemoryTotalPrefix(ss[..n], [last], n, ref);
      MemoryTotalPrefix(fs, [last], |fs|, ref);
      MemoryCountAny(last.items, |last.items|, ref);
      assert last.items[..|last.items|] == last.items;
      HasMemoryStep(ss[..n], last, p, ref);
    }
  }

  lemma HasMemoryStep(ss: seq<BriefSection>, last: BriefSection, p: BriefSection -> bool, ref: string)
    ensures HasMemory(ss + [last], p, ref) <==> HasMemory(ss, p, ref) || (p(last) && Memory(ref) in last.items)
  {
  }

  /** Validation: refs and section keys are unique, a memory is placed once, and sections are known. */
  ghost predicate RecordOk(r: Record) {
    && UniqueRefs(r.facts)
    && (forall key :: KeyTotal(r.brief, |r.brief|, key) <= 1)
    && (forall ref :: MemoryTotal(r.brief, |r.brief|, ref) <= 1)
    && (forall f | f in r.facts :: HasKey(r.brief, f.section) || HasKey(WellKnown(), f.section))
  }

  predicate PlacedWhereWanted(r: Record, ref: string) { HasMemory(r.brief, IsWanted(r.target), ref) }

  /** Every fact's line appears exactly once or not at all: once if it compiles and is placed in a section
      the target wants, or isn't placed anywhere and its own section is wanted. */
  lemma ExactlyOnce(r: Record, f: Fact)
    requires RecordOk(r) && f in r.facts
    ensures Heads(Selected(r).entries, f.ref) ==
            if Compiles(r, f) && (PlacedWhereWanted(r, f.ref) || (!IsPlaced(r, f.ref) && Wanted(r.target, f.section)))
            then 1 else 0
  {
    hide Heads, Entries, Compiles, MemoryTotal, KeyTotal, Wanted, IsPlaced, Filter;
    var ss, all := WantedSections(r), AllSections(r);
    EntriesHeads(r, ss, |ss|, f);
    MemoriesWanted(r, f.ref);
    if PlacedWhereWanted(r, f.ref) { PlacedThere(r, f.ref); }
    if !IsPlaced(r, f.ref) && Compiles(r, f) { SectionOnce(r, f); }
    KeyTotalFilter(IsWanted(r.target), all, f.section, Wanted(r.target, f.section));
  }

  lemma PlacedThere(r: Record, ref: string)
    requires PlacedWhereWanted(r, ref)
    ensures IsPlaced(r, ref)
  {
    var s :| s in r.brief && Memory(ref) in s.items;
    assert Places(r.prose, Memory(ref), ref);
    assert PlacesAny(r.prose, s.items, ref);
  }

  lemma MemoriesWanted(r: Record, ref: string)
    requires RecordOk(r)
    ensures var ss := WantedSections(r); MemoryTotal(ss, |ss|, ref) == if PlacedWhereWanted(r, ref) then 1 else 0
  {
    hide Wanted, MemoryTotal, MemoryCount, WellKnown, Filter;
    var extra, all := Filter(IsExtra(r), WellKnown()), AllSections(r);
    FilterMembers(IsExtra(r), WellKnown());
    BareSections();
    MemoryTotalFilter(IsWanted(r.target), all, ref);
    EmptyTotal(r.brief, extra, |extra|, ref);
    assert HasMemory(all, IsWanted(r.target), ref) <==> PlacedWhereWanted(r, ref);
  }

  lemma BareSections()
    ensures forall s | s in WellKnown() :: s.items == []
    ensures forall key :: KeyTotal(WellKnown(), |WellKnown()|, key) <= 1
  {
    forall key: string
      ensures KeyTotal(WellKnown(), |WellKnown()|, key) <= 1
    {
      KnownOnce(key);
    }
  }

  lemma {:induction false} EmptyTotal(ss: seq<BriefSection>, extra: seq<BriefSection>, n: nat, ref: string)
    requires n <= |extra| && forall s | s in extra :: s.items == []
    ensures MemoryTotal(ss + extra, |ss| + n, ref) == MemoryTotal(ss, |ss|, ref)
  {
    if n == 0 { MemoryTotalPrefix(ss, extra, |ss|, ref); } else { EmptyTotal(ss, extra, n - 1, ref); }
  }

  /** The well-known keys differ. */
  lemma KnownOnce(key: string)
    ensures KeyTotal(WellKnown(), 5, key) <= 1
  {
    var ss := WellKnown();
    assert ss[0].key[1] == 'v' && ss[1].key[1] == 'e' && ss[2].key[1] == 'o' && ss[3].key[1] == 'p';
    assert ss[4].key[1] == 'r';
    assert forall i, j | 0 <= i < j < 5 :: ss[i].key != ss[j].key;
    DistinctOnce(ss, 5, key);
  }

  lemma {:induction false} DistinctOnce(ss: seq<BriefSection>, n: nat, key: string)
    requires n <= |ss| && forall i, j | 0 <= i < j < n :: ss[i].key != ss[j].key
    ensures KeyTotal(ss, n, key) <= 1
    ensures KeyTotal(ss, n, key) == 1 ==> exists i :: 0 <= i < n && ss[i].key == key
  {
    if n > 0 { DistinctOnce(ss, n - 1, key); }
  }

  /** A section that an unplaced fact needs is there once. */
  lemma SectionOnce(r: Record, f: Fact)
    requires RecordOk(r) && f in r.facts && !IsPlaced(r, f.ref) && Compiles(r, f)
    ensures KeyTotal(AllSections(r), |AllSections(r)|, f.section) == 1
  {
    hide Filter, Sort, IsPlaced, Compiles, KeyTotal, WellKnown;
    FilterMembers(IsUnplaced(r), r.facts);
    SortContents(ByScore(), Filter(IsUnplaced(r), r.facts));
    SameMembers(Unplaced(r), Filter(IsUnplaced(r), r.facts));
    assert f in Unplaced(r);
    var extra, known := Filter(IsExtra(r), WellKnown()), WellKnown();
    KeyTotalFilter(IsExtra(r), known, f.section, !HasKey(r.brief, f.section));
    KeyTotalConcat(r.brief, extra, |extra|, f.section);
    KeyTotalAny(r.brief, |r.brief|, f.section);
    KeyTotalAny(known, |known|, f.section);
    BareSections();
    assert r.brief[..|r.brief|] == r.brief && known[..|known|] == known;
  }

  // ---------------------------------------------------------------------
  // Orders and ranks
  // ---------------------------------------------------------------------

  /** Prose lines stand at their items' places. */
  lemma {:induction false} ProseShape(r: Record, section: nat, items: seq<Item>, n: nat)
    requires n <= |items|
    ensures forall e | e in ProseOf(r, section, items, n) ::
              e.ref == None && e.section == section && EntryOk(e) && OwnScope(e)
              && 1 <= e.order <= n && items[e.order - 1].Prose?
    ensures forall i, j | 0 <= i < j < |ProseOf(r, section, items, n)| ::
              ProseOf(r, section, items, n)[i].order < ProseOf(r, section, items, n)[j].order
  {
    if n > 0 { ProseShape(r, section, items, n - 1); }
  }

  /** A fact's line, but for its rank. */
  ghost predicate IsFactLine(r: Record, e: Entry, section: nat) {
    e.ref.Some? &&
    exists f | f in r.facts :: Compiles(r, f) && e.(rank := 0) == FactEntry(section, e.order, f)
  }

  lemma {:induction false} MemoryShape(r: Record, section: nat, items: seq<Item>, n: nat)
    requires n <= |items|
    ensures forall x | x in MemoriesOf(r, section, items, n) ::
              IsFactLine(r, x.entry, section) && 1 <= x.entry.order <= n && items[x.entry.order - 1].Memory?
    ensures forall i, j | 0 <= i < j < |MemoriesOf(r, section, items, n)| ::
              MemoriesOf(r, section, items, n)[i].entry.order < MemoriesOf(r, section, items, n)[j].entry.order
  {
    hide Compiles, ScopeKey;
    if n > 0 {
      MemoryShape(r, section, items, n - 1);
    }
  }

  lemma {:induction false} LateShape(r: Record, section: nat, order: nat, late: seq<Fact>, n: nat)
    requires n <= |late| && forall f | f in late :: f in r.facts && Compiles(r, f)
    ensures |LateOf(section, order, late, n)| == n
    ensures forall i | 0 <= i < n ::
              var e := LateOf(section, order, late, n)[i].entry; IsFactLine(r, e, section) && e.order == order + i + 1
  {
    hide Compiles, ScopeKey;
    if n > 0 {
      LateShape(r, section, order, late, n - 1);
      assert late[n - 1] in late;
    }
  }

  lemma LateCompiles(r: Record, key: string)
    ensures forall f | f in Late(r, key) :: f in r.facts && Compiles(r, f) && !IsPlaced(r, f.ref)
  {
    hide Sort, Filter, IsPlaced, Compiles;
    FilterMembers(IsUnplaced(r), r.facts);
    FilterMembers(InSection(key), Unplaced(r));
    SortContents(ByScore(), Filter(IsUnplaced(r), r.facts));
    SameMembers(Unplaced(r), Filter(IsUnplaced(r), r.facts));
  }

  /** The facts of a section, in the order they are printed. */
  lemma FactsShape(r: Record, section: nat, s: BriefSection)
    ensures forall x | x in FactsOf(r, section, s) ::
              IsFactLine(r, x.entry, section) && x.entry.order >= 1
              && (x.entry.order <= |s.items| ==> s.items[x.entry.order - 1].Memory?)
    ensures forall i, j | 0 <= i < j < |FactsOf(r, section, s)| ::
              FactsOf(r, section, s)[i].entry.order < FactsOf(r, section, s)[j].entry.order
  {
    hide IsFactLine, Late, MemoriesOf, LateOf;
    MemoryShape(r, section, s.items, |s.items|);
    LateCompiles(r, s.key);
    LateShape(r, section, |s.items|, Late(r, s.key), |Late(r, s.key)|);
  }

  /** The ranks are 0 to the number of lines less one: the prose in order, then the facts' lines. */
  ghost predicate RanksFill(prose: seq<Entry>, lines: seq<Entry>) {
    && (forall i | 0 <= i < |prose| :: prose[i].ref == None && prose[i].rank == i)
    && (forall i | 0 <= i < |lines| :: lines[i].ref.Some? && |prose| <= lines[i].rank < |prose| + |lines|)
    && (forall i, j | 0 <= i < j < |lines| :: lines[i].rank != lines[j].rank)
  }

  /** A lower rank means a higher score, or the same and an earlier place. */
  ghost predicate MostReadFirst(lines: seq<Entry>, facts: seq<Scored>) {
    && |lines| == |facts|
    && (forall i | 0 <= i < |facts| :: lines[i] == facts[i].entry.(rank := lines[i].rank))
    && (forall i, j | 0 <= i < |facts| && 0 <= j < |facts| && lines[i].rank < lines[j].rank ::
          facts[i].score > facts[j].score || (facts[i].score == facts[j].score && lines[i].order < lines[j].order))
  }

  ghost predicate OrdersDiffer(es: seq<Entry>) {
    forall i, j | 0 <= i < j < |es| :: es[i].order != es[j].order
  }

  /** Ranks fill a section from 0: its prose in order, then its facts, most-read first and as printed among equals.
      Orders tell all its lines apart. */
  lemma SectionRanks(r: Record, section: nat, s: BriefSection)
    ensures var es, facts := SectionEntries(r, section, s), FactsOf(r, section, s);
            && |facts| <= |es| && OrdersDiffer(es)
            && RanksFill(es[..|es| - |facts|], es[|es| - |facts|..])
            && MostReadFirst(es[|es| - |facts|..], facts)
  {
    hide ProseOf, FactsOf, FillOrder, Position, RanksFill, MostReadFirst, IsFactLine, EntryOk;
    var prose, facts := ProseOf(r, section, s.items, |s.items|), FactsOf(r, section, s);
    ProseShape(r, section, s.items, |s.items|);
    FactsShape(r, section, s);
    FactLines(r, facts, section);
    FactRanks(prose, facts);
    RankedOrders(prose, facts, s.items);
    var es, p := SectionEntries(r, section, s), |prose|;
    assert es[..p] == RankedProse(prose) && es[p..] == RankedFacts(facts, p);
  }

  lemma FactLines(r: Record, facts: seq<Scored>, section: nat)
    requires forall x | x in facts :: IsFactLine(r, x.entry, section)
    ensures forall x | x in facts :: x.entry.ref.Some?
  {
  }

  lemma FactRanks(prose: seq<Entry>, facts: seq<Scored>)
    requires forall e | e in prose :: e.ref == None
    requires forall x | x in facts :: x.entry.ref.Some?
    requires forall h, k | 0 <= h < k < |facts| :: facts[h].entry.order < facts[k].entry.order
    ensures RanksFill(RankedProse(prose), RankedFacts(facts, |prose|))
    ensures MostReadFirst(RankedFacts(facts, |prose|), facts)
  {
    hide Position, FillOrder;
    var lines := RankedFacts(facts, |prose|);
    forall i, j | 0 <= i < |facts| && 0 <= j < |facts|
      ensures |prose| <= lines[i].rank < |prose| + |facts|
      ensures lines[i].rank == lines[j].rank ==> i == j
      ensures lines[i].rank < lines[j].rank ==>
                facts[i].score > facts[j].score || (facts[i].score == facts[j].score && lines[i].order < lines[j].order)
    {
      FillPositions(facts, i, j);
    }
  }

  /** Prose stands at prose items, placed facts at memory items, late facts after them all. */
  lemma RankedOrders(prose: seq<Entry>, facts: seq<Scored>, items: seq<Item>)
    requires forall e | e in prose :: 1 <= e.order <= |items| && items[e.order - 1].Prose?
    requires forall x | x in facts ::
               x.entry.order >= 1 && (x.entry.order <= |items| ==> items[x.entry.order - 1].Memory?)
    requires forall h, k | 0 <= h < k < |prose| :: prose[h].order < prose[k].order
    requires forall h, k | 0 <= h < k < |facts| :: facts[h].entry.order < facts[k].entry.order
    ensures OrdersDiffer(RankedProse(prose) + RankedFacts(facts, |prose|))
  {
    hide Position, FillOrder;
    var p, es := |prose|, RankedProse(prose) + RankedFacts(facts, |prose|);
    assert forall i | 0 <= i < p :: es[i].order == prose[i].order && prose[i] in prose;
    assert forall i | p <= i < |es| :: es[i].order == facts[i - p].entry.order && facts[i - p] in facts;
  }

  lemma FillPositions(facts: seq<Scored>, i: nat, j: nat)
    requires i < |facts| && j < |facts|
    requires forall h, k | 0 <= h < k < |facts| :: facts[h].entry.order < facts[k].entry.order
    ensures var a, b := Position(FillOrder(facts), i), Position(FillOrder(facts), j);
            && a < |facts| && (a == b <==> i == j)
            && (a < b ==> facts[i].score > facts[j].score
                          || (facts[i].score == facts[j].score && facts[i].entry.order < facts[j].entry.order))
  {
    hide Sort, Position;
    FillOrderPermutes(facts);
    assert TotalPreorder(ByFill(facts));
    SortSorted(ByFill(facts), Indices(|facts|));
    var a, b := Position(FillOrder(facts), i), Position(FillOrder(facts), j);
    assert FillOrder(facts)[a] == i && FillOrder(facts)[b] == j;
    if a < b { assert ByFill(facts)(i, j); }
  }

  /** Every line that states a memory states a fact of the record that compiles; so no open fact appears where only
      kept ones may, and no stale one where stale ones are left out. */
  lemma {:induction false} LinesAreFacts(r: Record, ss: seq<BriefSection>, n: nat)
    requires n <= |ss|
    ensures forall e | e in Entries(r, ss, n) :: e.section < n && (e.ref.Some? ==> IsFactLine(r, e, e.section))
  {
    hide SectionEntries, IsFactLine;
    if n > 0 {
      LinesAreFacts(r, ss, n - 1);
      SectionLinesAreFacts(r, n - 1, ss[n - 1]);
    }
  }

  lemma SectionLinesAreFacts(r: Record, section: nat, s: BriefSection)
    ensures forall e | e in SectionEntries(r, section, s) ::
              e.section == section && (if e.ref.Some? then IsFactLine(r, e, section) else EntryOk(e) && OwnScope(e))
  {
    hide ProseOf, FactsOf, FillOrder, Position, Compiles, ScopeKey;
    var prose, facts := ProseOf(r, section, s.items, |s.items|), FactsOf(r, section, s);
    ProseShape(r, section, s.items, |s.items|);
    FactsShape(r, section, s);
    assert forall i | 0 <= i < |prose| :: prose[i] in prose;
    assert forall i | 0 <= i < |facts| :: facts[i] in facts;
  }

  /** What is selected can be composed: every line names one of the sections and its own scope. */
  lemma SelectedIsOk(r: Record)
    requires forall f | f in r.facts :: Globs(f.paths)
    ensures SelectionOk(Selected(r)) && OwnScopes(Selected(r))
  {
    var ss := WantedSections(r);
    EntriesOk(r, ss, |ss|);
  }

  lemma {:induction false} EntriesOk(r: Record, ss: seq<BriefSection>, n: nat)
    requires n <= |ss| && forall f | f in r.facts :: Globs(f.paths)
    ensures forall e | e in Entries(r, ss, n) :: EntryOk(e) && OwnScope(e) && e.section < n
  {
    hide SectionEntries, ScopeKey, Compiles, Globs;
    if n > 0 {
      EntriesOk(r, ss, n - 1);
      SectionLinesAreFacts(r, n - 1, ss[n - 1]);
    }
  }

  /** Nothing open where only kept facts may appear, and nothing stale where stale facts are left out. */
  lemma NothingLeftOutAppears(r: Record, e: Entry)
    requires e in Selected(r).entries && e.ref.Some?
    ensures exists f :: f in r.facts && e.ref == Some(f.ref) && e.refs == [f.ref] && e.text == f.text
                        && e.paths == f.paths && e.group == ScopeKey(f.paths)
                        && (e.marker == Some(InConflict) <==> f.conflict)
                        && (e.marker == Some(BeingVerified) <==> f.stale && !f.conflict)
                        && r.accepts(f) && !(r.target.keptOnly && f.status == Open) && !(r.target.omitStale && f.stale)
    ensures e.section < |Selected(r).sections| && Wanted(r.target, Selected(r).sections[e.section].key)
  {
    hide Entries, ScopeKey, Filter, Wanted;
    var ss := WantedSections(r);
    LinesAreFacts(r, ss, |ss|);
    FilterMembers(IsWanted(r.target), AllSections(r));
    assert ss[e.section] in ss;
  }

  /** A fact that only prose cites, in a file that takes no prose: it compiles, its section is wanted, and no line
      states it. The prose doesn't appear either. */
  lemma UntakenProseHides(r: Record, f: Fact)
    requires f == Fact("M-1", "a", "decisions", Kept, false, false, [], [], 0.0)
    requires r.brief == [BriefSection("decisions", "Decisions", [Prose("p", ["M-1"])])] && r.facts == [f]
    requires r.target == Target(None, false, false) && r.prose == Whole(false) && r.accepts(f)
    ensures RecordOk(r) && Compiles(r, f) && Wanted(r.target, f.section)
    ensures Heads(Selected(r).entries, f.ref) == 0 && Selected(r).entries == []
  {
    hide Selected, Heads;
    var s, item := r.brief[0], Prose("p", ["M-1"]);
    assert forall key :: KeyTotal(r.brief, 1, key) == KeyTotal(r.brief, 0, key) + if s.key == key then 1 else 0;
    assert forall ref :: MemoryCount(s.items, 1, ref) == MemoryCount(s.items, 0, ref);
    assert forall ref :: MemoryTotal(r.brief, 1, ref) == MemoryTotal(r.brief, 0, ref) + MemoryCount(s.items, 1, ref);
    assert s in r.brief && item in s.items && Places(r.prose, item, "M-1") && PlacesAny(r.prose, s.items, "M-1");
    assert "decisions" != "overview" by { assert "decisions"[0] != "overview"[0]; }
    assert !PlacedWhereWanted(r, f.ref);
    ExactlyOnce(r, f);
    NothingSelected(r, f);
  }

  lemma NothingSelected(r: Record, f: Fact)
    requires f.ref == "M-1" && r.facts == [f] && r.prose == Whole(false) && RecordOk(r)
    requires r.brief == [BriefSection("decisions", "Decisions", [Prose("p", ["M-1"])])] && IsPlaced(r, "M-1")
    ensures Selected(r).entries == []
  {
    hide Sort, Filter, IsPlaced, Compiles, WellKnown, Wanted;
    LateCompiles(r, "decisions");
    var ss := WantedSections(r);
    forall k | 0 <= k < |ss|
      ensures SectionEntries(r, k, ss[k]) == []
    {
      BareSection(r, k, ss[k]);
    }
    EmptyEntries(r, ss, |ss|);
  }

  lemma BareSection(r: Record, k: nat, s: BriefSection)
    requires r.prose == Whole(false) && s in WantedSections(r)
    requires forall b | b in r.brief :: forall item | item in b.items :: item.Prose?
    requires forall f | f in r.facts :: IsPlaced(r, f.ref)
    ensures SectionEntries(r, k, s) == []
  {
    hide Sort, Filter, IsPlaced, Compiles, WellKnown, Wanted, FillOrder, Position;
    FilterMembers(IsWanted(r.target), AllSections(r));
    FilterMembers(IsExtra(r), WellKnown());
    BareSections();
    NothingLate(r, s.key);
    OnlyProse(r, k, s.items, |s.items|);
  }

  lemma NothingLate(r: Record, key: string)
    requires forall f | f in r.facts :: IsPlaced(r, f.ref)
    ensures Late(r, key) == []
  {
    hide IsPlaced, Compiles;
    FilterNone(IsUnplaced(r), r.facts);
  }

  lemma {:induction false} FilterNone<T>(p: T -> bool, s: seq<T>)
    requires forall x | x in s :: !p(x)
    ensures Filter(p, s) == []
  {
    if s != [] { FilterNone(p, s[..|s| - 1]); }
  }

  lemma {:induction false} OnlyProse(r: Record, section: nat, items: seq<Item>, n: nat)
    requires n <= |items| && r.prose == Whole(false) && forall item | item in items :: item.Prose?
    ensures ProseOf(r, section, items, n) == [] && MemoriesOf(r, section, items, n) == []
  {
    if n > 0 {
      assert items[n - 1] in items;
      OnlyProse(r, section, items, n - 1);
    }
  }

  lemma {:induction false} EmptyEntries(r: Record, ss: seq<BriefSection>, n: nat)
    requires n <= |ss| && forall k | 0 <= k < |ss| :: SectionEntries(r, k, ss[k]) == []
    ensures Entries(r, ss, n) == []
  {
    hide SectionEntries;
    if n > 0 { EmptyEntries(r, ss, n - 1); }
  }
}
