/** packages/compiler/src/select.ts: which lines belong in a file, where they go, and which go first. */
module Select {
  import opened Text
  import opened Sorting
  import opened Model

  datatype Status = Kept | Open

  datatype Fact = Fact(ref: string, text: string, section: string, status: Status, stale: bool, conflict: bool,
                       paths: seq<string>, agents: seq<string>, score: real)

  datatype Item = Memory(ref: string) | Prose(text: string, cites: seq<string>)

  datatype BriefSection = BriefSection(key: string, heading: string, items: seq<Item>)

  /** All of the Brief's prose, none of it, or each line by what it cites. */
  datatype ProseMode = Whole(taken: bool) | Judged(judge: seq<string> -> bool)

  datatype Target = Target(sections: Option<seq<string>>, keptOnly: bool, omitStale: bool)

  /** A validated record, the file it is compiled for, and the adapter's choices. The facts
      come in any order. */
  datatype Record = Record(brief: seq<BriefSection>, facts: seq<Fact>, target: Target,
                           accepts: Fact -> bool, prose: ProseMode)

  predicate Wanted(target: Target, key: string) {
    && (match target.sections case Some(keys) => key in keys case None => key != "overview")
    && !(key == "open" && target.keptOnly)
  }

  predicate Compiles(r: Record, f: Fact) {
    && r.accepts(f)
    && !(f.status == Open && r.target.keptOnly)
    && !(f.stale && r.target.omitStale)
  }

  predicate TakesProse(mode: ProseMode, cites: seq<string>) {
    match mode case Whole(taken) => taken case Judged(judge) => judge(cites)
  }

  /** A fact that's placed stays out of the end of its section. Unjudged prose places what it
      cites even where none of it is taken. */
  predicate Represents(mode: ProseMode, cites: seq<string>) {
    match mode case Whole(_) => true case Judged(judge) => judge(cites)
  }

  function FactOf(facts: seq<Fact>, ref: string): (f: Option<Fact>)
    ensures f.Some? ==> f.value in facts && f.value.ref == ref
    ensures f.None? ==> forall g | g in facts :: g.ref != ref
  {
    if facts == [] then None else if facts[0].ref == ref then Some(facts[0]) else FactOf(facts[1..], ref)
  }

  // ---------------------------------------------------------------------
  // Placed and unplaced
  // ---------------------------------------------------------------------

  predicate Places(mode: ProseMode, item: Item, ref: string) {
    match item
    case Memory(m) => m == ref
    case Prose(_, cites) => Represents(mode, cites) && ref in cites
  }

  predicate PlacesAny(mode: ProseMode, items: seq<Item>, ref: string) {
    exists item | item in items :: Places(mode, item, ref)
  }

  /** Any section counts, also one that the target leaves out. */
  predicate IsPlaced(r: Record, ref: string) {
    exists s | s in r.brief :: PlacesAny(r.prose, s.items, ref)
  }

  function IsUnplaced(r: Record): Fact -> bool { (f: Fact) => !IsPlaced(r, f.ref) && Compiles(r, f) }

  /** Most-read first; the ref breaks ties. */
  function ByScore(): (Fact, Fact) -> bool {
    (a: Fact, b: Fact) => a.score > b.score || (a.score == b.score && LexLe(a.ref, b.ref))
  }

  function Unplaced(r: Record): seq<Fact> { Sort(ByScore(), Filter(IsUnplaced(r), r.facts)) }

  function WellKnown(): seq<BriefSection> {
    [BriefSection("overview", "What this is", []), BriefSection("decisions", "Decisions", []),
     BriefSection("conventions", "Conventions", []), BriefSection("open", "Open", []),
     BriefSection("preferences", "Preferences", [])]
  }

  predicate HasKey(ss: seq<BriefSection>, key: string) { exists s | s in ss :: s.key == key }

  function IsExtra(r: Record): BriefSection -> bool {
    (s: BriefSection) => !HasKey(r.brief, s.key) && exists f | f in Unplaced(r) :: f.section == s.key
  }

  function IsWanted(target: Target): BriefSection -> bool { (s: BriefSection) => Wanted(target, s.key) }

  /** The Brief's sections, then well-known ones that it lacks and an unplaced fact needs. */
  function AllSections(r: Record): seq<BriefSection> { r.brief + Filter(IsExtra(r), WellKnown()) }

  function WantedSections(r: Record): seq<BriefSection> { Filter(IsWanted(r.target), AllSections(r)) }

  // ---------------------------------------------------------------------
  // One section's entries
  // ---------------------------------------------------------------------

  function FactEntry(section: nat, order: nat, f: Fact): Entry {
    Entry(section, ScopeKey(f.paths), f.paths, order, 0, Some(f.ref), [f.ref], f.text,
          if f.conflict then Some(InConflict) else if f.stale then Some(BeingVerified) else None)
  }

  function ProseEntry(section: nat, order: nat, text: string, cites: seq<string>): Entry {
    Entry(section, "", [], order, 0, None, cites, text, None)
  }

  datatype Scored = Scored(entry: Entry, score: real)

  function ProseOf(r: Record, section: nat, items: seq<Item>, n: nat): seq<Entry>
    requires n <= |items|
  {
    if n == 0 then []
    else if items[n - 1].Prose? && TakesProse(r.prose, items[n - 1].cites)
    then ProseOf(r, section, items, n - 1) + [ProseEntry(section, n, items[n - 1].text, items[n - 1].cites)]
    else ProseOf(r, section, items, n - 1)
  }

  /** The fact that an item compiles as. */
  function Compiled(r: Record, item: Item): Option<Fact> {
    match item
    case Prose(_, _) => None
    case Memory(ref) =>
      match FactOf(r.facts, ref)
      case Some(f) => if Compiles(r, f) then Some(f) else None
      case None => None
  }

  function MemoriesOf(r: Record, section: nat, items: seq<Item>, n: nat): seq<Scored>
    requires n <= |items|
  {
    if n == 0 then [] else
    match Compiled(r, items[n - 1])
    case Some(f) => MemoriesOf(r, section, items, n - 1) + [Scored(FactEntry(section, n, f), f.score)]
    case None => MemoriesOf(r, section, items, n - 1)
  }

  function LateOf(section: nat, order: nat, late: seq<Fact>, n: nat): seq<Scored>
    requires n <= |late|
  {
    if n == 0 then []
    else LateOf(section, order, late, n - 1) + [Scored(FactEntry(section, order + n, late[n - 1]), late[n - 1].score)]
  }

  function InSection(key: string): Fact -> bool { (f: Fact) => f.section == key }

  function Late(r: Record, key: string): seq<Fact> { Filter(InSection(key), Unplaced(r)) }

  function FactsOf(r: Record, section: nat, s: BriefSection): seq<Scored> {
    MemoriesOf(r, section, s.items, |s.items|) + LateOf(section, |s.items|, Late(r, s.key), |Late(r, s.key)|)
  }

  function Indices(n: nat): seq<nat> { seq(n, i requires 0 <= i < n => i) }

  /** By score, and as listed among equals. */
  function ByFill(facts: seq<Scored>): (nat, nat) -> bool {
    (i: nat, j: nat) =>
      if i < |facts| && j < |facts|
      then facts[i].score > facts[j].score
           || (facts[i].score == facts[j].score && facts[i].entry.order <= facts[j].entry.order)
      else i <= j
  }

  function FillOrder(facts: seq<Scored>): seq<nat> { Sort(ByFill(facts), Indices(|facts|)) }

  /** The first position of `x`, or the length. */
  function Position(xs: seq<nat>, x: nat): (i: nat)
    ensures i <= |xs| && (i < |xs| ==> xs[i] == x)
    ensures i == |xs| <==> x !in xs
  {
    if xs == [] || xs[0] == x then 0 else 1 + Position(xs[1..], x)
  }

  function RankedProse(prose: seq<Entry>): seq<Entry> {
    seq(|prose|, i requires 0 <= i < |prose| => prose[i].(rank := i))
  }

  function RankedFacts(facts: seq<Scored>, base: nat): seq<Entry> {
    seq(|facts|, i requires 0 <= i < |facts| => facts[i].entry.(rank := base + Position(FillOrder(facts), i)))
  }

  function SectionEntries(r: Record, section: nat, s: BriefSection): seq<Entry> {
    var prose := ProseOf(r, section, s.items, |s.items|);
    RankedProse(prose) + RankedFacts(FactsOf(r, section, s), |prose|)
  }

  function Entries(r: Record, ss: seq<BriefSection>, n: nat): seq<Entry>
    requires n <= |ss|
  {
    if n == 0 then [] else Entries(r, ss, n - 1) + SectionEntries(r, n - 1, ss[n - 1])
  }

  function Headings(ss: seq<BriefSection>): seq<Section> {
    seq(|ss|, i requires 0 <= i < |ss| => Section(ss[i].key, ss[i].heading))
  }

  function Selected(r: Record): Selection {
    var ss := WantedSections(r);
    Selection(Headings(ss), Entries(r, ss, |ss|))
  }

  // ---------------------------------------------------------------------
  // `select`, with its growing lists
  // ---------------------------------------------------------------------

  lemma PlacesStep(mode: ProseMode, items: seq<Item>, j: nat)
    requires j < |items|
    ensures forall ref :: PlacesAny(mode, items[..j + 1], ref) <==>
                          PlacesAny(mode, items[..j], ref) || Places(mode, items[j], ref)
  {
    assert items[..j + 1] == items[..j] + [items[j]];
  }

  method PlacedRefs(r: Record) returns (placed: set<string>)
    ensures forall ref :: ref in placed <==> IsPlaced(r, ref)
  {
    placed := {};
    for i := 0 to |r.brief|
      invariant forall ref :: ref in placed <==>
                  exists s | s in r.brief[..i] :: PlacesAny(r.prose, s.items, ref)
    {
      var items := r.brief[i].items;
      ghost var before := placed;
      for j := 0 to |items|
        invariant forall ref :: ref in placed <==>
                    ref in before || PlacesAny(r.prose, items[..j], ref)
      {
        PlacesStep(r.prose, items, j);
        match items[j] {
          case Memory(ref) => placed := placed + {ref};
          case Prose(_, cites) =>
            if Represents(r.prose, cites) { placed := placed + set c | c in cites; }
        }
      }
      assert items[..|items|] == items;
      assert r.brief[..i + 1] == r.brief[..i] + [r.brief[i]];
    }
    assert r.brief[..|r.brief|] == r.brief;
  }

  method RankFacts(facts: seq<Scored>, base: nat) returns (entries: seq<Entry>)
    ensures entries == RankedFacts(facts, base)
  {
    hide Sort, Position;
    var n := |facts|;
    entries := seq(n, i requires 0 <= i < n => facts[i].entry);
    var filled := FillOrder(facts);
    FillOrderPermutes(facts);
    for i := 0 to n
      invariant |entries| == n
      invariant forall j | 0 <= j < n :: entries[j] ==
                  if Position(filled, j) < i then facts[j].entry.(rank := base + Position(filled, j))
                  else facts[j].entry
    {
      var j := filled[i];
      PositionOf(filled, i);
      forall k | 0 <= k < n && Position(filled, k) == i
        ensures k == j
      {
      }
      entries := entries[j := entries[j].(rank := base + i)];
    }
  }

  lemma {:induction false} PositionOf(xs: seq<nat>, i: nat)
    requires NoDuplicates(xs) && i < |xs|
    ensures Position(xs, xs[i]) == i
  {
    if i > 0 {
      assert xs[0] != xs[i];
      NoDuplicatesCons(xs);
      PositionOf(xs[1..], i - 1);
    }
  }

  lemma IndicesDistinct(n: nat)
    ensures NoDuplicates(Indices(n)) && forall i: nat :: i in Indices(n) <==> i < n
  {
    forall i: nat
      ensures i in Indices(n) <==> i < n
    {
      if i < n { assert Indices(n)[i] == i; }
    }
  }

  /** The fill order lists every index once. */
  lemma FillOrderPermutes(facts: seq<Scored>)
    ensures |FillOrder(facts)| == |facts| && NoDuplicates(FillOrder(facts))
    ensures forall i: nat :: i in FillOrder(facts) <==> i < |facts|
  {
    hide Sort;
    var all := Indices(|facts|);
    IndicesDistinct(|facts|);
    SortContents(ByFill(facts), all);
    NoDuplicatesPermuted(FillOrder(facts), all);
    SameMembers(FillOrder(facts), all);
  }

  method ReadSection(r: Record, unplaced: seq<Fact>, s: BriefSection, index: nat) returns (entries: seq<Entry>)
    requires unplaced == Unplaced(r)
    ensures entries == SectionEntries(r, index, s)
  {
    hide Sort, Position, Compiles, FactOf;
    var prose: seq<Entry>, facts: seq<Scored> := [], [];
    var order := 0;
    for i := 0 to |s.items|
      invariant order == i
      invariant prose == ProseOf(r, index, s.items, i)
      invariant facts == MemoriesOf(r, index, s.items, i)
    {
      var item := s.items[i];
      order := order + 1;
      if item.Prose? {
        if TakesProse(r.prose, item.cites) {
          prose := prose + [ProseEntry(index, order, item.text, item.cites)];
        }
        continue;
      }
      var fact := FactOf(r.facts, item.ref);
      if fact.None? || !Compiles(r, fact.value) { continue; }
      facts := facts + [Scored(FactEntry(index, order, fact.value), fact.value.score)];
    }
    var late := Filter(InSection(s.key), unplaced);
    ghost var placed := facts;
    for i := 0 to |late|
      invariant order == |s.items| + i
      invariant facts == placed + LateOf(index, |s.items|, late, i)
    {
      order := order + 1;
      facts := facts + [Scored(FactEntry(index, order, late[i]), late[i].score)];
    }
    var ranked := RankFacts(facts, |prose|);
    ghost var unranked := prose;
    for i := 0 to |prose|
      invariant |prose| == |unranked|
      invariant forall j | 0 <= j < |prose| :: prose[j] == if j < i then unranked[j].(rank := j) else unranked[j]
    {
      prose := prose[i := prose[i].(rank := i)];
    }
    assert prose == RankedProse(unranked);
    entries := prose + ranked;
  }

  lemma {:induction false} EntriesPrefix(r: Record, ss: seq<BriefSection>, more: seq<BriefSection>, n: nat)
    requires n <= |ss|
    ensures Entries(r, ss + more, n) == Entries(r, ss, n)
  {
    hide SectionEntries;
    if n > 0 { EntriesPrefix(r, ss, more, n - 1); }
  }

  lemma SelectedStep(r: Record, ss: seq<BriefSection>, s: BriefSection)
    ensures Headings(ss + [s]) == Headings(ss) + [Section(s.key, s.heading)]
    ensures Entries(r, ss + [s], |ss| + 1) == Entries(r, ss, |ss|) + SectionEntries(r, |ss|, s)
  {
    hide SectionEntries;
    EntriesPrefix(r, ss, [s], |ss|);
  }

  /** `select`. */
  method SelectLines(r: Record) returns (sel: Selection)
    ensures sel == Selected(r)
  {
    hide Sort, Entries, SectionEntries, IsPlaced, Compiles, Filter, Wanted, WellKnown, Headings;
    var placed := PlacedRefs(r);
    var open := (f: Fact) => f.ref !in placed && Compiles(r, f);
    FilterAgrees(open, IsUnplaced(r), r.facts);
    var unplaced := Sort(ByScore(), Filter(open, r.facts));
    var briefKeys := set s | s in r.brief :: s.key;
    var isExtra := (s: BriefSection) => s.key !in briefKeys && exists f | f in unplaced :: f.section == s.key;
    FilterAgrees(isExtra, IsExtra(r), WellKnown());
    var all := r.brief + Filter(isExtra, WellKnown());
    sel := Selection([], []);
    ghost var ss: seq<BriefSection> := [];
    SelectedStart(r);
    for i := 0 to |all|
      invariant ss == Filter(IsWanted(r.target), all[..i])
      invariant sel == Selection(Headings(ss), Entries(r, ss, |ss|))
    {
      FilterStep(IsWanted(r.target), all, i);
      if !Wanted(r.target, all[i].key) { continue; }
      var index := |sel.sections|;
      HeadingsLength(ss);
      var entries := ReadSection(r, unplaced, all[i], index);
      SelectedStep(r, ss, all[i]);
      sel := Selection(sel.sections + [Section(all[i].key, all[i].heading)], sel.entries + entries);
      ss := ss + [all[i]];
    }
    assert all[..|all|] == all;
  }

  lemma HeadingsLength(ss: seq<BriefSection>)
    ensures |Headings(ss)| == |ss|
  {
  }

  lemma SelectedStart(r: Record)
    ensures Filter(IsWanted(r.target), []) == [] && Headings([]) == [] && Entries(r, [], 0) == []
  {
  }

  // ---------------------------------------------------------------------
  // The order of the facts doesn't matter
  // ---------------------------------------------------------------------

  lemma FactsPermuted(p: Fact -> bool, a: seq<Fact>, b: seq<Fact>)
    requires multiset(a) == multiset(b)
    ensures multiset(Filter(p, a)) == multiset(Filter(p, b))
  {
    forall f
      ensures multiset(Filter(p, a))[f] == multiset(Filter(p, b))[f]
    {
      FilterCount(p, a, f);
      FilterCount(p, b, f);
    }
  }

  /** Validation: no two facts have a ref. */
  ghost predicate UniqueRefs(facts: seq<Fact>) {
    forall i, j | 0 <= i < j < |facts| :: facts[i].ref != facts[j].ref
  }

  lemma RefsDetermine(facts: seq<Fact>)
    requires UniqueRefs(facts)
    ensures NoDuplicates(facts) && forall f, g | f in facts && g in facts && f.ref == g.ref :: f == g
  {
    forall f, g | f in facts && g in facts && f.ref == g.ref
      ensures f == g
    {
      var i :| 0 <= i < |facts| && facts[i] == f;
      var j :| 0 <= j < |facts| && facts[j] == g;
      assert i == j;
    }
  }

  lemma SameLookup(a: seq<Fact>, b: seq<Fact>, ref: string)
    requires UniqueRefs(a) && multiset(a) == multiset(b)
    ensures FactOf(a, ref) == FactOf(b, ref)
  {
    RefsDetermine(a);
    SameMembers(a, b);
  }

  lemma ScoreOrder()
    ensures TotalPreorder(ByScore())
  {
    forall x: Fact, y: Fact
      ensures ByScore()(x, y) || ByScore()(y, x)
    {
      LexTotal(x.ref, y.ref);
    }
    forall x: Fact, y: Fact, z: Fact | ByScore()(x, y) && ByScore()(y, z)
      ensures ByScore()(x, z)
    {
      if x.score == y.score == z.score { LexTransitive(x.ref, y.ref, z.ref); }
    }
  }

  lemma ScoreOrderStrict(facts: seq<Fact>, some: seq<Fact>)
    requires UniqueRefs(facts) && forall f | f in some :: f in facts
    ensures Antisymmetric(ByScore(), some)
  {
    RefsDetermine(facts);
    forall x, y | x in some && y in some && ByScore()(x, y) && ByScore()(y, x)
      ensures x == y
    {
      LexTotal(x.ref, y.ref);
    }
  }

  lemma SameUnplaced(r: Record, facts: seq<Fact>)
    requires UniqueRefs(r.facts) && multiset(facts) == multiset(r.facts)
    ensures Unplaced(r.(facts := facts)) == Unplaced(r)
  {
    hide Sort, Filter;
    var q := r.(facts := facts);
    FilterAgrees(IsUnplaced(q), IsUnplaced(r), facts);
    FactsPermuted(IsUnplaced(r), r.facts, facts);
    FilterMembers(IsUnplaced(r), r.facts);
    ScoreOrder();
    ScoreOrderStrict(r.facts, Filter(IsUnplaced(r), r.facts));
    SortPermuted(ByScore(), Filter(IsUnplaced(r), r.facts), Filter(IsUnplaced(r), facts));
  }

  lemma {:induction false} SameItems(r: Record, facts: seq<Fact>, section: nat, items: seq<Item>, n: nat)
    requires UniqueRefs(r.facts) && multiset(facts) == multiset(r.facts) && n <= |items|
    ensures MemoriesOf(r.(facts := facts), section, items, n) == MemoriesOf(r, section, items, n)
    ensures ProseOf(r.(facts := facts), section, items, n) == ProseOf(r, section, items, n)
  {
    hide FactOf;
    if n > 0 {
      SameItems(r, facts, section, items, n - 1);
      if items[n - 1].Memory? { SameLookup(r.facts, facts, items[n - 1].ref); }
    }
  }

  lemma {:induction false} SameEntries(r: Record, facts: seq<Fact>, ss: seq<BriefSection>, n: nat)
    requires UniqueRefs(r.facts) && multiset(facts) == multiset(r.facts) && n <= |ss|
    ensures Entries(r.(facts := facts), ss, n) == Entries(r, ss, n)
  {
    hide MemoriesOf, ProseOf, Unplaced, LateOf, RankedFacts, RankedProse;
    if n > 0 {
      SameEntries(r, facts, ss, n - 1);
      SameItems(r, facts, n - 1, ss[n - 1].items, |ss[n - 1].items|);
      SameUnplaced(r, facts);
    }
  }

  /** `select` is a function of the record: listing the facts in another order changes nothing. */
  lemma OrderOfFactsIsFree(r: Record, facts: seq<Fact>)
    requires UniqueRefs(r.facts) && multiset(facts) == multiset(r.facts)
    ensures Selected(r.(facts := facts)) == Selected(r)
  {
    hide Unplaced, Entries, Filter;
    var q := r.(facts := facts);
    SameUnplaced(r, facts);
    FilterAgrees(IsExtra(q), IsExtra(r), WellKnown());
    SameEntries(r, facts, WantedSections(r), |WantedSections(r)|);
  }
}
