/** Which sections and which facts `select` of packages/compiler/src/select.ts shows, and where, field by field. */
module SelectedLines {
  import opened Text
  import opened Sorting
  import opened Model
  import opened Select
  import opened SelectLaws

  // ---------------------------------------------------------------------
  // Which facts
  // ---------------------------------------------------------------------

  /** A target lists its sections, or wants all but the overview; one that keeps to what is kept has no open section. */
  predicate Shows(target: Target, key: string) {
    && (target.sections.Some? ==> key in target.sections.value)
    && (target.sections.None? ==> key != "overview")
    && (key == "open" ==> !target.keptOnly)
  }

  /** Some item states the memory, or is prose that cites it; judged prose only if it is judged well. */
  predicate Mentioned(r: Record, ref: string) {
    exists s | s in r.brief :: exists item | item in s.items ::
      item == Memory(ref)
      || (item.Prose? && ref in item.cites && (r.prose.Judged? ==> r.prose.judge(item.cites)))
  }

  predicate MayAppear(r: Record, f: Fact) {
    r.accepts(f) && (f.status == Open ==> !r.target.keptOnly) && (f.stale ==> !r.target.omitStale)
  }

  lemma MentionedExactly(r: Record, ref: string)
    ensures IsPlaced(r, ref) <==> Mentioned(r, ref)
  {
    forall s, item | s in r.brief && item in s.items
      ensures Places(r.prose, item, ref) <==>
              item == Memory(ref)
              || (item.Prose? && ref in item.cites && (r.prose.Judged? ==> r.prose.judge(item.cites)))
    {
    }
    forall s | s in r.brief
      ensures PlacesAny(r.prose, s.items, ref) <==> exists item | item in s.items :: Places(r.prose, item, ref)
    {
    }
  }

  lemma ShowsExactly(target: Target, key: string)
    ensures Wanted(target, key) <==> Shows(target, key)
  {
  }

  /** A fact's line stands once in the file, or not at all. It does exactly if the fact may appear there, and an item
      of a shown section states it, or no item mentions it and its own section is shown. */
  lemma FactsExactly(r: Record, f: Fact)
    requires RecordOk(r) && f in r.facts
    ensures Heads(Selected(r).entries, f.ref) ==
            if MayAppear(r, f)
               && ((exists s | s in r.brief :: Shows(r.target, s.key) && Memory(f.ref) in s.items)
                   || (!Mentioned(r, f.ref) && Shows(r.target, f.section)))
            then 1 else 0
  {
    hide Heads, Entries, Wanted, IsPlaced, Mentioned, Shows, WantedSections, RecordOk;
    ExactlyOnce(r, f);
    MentionedExactly(r, f.ref);
    ShowsExactly(r.target, f.section);
    forall key
      ensures Wanted(r.target, key) <==> Shows(r.target, key)
    {
      ShowsExactly(r.target, key);
    }
  }

  // ---------------------------------------------------------------------
  // Which sections
  // ---------------------------------------------------------------------

  /** The sections that a Brief may lack, in their order. */
  function Known(): seq<Section> {
    [Section("overview", "What this is"), Section("decisions", "Decisions"), Section("conventions", "Conventions"),
     Section("open", "Open"), Section("preferences", "Preferences")]
  }

  predicate InBrief(r: Record, x: Section) { exists s | s in r.brief :: s.key == x.key && s.heading == x.heading }

  /** A fact of the section that no item mentions. */
  predicate Needed(r: Record, key: string) {
    exists f | f in r.facts :: f.section == key && MayAppear(r, f) && !Mentioned(r, f.ref)
  }

  lemma NeededExactly(r: Record, key: string)
    ensures (exists f | f in Unplaced(r) :: f.section == key) <==> Needed(r, key)
  {
    hide IsPlaced, Mentioned, Sort, Filter;
    FilterMembers(IsUnplaced(r), r.facts);
    SortContents(ByScore(), Filter(IsUnplaced(r), r.facts));
    SameMembers(Unplaced(r), Filter(IsUnplaced(r), r.facts));
    forall f
      ensures f in Unplaced(r) <==> f in r.facts && MayAppear(r, f) && !Mentioned(r, f.ref)
    {
      MentionedExactly(r, f.ref);
    }
  }

  lemma KnownExactly(x: Section)
    ensures x in Known() <==> BriefSection(x.key, x.heading, []) in WellKnown()
    ensures forall s | s in WellKnown() :: s.items == []
  {
    var ks, ws := Known(), WellKnown();
    assert |ks| == |ws| && forall i | 0 <= i < |ks| :: ws[i] == BriefSection(ks[i].key, ks[i].heading, []);
    if x in ks {
      var i :| 0 <= i < |ks| && ks[i] == x;
      assert ws[i] in ws;
    }
    if BriefSection(x.key, x.heading, []) in ws {
      var i :| 0 <= i < |ws| && ws[i] == BriefSection(x.key, x.heading, []);
      assert ks[i] in ks;
    }
  }

  /** The file's sections are the shown ones of the Brief, and the well-known ones that the Brief lacks and a fact
      needs. */
  lemma SectionsExactly(r: Record, x: Section)
    ensures x in Selected(r).sections <==>
            && Shows(r.target, x.key)
            && (InBrief(r, x)
                || (x in Known() && (forall s | s in r.brief :: s.key != x.key) && Needed(r, x.key)))
  {
    hide Entries, Wanted, Shows, Filter, Sort, Needed, WellKnown, Known;
    var all, ss := AllSections(r), WantedSections(r);
    FilterMembers(IsExtra(r), WellKnown());
    FilterMembers(IsWanted(r.target), all);
    ShowsExactly(r.target, x.key);
    NeededExactly(r, x.key);
    KnownExactly(x);
    assert x in Headings(ss) <==> exists s | s in ss :: s.key == x.key && s.heading == x.heading by {
      HeadingsHold(ss, x);
    }
    assert forall s :: s in all <==> s in r.brief || s in Filter(IsExtra(r), WellKnown());
    if s :| s in ss && s.key == x.key && s.heading == x.heading {
      if s in r.brief { assert InBrief(r, x); } else { assert s == BriefSection(x.key, x.heading, []); }
    }
    if Shows(r.target, x.key) && InBrief(r, x) {
      var s :| s in r.brief && s.key == x.key && s.heading == x.heading;
      assert s in ss;
    }
    if Shows(r.target, x.key) && x in Known() && (forall s | s in r.brief :: s.key != x.key) && Needed(r, x.key) {
      assert BriefSection(x.key, x.heading, []) in ss;
    }
  }

  lemma HeadingsHold(ss: seq<BriefSection>, x: Section)
    ensures x in Headings(ss) <==> exists s | s in ss :: s.key == x.key && s.heading == x.heading
  {
    if x in Headings(ss) {
      var i :| 0 <= i < |ss| && Headings(ss)[i] == x;
      assert ss[i] in ss;
    }
    if s :| s in ss && s.key == x.key && s.heading == x.heading {
      var i :| 0 <= i < |ss| && ss[i] == s;
      assert Headings(ss)[i] == x;
    }
  }

  /** Filtering keeps the order. */
  lemma {:induction false} FilterOrder<T>(p: T -> bool, s: seq<T>, i: nat, j: nat) returns (a: nat, b: nat)
    requires i <= j < |Filter(p, s)|
    ensures a <= b < |s| && s[a] == Filter(p, s)[i] && s[b] == Filter(p, s)[j] && (i < j ==> a < b)
  {
    var n := |s| - 1;
    if j < |Filter(p, s[..n])| {
      a, b := FilterOrder(p, s[..n], i, j);
    } else if i < j {
      a, b := FilterOrder(p, s[..n], i, i);
      b := n;
    } else {
      a, b := n, n;
    }
  }

  predicate IsHeading(x: Section, s: BriefSection) { s.key == x.key && s.heading == x.heading }

  /** The Brief's sections come first, in its order, and then the well-known ones, in theirs. */
  lemma SectionsInOrder(r: Record, i: nat, j: nat) returns (a: nat, b: nat)
    requires i < j < |Selected(r).sections|
    ensures var x, y, n := Selected(r).sections[i], Selected(r).sections[j], |r.brief|;
            && a < b < n + 5
            && (if a < n then IsHeading(x, r.brief[a]) else x == Known()[a - n])
            && (if b < n then IsHeading(y, r.brief[b]) else y == Known()[b - n])
  {
    hide Entries, Sort, WellKnown, Known, IsWanted, IsExtra;
    var all, ss := AllSections(r), WantedSections(r);
    a, b := FilterOrder(IsWanted(r.target), all, i, j);
    assert Headings(ss)[i] == Section(ss[i].key, ss[i].heading) && Headings(ss)[j] == Section(ss[j].key, ss[j].heading);
    var n := |r.brief|;
    KnownList();
    if a >= n {
      var h, k := FilterOrder(IsExtra(r), WellKnown(), a - n, b - n);
      a, b := n + h, n + k;
    } else if b >= n {
      var h, k := FilterOrder(IsExtra(r), WellKnown(), b - n, b - n);
      b := n + k;
    }
  }

  lemma KnownList()
    ensures |Known()| == |WellKnown()| == 5
    ensures forall i | 0 <= i < 5 :: Known()[i] == Section(WellKnown()[i].key, WellKnown()[i].heading)
  {
  }

  // ---------------------------------------------------------------------
  // Where
  // ---------------------------------------------------------------------

  /** What a scored line states, and the place it has. */
  ghost predicate IsLineOf(r: Record, k: nat, s: BriefSection, x: Scored, f: Fact) {
    && f in r.facts && Compiles(r, f) && x.score == f.score && x.entry == FactEntry(k, x.entry.order, f)
    && x.entry.order >= 1
    && var o, late := x.entry.order, Late(r, s.key);
       if o <= |s.items| then s.items[o - 1] == Memory(f.ref) && FactOf(r.facts, f.ref) == Some(f)
       else o - |s.items| <= |late| && late[o - |s.items| - 1] == f
  }

  lemma {:induction false} MemoryLines(r: Record, k: nat, s: BriefSection, n: nat)
    requires n <= |s.items|
    ensures forall x | x in MemoriesOf(r, k, s.items, n) ::
              x.entry.order <= n && exists f :: IsLineOf(r, k, s, x, f)
  {
    hide Compiles, ScopeKey, Late;
    if n > 0 {
      MemoryLines(r, k, s, n - 1);
      match Compiled(r, s.items[n - 1])
      case Some(f) => assert IsLineOf(r, k, s, Scored(FactEntry(k, n, f), f.score), f);
      case None =>
    }
  }

  lemma {:induction false} LateLines(r: Record, k: nat, s: BriefSection, n: nat)
    requires n <= |Late(r, s.key)|
    ensures forall x | x in LateOf(k, |s.items|, Late(r, s.key), n) :: exists f :: IsLineOf(r, k, s, x, f)
  {
    hide Compiles, ScopeKey, Late;
    if n > 0 {
      LateLines(r, k, s, n - 1);
      LateCompiles(r, s.key);
      var f := Late(r, s.key)[n - 1];
      assert f in Late(r, s.key);
      assert IsLineOf(r, k, s, Scored(FactEntry(k, |s.items| + n, f), f.score), f);
    }
  }

  /** The line of a memory in a section: the fact, its rank and its place. */
  lemma LineAt(r: Record, k: nat, e: Entry) returns (a: nat, f: Fact)
    requires k < |WantedSections(r)| && e in Selected(r).entries && e.section == k && e.ref.Some?
    ensures var s := WantedSections(r)[k];
            var facts, es := FactsOf(r, k, s), SectionEntries(r, k, s);
            && a < |facts| <= |es| && es[|es| - |facts| + a] == e && facts[a].entry.(rank := e.rank) == e
            && IsLineOf(r, k, s, facts[a], f)
  {
    hide WantedSections, FactsOf, IsLineOf, SectionEntries, RanksFill, MostReadFirst, OrdersDiffer;
    var ss := WantedSections(r);
    var s := ss[k];
    FromSection(r, ss, |ss|, k, e);
    SectionRanks(r, k, s);
    LinesHold(r, k, s);
    var facts, es := FactsOf(r, k, s), SectionEntries(r, k, s);
    a := LineIndex(es, facts, e);
    assert facts[a] in facts;
    f :| IsLineOf(r, k, s, facts[a], f);
  }

  lemma LinesHold(r: Record, k: nat, s: BriefSection)
    ensures forall x | x in FactsOf(r, k, s) :: exists f :: IsLineOf(r, k, s, x, f)
  {
    hide IsLineOf, MemoriesOf, LateOf, Late;
    MemoryLines(r, k, s, |s.items|);
    LateLines(r, k, s, |Late(r, s.key)|);
  }

  lemma LineIndex(es: seq<Entry>, facts: seq<Scored>, e: Entry) returns (a: nat)
    requires |facts| <= |es| && e in es && e.ref.Some?
    requires RanksFill(es[..|es| - |facts|], es[|es| - |facts|..]) && MostReadFirst(es[|es| - |facts|..], facts)
    ensures a < |facts| && es[|es| - |facts| + a] == e && facts[a].entry.(rank := e.rank) == e
  {
    var p := |es| - |facts|;
    var i :| 0 <= i < |es| && es[i] == e;
    assert forall h | 0 <= h < p :: es[..p][h] == es[h];
    a := i - p;
    assert es[p..][a] == e;
  }

  lemma {:induction false} FromSection(r: Record, ss: seq<BriefSection>, n: nat, k: nat, e: Entry)
    requires k < n <= |ss| && e in Entries(r, ss, n) && e.section == k
    ensures e in SectionEntries(r, k, ss[k])
  {
    hide SectionEntries;
    LinesAreFacts(r, ss, n - 1);
    SectionLinesAreFacts(r, n - 1, ss[n - 1]);
    if k < n - 1 { FromSection(r, ss, n - 1, k, e); }
  }

  /** Before: a higher score, or the same score and a lower ref. */
  predicate ReadMore(f: Fact, g: Fact) {
    f.score > g.score || (f.score == g.score && f.ref != g.ref && LexLe(f.ref, g.ref))
  }

  /** Of two facts in one section, the one with the higher score has the lower rank, and the one printed first among
      equals. A fact that an item of the section states stands at the item's place. The others follow all items, by
      falling score, and by ref among equals. */
  lemma LinesExactly(r: Record, d: Entry, e: Entry, f: Fact, g: Fact)
    requires UniqueRefs(r.facts) && f in r.facts && g in r.facts && f != g
    requires d in Selected(r).entries && e in Selected(r).entries && d.section == e.section < |WantedSections(r)|
    requires d.ref == Some(f.ref) && e.ref == Some(g.ref)
    ensures d.rank < e.rank <==> f.score > g.score || (f.score == g.score && d.order < e.order)
    ensures var items := WantedSections(r)[d.section].items;
            && (1 <= d.order <= |items| ==> items[d.order - 1] == Memory(f.ref))
            && (d.order > |items| && e.order > |items| ==> (d.order < e.order <==> ReadMore(f, g)))
  {
    hide WantedSections, FactsOf, SectionEntries, Late, Compiles, FactOf, ScopeKey, Selected, IsLineOf, MostReadFirst,
      RanksFill, OrdersDiffer, ReadMore, UniqueRefs;
    var k := d.section;
    var s := WantedSections(r)[k];
    var a, f' := LineAt(r, k, d);
    var b, g' := LineAt(r, k, e);
    RefsDetermine(r.facts);
    var facts, es := FactsOf(r, k, s), SectionEntries(r, k, s);
    LineStates(r, k, s, facts[a], f', d);
    LineStates(r, k, s, facts[b], g', e);
    assert f' == f && g' == g;
    SectionRanks(r, k, s);
    var lines := es[|es| - |facts|..];
    assert lines[a] == d && lines[b] == e;
    RanksTell(es[..|es| - |facts|], lines, facts, a, b);
    var n := |s.items|;
    if d.order > n && e.order > n {
      LateOrder(r, s.key, d.order - n - 1, e.order - n - 1);
    }
  }

  lemma LineStates(r: Record, k: nat, s: BriefSection, x: Scored, f: Fact, e: Entry)
    requires IsLineOf(r, k, s, x, f) && x.entry.(rank := e.rank) == e
    ensures e.ref == Some(f.ref) && x.score == f.score && f in r.facts && e.order >= 1 && x.entry.order == e.order
    ensures var late := Late(r, s.key);
            if e.order <= |s.items| then s.items[e.order - 1] == Memory(f.ref)
            else e.order - |s.items| <= |late| && late[e.order - |s.items| - 1] == f
  {
    hide Late, Compiles, FactOf, ScopeKey;
  }

  lemma RanksTell(prose: seq<Entry>, lines: seq<Entry>, facts: seq<Scored>, a: nat, b: nat)
    requires RanksFill(prose, lines) && MostReadFirst(lines, facts) && a < |lines| && b < |lines| && a != b
    ensures lines[a].rank < lines[b].rank <==>
            facts[a].score > facts[b].score
            || (facts[a].score == facts[b].score && lines[a].order < lines[b].order)
  {
    assert lines[a].rank != lines[b].rank;
  }

  lemma LateOrder(r: Record, key: string, i: nat, j: nat)
    requires UniqueRefs(r.facts) && i < |Late(r, key)| && j < |Late(r, key)| && Late(r, key)[i] != Late(r, key)[j]
    ensures i < j <==> ReadMore(Late(r, key)[i], Late(r, key)[j])
  {
    hide Sort, Filter, IsPlaced, Compiles;
    var late := Late(r, key);
    LateCompiles(r, key);
    RefsDetermine(r.facts);
    ScoreOrder();
    SortSorted(ByScore(), Filter(IsUnplaced(r), r.facts));
    var lo, hi := if i < j then i else j, if i < j then j else i;
    var a, b := FilterOrder(InSection(key), Unplaced(r), lo, hi);
    assert late[lo] in late && late[hi] in late;
    assert ByScore()(late[lo], late[hi]);
    LexTotal(late[lo].ref, late[hi].ref);
  }
}
