/** What `select` of packages/compiler/src/select.ts makes of the Brief's prose. */
module ProseLaws {
  import opened Text
  import opened Model
  import opened Select
  import opened SelectLaws

  /** A line of section `k` that states no memory, at this place. */
  predicate IsProseLine(e: Entry, k: nat, order: nat) { e.section == k && e.order == order && e.ref == None }

  predicate HasProse(es: seq<Entry>, k: nat, order: nat) {
    exists i | 0 <= i < |es| :: IsProseLine(es[i], k, order)
  }

  /** The mode lets this item in: all prose is taken, or what it cites is judged well. */
  predicate LetsIn(mode: ProseMode, item: Item) {
    item.Prose? && match mode case Whole(taken) => taken case Judged(judge) => judge(item.cites)
  }

  /** The item as a line, but for its rank. */
  predicate States(e: Entry, item: Item) {
    item == Prose(e.text, e.refs) && e.group == "" && e.paths == [] && e.marker == None
  }

  /** What a list of entries holds at one place of a section, of the items up to `n`. */
  ghost predicate HoldsProse(r: Record, es: seq<Entry>, k: nat, order: nat, items: seq<Item>, n: nat)
    requires n <= |items|
  {
    && (HasProse(es, k, order) <==> 1 <= order <= n && LetsIn(r.prose, items[order - 1]))
    && (forall i | 0 <= i < |es| && IsProseLine(es[i], k, order) :: 1 <= order <= n && States(es[i], items[order - 1]))
  }

  lemma {:induction false} ProseHeld(r: Record, k: nat, order: nat, items: seq<Item>, n: nat)
    requires n <= |items|
    ensures HoldsProse(r, ProseOf(r, k, items, n), k, order, items, n)
    ensures forall e | e in ProseOf(r, k, items, n) :: e.ref == None
  {
    if n > 0 {
      ProseHeld(r, k, order, items, n - 1);
      if LetsIn(r.prose, items[n - 1]) {
        ProseMore(ProseOf(r, k, items, n - 1), ProseEntry(k, n, items[n - 1].text, items[n - 1].cites), k, order);
      }
    }
  }

  lemma ProseMore(es: seq<Entry>, e: Entry, k: nat, order: nat)
    ensures HasProse(es + [e], k, order) <==> HasProse(es, k, order) || IsProseLine(e, k, order)
  {
    assert (es + [e])[|es|] == e;
    assert forall i | 0 <= i < |es| :: (es + [e])[i] == es[i];
  }

  /** Ranks and the lines of facts change nothing about prose. */
  lemma RanksKeepProse(r: Record, prose: seq<Entry>, lines: seq<Entry>, k: nat, order: nat, items: seq<Item>)
    requires forall i | 0 <= i < |lines| :: lines[i].ref.Some?
    requires HoldsProse(r, prose, k, order, items, |items|)
    ensures HoldsProse(r, RankedProse(prose) + lines, k, order, items, |items|)
  {
    hide LetsIn;
    var es := RankedProse(prose) + lines;
    assert forall i | 0 <= i < |prose| :: IsProseLine(es[i], k, order) <==> IsProseLine(prose[i], k, order);
    assert forall i | |prose| <= i < |es| :: es[i] == lines[i - |prose|];
    assert HasProse(es, k, order) <==> HasProse(prose, k, order);
  }

  lemma SectionHeld(r: Record, k: nat, order: nat, s: BriefSection)
    ensures HoldsProse(r, SectionEntries(r, k, s), k, order, s.items, |s.items|)
    ensures forall e | e in SectionEntries(r, k, s) :: e.section == k
  {
    hide ProseOf, FactsOf, FillOrder, Position, Compiles, ScopeKey, LetsIn, States, HoldsProse;
    SectionLinesAreFacts(r, k, s);
    var prose, facts := ProseOf(r, k, s.items, |s.items|), FactsOf(r, k, s);
    ProseHeld(r, k, order, s.items, |s.items|);
    FactsShape(r, k, s);
    assert forall i | 0 <= i < |facts| :: facts[i] in facts;
    RanksKeepProse(r, prose, RankedFacts(facts, |prose|), k, order, s.items);
  }

  lemma {:induction false} EntriesHeld(r: Record, ss: seq<BriefSection>, n: nat, k: nat, order: nat)
    requires k < n <= |ss|
    ensures HoldsProse(r, Entries(r, ss, n), k, order, ss[k].items, |ss[k].items|)
  {
    hide SectionEntries, LetsIn, States, HoldsProse;
    SectionHeld(r, n - 1, order, ss[n - 1]);
    LinesAreFacts(r, ss, n - 1);
    if k < n - 1 { EntriesHeld(r, ss, n - 1, k, order); }
    OtherSections(r, Entries(r, ss, n - 1), SectionEntries(r, n - 1, ss[n - 1]), n - 1, k, order, ss[k].items);
  }

  lemma OtherSections(r: Record, a: seq<Entry>, b: seq<Entry>, n: nat, k: nat, order: nat, items: seq<Item>)
    requires k <= n && (forall e | e in a :: e.section < n) && (forall e | e in b :: e.section == n)
    requires HoldsProse(r, if k < n then a else b, k, order, items, |items|)
    ensures HoldsProse(r, a + b, k, order, items, |items|)
  {
    hide LetsIn, States;
    var es := a + b;
    assert forall i | 0 <= i < |a| :: es[i] == a[i] && a[i] in a;
    assert forall i | |a| <= i < |es| :: es[i] == b[i - |a|] && b[i - |a|] in b;
    if k < n {
      assert HasProse(es, k, order) <==> HasProse(a, k, order);
    } else {
      if i :| 0 <= i < |b| && IsProseLine(b[i], k, order) { assert es[|a| + i] == b[i]; }
      assert HasProse(es, k, order) <==> HasProse(b, k, order);
    }
  }

  /** An item of a wanted section is a line of the file, at the item's own place, exactly if it is prose and the mode
      takes all prose or judges its cites well. The line has the item's words and cites, and no scope or marker. */
  lemma ProseExactly(r: Record, k: nat, order: nat)
    requires k < |WantedSections(r)|
    ensures var items, es := WantedSections(r)[k].items, Selected(r).entries;
            && ((exists i :: 0 <= i < |es| && es[i].section == k && es[i].order == order && es[i].ref == None) <==>
                1 <= order <= |items| && items[order - 1].Prose?
                && match r.prose
                   case Whole(taken) => taken
                   case Judged(judge) => judge(items[order - 1].cites))
            && forall i | 0 <= i < |es| && es[i].section == k && es[i].order == order && es[i].ref == None ::
                 1 <= order <= |items|
                 && items[order - 1] == Prose(es[i].text, es[i].refs)
                 && es[i].group == "" && es[i].paths == [] && es[i].marker == None
  {
    hide Entries, WantedSections;
    var ss := WantedSections(r);
    EntriesHeld(r, ss, |ss|, k, order);
    var es := Selected(r).entries;
    assert forall i | 0 <= i < |es| :: IsProseLine(es[i], k, order) <==>
                                       es[i].section == k && es[i].order == order && es[i].ref == None;
  }
}
