/** `select` and `compose` of packages/compiler/src together: which lines of a record the file holds. */
module Compiling {
  import opened Text
  import opened Model
  import opened Select
  import opened SelectLaws
  import Budget
  import Document

  lemma {:induction false} EntriesDiffer(r: Record, ss: seq<BriefSection>, n: nat)
    requires n <= |ss|
    ensures Budget.KeysDiffer(Entries(r, ss, n))
  {
    hide SectionEntries;
    if n > 0 {
      EntriesDiffer(r, ss, n - 1);
      LinesAreFacts(r, ss, n - 1);
      SectionDiffers(r, n - 1, ss[n - 1]);
      KeysJoin(Entries(r, ss, n - 1), SectionEntries(r, n - 1, ss[n - 1]), n - 1);
    }
  }

  lemma SectionDiffers(r: Record, k: nat, s: BriefSection)
    ensures Budget.KeysDiffer(SectionEntries(r, k, s))
    ensures forall e | e in SectionEntries(r, k, s) :: e.section == k
  {
    hide SectionEntries, IsFactLine, FactsOf;
    SectionRanks(r, k, s);
    SectionLinesAreFacts(r, k, s);
    var es := SectionEntries(r, k, s);
    forall i, j | 0 <= i < j < |es|
      ensures Budget.FillsBefore(es[i], es[j]) || Budget.FillsBefore(es[j], es[i])
    {
      assert es[i] in es && es[j] in es;
      assert es[i].order != es[j].order;
    }
  }

  lemma KeysJoin(a: seq<Entry>, b: seq<Entry>, k: nat)
    requires Budget.KeysDiffer(a) && Budget.KeysDiffer(b)
    requires (forall e | e in a :: e.section < k) && (forall e | e in b :: e.section == k)
    ensures Budget.KeysDiffer(a + b)
  {
    var es := a + b;
    forall i, j | 0 <= i < j < |es|
      ensures Budget.FillsBefore(es[i], es[j]) || Budget.FillsBefore(es[j], es[i])
    {
      if i < |a| <= j { assert a[i] in a && b[j - |a|] in b; }
    }
  }

  /** What is selected has no two lines of the same rank, section and order, so the budget decides every line: it is in
      exactly if the file fits with it and the lines taken before it, and where a line was taken, no line of a lower
      rank that was left out would have fitted. */
  lemma BudgetDecides(r: Record, layout: Document.Layout, limit: Document.Limit,
                      included: seq<Entry>, dropped: seq<Entry>)
    requires forall f | f in r.facts :: Globs(f.paths)
    requires Budget.FilledInOrder(Selected(r).sections, layout, limit, Selected(r).entries, included, dropped)
    ensures forall e | e in Selected(r).entries ::
              e in included <==>
              Document.DocumentFits(Selected(r).sections, layout, limit, Budget.Ahead(included, e) + [e])
    ensures forall d, j | d in dropped && 0 <= j < |included| && d.rank < included[j].rank ::
              !Document.DocumentFits(Selected(r).sections, layout, limit, included[..j] + [d])
  {
    hide Document.DocumentFits, Budget.FilledInOrder, WantedSections, Entries, Budget.Ahead, Budget.KeysDiffer;
    var ss, es := Selected(r).sections, Selected(r).entries;
    EntriesDiffer(r, WantedSections(r), |WantedSections(r)|);
    SelectedIsOk(r);
    forall e | e in es
      ensures e in included <==> Document.DocumentFits(ss, layout, limit, Budget.Ahead(included, e) + [e])
    {
      Budget.IncludedExactly(ss, layout, limit, es, included, dropped, e);
    }
    forall d, j | d in dropped && 0 <= j < |included| && d.rank < included[j].rank
      ensures !Document.DocumentFits(ss, layout, limit, included[..j] + [d])
    {
      Budget.NoneTakenInstead(ss, layout, limit, es, included, dropped, d, j);
    }
  }
}
