/** The third pass of `diff` in packages/compiler/src/parse.ts: cited lines whose words survive without the cite. */
module Survivors {
  import opened Text
  import opened Parse
  import opened Diff
  import opened Matching
  import opened DiffLaws

  /** The spare line that a gone line takes from the queue of its words. */
  function Survivor(before: seq<ParsedLine>, after: seq<ParsedLine>, i: nat): (r: Option<nat>)
    requires i < |before|
    ensures r.Some? ==> IsGone(before, after, i) && r.value < |after|
  {
    var all := SparePositions(before, after, |after|, before[i].text);
    var rank := GoneCount(before, after, i, before[i].text);
    SpareExact(before, after, |after|, before[i].text);
    if IsGone(before, after, i) && rank < |all| then Some(all[rank]) else None
  }

  /** An added line without cites: what a gone line may survive in. */
  predicate Waits(before: seq<ParsedLine>, after: seq<ParsedLine>, j: nat) {
    j < |after| && !IsCited(after[j]) && IsAdded(before, after, j)
  }

  /** Some earlier gone line has taken line `j`. */
  ghost predicate Used(before: seq<ParsedLine>, after: seq<ParsedLine>, i: nat, j: nat)
    requires i <= |before|
  {
    exists h | 0 <= h < i :: Survivor(before, after, h) == Some(j)
  }

  /** How many waiting lines with the words of line `j` stand before it. */
  function SpareRank(before: seq<ParsedLine>, after: seq<ParsedLine>, j: nat): int
    requires j < |after|
  {
    Uncited(after, j, after[j].text) - Uncited(before, |before|, after[j].text)
  }

  lemma SurvivorRank(before: seq<ParsedLine>, after: seq<ParsedLine>, i: nat, j: nat)
    requires i < |before| && IsGone(before, after, i) && Waits(before, after, j)
    ensures Survivor(before, after, i) == Some(j) <==>
            after[j].text == before[i].text
            && SpareRank(before, after, j) == GoneCount(before, after, i, before[i].text)
  {
    hide IsGone, IsAdded, Uncited, GoneCount, SparePositions;
    SpareExact(before, after, |after|, before[i].text);
  }

  /** The queue serves waiting lines in order. */
  lemma UsedRank(before: seq<ParsedLine>, after: seq<ParsedLine>, i: nat, j: nat)
    requires i <= |before| && Waits(before, after, j)
    ensures Used(before, after, i, j) <==> SpareRank(before, after, j) < GoneCount(before, after, i, after[j].text)
  {
    hide Survivor, IsGone, GoneCount, Uncited;
    var text := after[j].text;
    if SpareRank(before, after, j) < GoneCount(before, after, i, text) {
      assert SpareRank(before, after, j) >= 0;
      var h := NthGone(before, after, i, text, SpareRank(before, after, j));
      SurvivorRank(before, after, h, j);
    }
    if Used(before, after, i, j) {
      var h :| 0 <= h < i && Survivor(before, after, h) == Some(j);
      SurvivorRank(before, after, h, j);
      GoneGrow(before, after, h, i, text);
    }
  }

  /** The line that a gone line survives in is the first waiting one with its words that no earlier gone line took:
      what scanning for the first unused line finds. */
  lemma SurvivorIsFirstUnused(before: seq<ParsedLine>, after: seq<ParsedLine>, i: nat, j: nat)
    requires i < |before| && IsGone(before, after, i) && Waits(before, after, j) && after[j].text == before[i].text
    ensures Survivor(before, after, i) == Some(j) <==>
            !Used(before, after, i, j) &&
            forall h | 0 <= h < j && Waits(before, after, h) && after[h].text == after[j].text ::
              Used(before, after, i, h)
  {
    hide Survivor, IsGone, IsAdded, GoneCount, Uncited, SparePositions;
    var text := after[j].text;
    var rank := GoneCount(before, after, i, text);
    SurvivorRank(before, after, i, j);
    UsedRank(before, after, i, j);
    forall h: nat | h < j && Waits(before, after, h) && after[h].text == text
      ensures SpareRank(before, after, h) < SpareRank(before, after, j)
      ensures Used(before, after, i, h) <==> SpareRank(before, after, h) < rank
    {
      UncitedGrow(after, h, j, text);
      UsedRank(before, after, i, h);
    }
    if SpareRank(before, after, j) > rank {
      var h := Waiting(before, after, j, text, rank);
      assert !Used(before, after, i, h);
    }
  }

  /** Before a waiting line stand waiting lines of every lower rank. */
  lemma {:induction false} Waiting(before: seq<ParsedLine>, after: seq<ParsedLine>, n: nat, text: string, r: nat)
    returns (h: nat)
    requires n <= |after| && r < Uncited(after, n, text) - Uncited(before, |before|, text)
    ensures h < n && Waits(before, after, h) && after[h].text == text && SpareRank(before, after, h) == r
  {
    h := NthUncited(after, n, text, Uncited(before, |before|, text) + r);
  }

  /** A gone line is removed exactly if no waiting line is left for it, and the lines that are reported as surviving
      are the ones that gone lines took. */
  lemma SurvivorsExact(before: seq<ParsedLine>, after: seq<ParsedLine>, survived: set<nat>)
    ensures forall i | 0 <= i < |before| ::
              IsRemoved(before, after, i) <==> IsGone(before, after, i) && Survivor(before, after, i) == None
    ensures SurvivedExact(before, after, |before|, survived) <==>
            forall j: nat :: j in survived <==> Used(before, after, |before|, j)
  {
    hide IsGone, GoneCount, Uncited;
    forall i | 0 <= i < |before|
      ensures IsRemoved(before, after, i) <==> IsGone(before, after, i) && Survivor(before, after, i) == None
    {
      SpareExact(before, after, |after|, before[i].text);
    }
    forall j: nat
      ensures Used(before, after, |before|, j) <==>
              Waits(before, after, j)
              && SpareRank(before, after, j) < GoneCount(before, after, |before|, after[j].text)
    {
      UsedWaits(before, after, j);
      if Waits(before, after, j) { UsedRank(before, after, |before|, j); }
    }
  }

  lemma UsedWaits(before: seq<ParsedLine>, after: seq<ParsedLine>, j: nat)
    ensures Used(before, after, |before|, j) ==> Waits(before, after, j)
  {
    hide IsGone, GoneCount, Uncited;
    forall h | 0 <= h < |before| && Survivor(before, after, h) == Some(j)
      ensures Waits(before, after, j)
    {
      SpareExact(before, after, |after|, before[h].text);
    }
  }
}
