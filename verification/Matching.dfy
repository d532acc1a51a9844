/** The queue matcher of `diff` in packages/compiler/src/parse.ts computes the counted pairs. */
module Matching {
  import opened Text
  import opened Sorting
  import opened Parse
  import opened Diff

  // ---------------------------------------------------------------------
  // Selected indexes
  // ---------------------------------------------------------------------

  /** The indexes before `n` that satisfy `p`. */
  function Where(p: nat -> bool, n: nat): (r: seq<nat>)
    ensures forall k | 0 <= k < |r| :: r[k] < n && p(r[k])
  {
    if n == 0 then [] else if p(n - 1) then Where(p, n - 1) + [n - 1] else Where(p, n - 1)
  }

  function Next(xs: seq<nat>, g: nat, n: nat): nat { if g < |xs| then xs[g] else n }

  lemma {:induction false} WhereExact(p: nat -> bool, n: nat)
    ensures forall i: nat :: i in Where(p, n) <==> i < n && p(i)
    ensures forall g, h | 0 <= g < h < |Where(p, n)| :: Where(p, n)[g] < Where(p, n)[h]
  {
    if n > 0 {
      WhereExact(p, n - 1);
    }
  }

  /** Between two selected indexes nothing is selected. */
  lemma WhereGap(p: nat -> bool, n: nat, g: nat, i: nat)
    requires g <= |Where(p, n)| && (g == 0 || Where(p, n)[g - 1] < i) && i < Next(Where(p, n), g, n)
    ensures !p(i)
  {
    WhereExact(p, n);
    var xs := Where(p, n);
    assert g < |xs| ==> xs[g] in xs;
    forall h | 0 <= h < |xs|
      ensures xs[h] != i
    {
      if h < g { assert xs[h] <= xs[g - 1]; } else { assert xs[h] >= xs[g]; }
    }
    assert i !in xs && i < n;
  }

  // ---------------------------------------------------------------------
  // Ranks
  // ---------------------------------------------------------------------

  lemma {:induction false} PositionsExact(ls: seq<ParsedLine>, n: nat, key: string)
    requires n <= |ls|
    ensures forall j: nat :: j in Positions(ls, n, key) <==> j < n && IsCited(ls[j]) && Key(ls[j]) == key
    ensures forall r | 0 <= r < Cites(ls, n, key) :: Cites(ls, Positions(ls, n, key)[r], key) == r
  {
    if n > 0 {
      PositionsExact(ls, n - 1, key);
      var ps, qs := Positions(ls, n, key), Positions(ls, n - 1, key);
      forall r | 0 <= r < |ps|
        ensures Cites(ls, ps[r], key) == r
      {
        if r < |qs| {
          assert ps[r] == qs[r];
        }
      }
    }
  }

  lemma {:induction false} PositionsGrow(ls: seq<ParsedLine>, m: nat, n: nat, key: string)
    requires m <= n <= |ls|
    ensures Positions(ls, m, key) <= Positions(ls, n, key)
    ensures m < n && IsCited(ls[m]) && Key(ls[m]) == key ==>
              Cites(ls, m, key) < Cites(ls, n, key) && Positions(ls, n, key)[Cites(ls, m, key)] == m
  {
    if m < n {
      PositionsGrow(ls, m, n - 1, key);
    }
  }

  lemma {:induction false} UncitedGrow(ls: seq<ParsedLine>, m: nat, n: nat, text: string)
    requires m <= n <= |ls|
    ensures Uncited(ls, m, text) <= Uncited(ls, n, text)
    ensures m < n && !IsCited(ls[m]) && ls[m].text == text ==> Uncited(ls, m, text) < Uncited(ls, n, text)
  {
    if m < n {
      UncitedGrow(ls, m, n - 1, text);
    }
  }

  /** An added line: its cites don't pair, or its words were not in the old file. */
  predicate IsAdded(before: seq<ParsedLine>, after: seq<ParsedLine>, j: nat)
    requires j < |after|
  {
    if IsCited(after[j]) then Partner(after, before, j).None?
    else Uncited(after, j, after[j].text) >= Uncited(before, |before|, after[j].text)
  }

  function AddedAt(before: seq<ParsedLine>, after: seq<ParsedLine>): nat -> bool {
    (j: nat) => j < |after| && IsAdded(before, after, j)
  }

  function GoneAt(before: seq<ParsedLine>, after: seq<ParsedLine>): nat -> bool {
    (i: nat) => i < |before| && IsGone(before, after, i)
  }

  /** The uncited added lines before `n` with these words. */
  function SparePositions(before: seq<ParsedLine>, after: seq<ParsedLine>, n: nat, text: string): seq<nat>
    requires n <= |after|
  {
    if n == 0 then []
    else if !IsCited(after[n - 1]) && after[n - 1].text == text && IsAdded(before, after, n - 1)
    then SparePositions(before, after, n - 1, text) + [n - 1]
    else SparePositions(before, after, n - 1, text)
  }

  lemma {:induction false} SpareCount(before: seq<ParsedLine>, after: seq<ParsedLine>, n: nat, text: string)
    requires n <= |after|
    ensures |SparePositions(before, after, n, text)| == Excess(Uncited(after, n, text), Uncited(before, |before|, text))
  {
    hide Partner;
    if n > 0 {
      SpareCount(before, after, n - 1, text);
    }
  }

  lemma {:induction false} SpareExact(before: seq<ParsedLine>, after: seq<ParsedLine>, n: nat, text: string)
    requires n <= |after|
    ensures |SparePositions(before, after, n, text)| == Excess(Uncited(after, n, text), Uncited(before, |before|, text))
    ensures forall r | 0 <= r < |SparePositions(before, after, n, text)| ::
              IsSpare(before, after, text, SparePositions(before, after, n, text)[r], r)
    ensures forall j: nat | j < n && !IsCited(after[j]) && after[j].text == text && IsAdded(before, after, j) ::
              j in SparePositions(before, after, n, text)
  {
    hide IsAdded, IsSpare, Uncited;
    SpareCount(before, after, n, text);
    if n > 0 {
      SpareExact(before, after, n - 1, text);
      if !IsCited(after[n - 1]) && after[n - 1].text == text && IsAdded(before, after, n - 1) {
        SpareHere(before, after, text, n - 1, |SparePositions(before, after, n - 1, text)|);
      }
    }
  }

  /** Line `j` is the `r`-th uncited one with these words that the old file doesn't account for. */
  predicate IsSpare(before: seq<ParsedLine>, after: seq<ParsedLine>, text: string, j: nat, r: nat) {
    j < |after| && !IsCited(after[j]) && after[j].text == text &&
    Uncited(after, j, text) == Uncited(before, |before|, text) + r
  }

  lemma SpareHere(before: seq<ParsedLine>, after: seq<ParsedLine>, text: string, j: nat, r: nat)
    requires j < |after| && !IsCited(after[j]) && after[j].text == text && IsAdded(before, after, j)
    requires r == Excess(Uncited(after, j, text), Uncited(before, |before|, text))
    ensures IsSpare(before, after, text, j, r)
  {
  }

  function Excess(a: nat, b: nat): nat { if a > b then a - b else 0 }

  // ---------------------------------------------------------------------
  // The method
  // ---------------------------------------------------------------------

  /** The uncited lines of a file, counted. */
  method TallyUncited(ls: seq<ParsedLine>) returns (tally: Tally)
    ensures fresh(tally) && tally.Valid() && forall t :: tally.Count(t) == Uncited(ls, |ls|, t)
  {
    tally := new Tally();
    for i := 0 to |ls|
      invariant fresh(tally) && tally.Valid() && forall t :: tally.Count(t) == Uncited(ls, i, t)
    {
      if !IsCited(ls[i]) { tally.Add(ls[i].text); }
    }
  }

  method QueueByCites(ls: seq<ParsedLine>) returns (queues: Queues)
    ensures fresh(queues) && queues.Valid() && forall k :: queues.Pending(k) == Positions(ls, |ls|, k)
  {
    queues := new Queues();
    for j := 0 to |ls|
      invariant fresh(queues) && queues.Valid() && forall k :: queues.Pending(k) == Positions(ls, j, k)
    {
      if IsCited(ls[j]) { queues.Push(Key(ls[j]), j); }
    }
  }

  function Min(a: nat, b: nat): nat { if a < b then a else b }

  /** Which new lines the first `i` old ones have been paired with. */
  ghost predicate PairedExact(before: seq<ParsedLine>, after: seq<ParsedLine>, i: nat, paired: set<nat>)
    requires i <= |before|
  {
    forall j: nat :: j in paired <==>
      j < |after| && IsCited(after[j]) && Cites(after, j, Key(after[j])) < Cites(before, i, Key(after[j]))
  }

  /** The new lines with this key that the first `i` old lines leave. */
  function Left(before: seq<ParsedLine>, after: seq<ParsedLine>, i: nat, key: string): seq<nat>
    requires i <= |before|
  {
    Positions(after, |after|, key)[Min(Cites(before, i, key), Cites(after, |after|, key))..]
  }

  lemma LeftStart(before: seq<ParsedLine>, after: seq<ParsedLine>)
    ensures forall k :: Left(before, after, 0, k) == Positions(after, |after|, k)
  {
  }

  /** Each old line pairs with the first line left under its key. */
  lemma LeftStep(before: seq<ParsedLine>, after: seq<ParsedLine>, i: nat)
    requires i < |before|
    ensures IsCited(before[i]) ==>
              var left := Left(before, after, i, Key(before[i]));
              Partner(before, after, i) == if left == [] then None else Some(left[0])
    ensures forall k :: Left(before, after, i + 1, k) ==
              var left := Left(before, after, i, k);
              if IsCited(before[i]) && k == Key(before[i]) && left != [] then left[1..] else left
  {
    hide Key, Positions;
    CitesStep(before, i);
  }

  lemma PairStep(before: seq<ParsedLine>, after: seq<ParsedLine>, i: nat, paired: set<nat>)
    requires i < |before| && PairedExact(before, after, i, paired)
    ensures PairedExact(before, after, i + 1,
              if IsCited(before[i]) && Partner(before, after, i).Some?
              then paired + {Partner(before, after, i).value} else paired)
  {
    hide Key, Positions;
    var key := Key(before[i]);
    CitesStep(before, i);
    PositionsExact(after, |after|, key);
    forall j: nat | j < |after| && IsCited(after[j]) && Key(after[j]) == key
                    && Cites(after, j, key) == Cites(before, i, key)
      ensures Partner(before, after, i) == Some(j)
    {
      PositionsGrow(after, j, |after|, key);
    }
    if Partner(before, after, i).Some? {
      var j := Partner(before, after, i).value;
      assert j in Positions(after, |after|, key);
    }
  }

  lemma CitesStep(ls: seq<ParsedLine>, i: nat)
    requires i < |ls|
    ensures forall k :: Cites(ls, i + 1, k) == Cites(ls, i, k) + if IsCited(ls[i]) && Key(ls[i]) == k then 1 else 0
  {
  }

  /** `diff`'s first pass: cited lines pair up by their cites, in order. */
  method PairCited(before: seq<ParsedLine>, after: seq<ParsedLine>)
    returns (paired: set<nat>, edits: seq<Change>, gone: seq<nat>)
    ensures PairedExact(before, after, |before|, paired)
    ensures edits == Edits(before, after, |before|)
    ensures gone == Where(GoneAt(before, after), |before|)
  {
    hide Key, Positions, PairedExact, Left, Partner;
    var queues := QueueByCites(after);
    paired, edits, gone := {}, [], [];
    NonePaired(before, after);
    LeftStart(before, after);
    for i := 0 to |before|
      invariant fresh(queues) && queues.Valid() && forall k :: queues.Pending(k) == Left(before, after, i, k)
      invariant PairedExact(before, after, i, paired)
      invariant edits == Edits(before, after, i)
      invariant gone == Where(GoneAt(before, after), i)
    {
      var o := before[i];
      LeftStep(before, after, i);
      PairStep(before, after, i, paired);
      if !IsCited(o) { continue; }
      var n := queues.Shift(Key(o));
      assert n == Partner(before, after, i);
      if n.None? {
        gone := gone + [i];
        continue;
      }
      paired := paired + {n.value};
      if after[n.value].text != o.text {
        edits := edits + [EditOf(o, after[n.value])];
      }
    }
  }

  lemma NonePaired(before: seq<ParsedLine>, after: seq<ParsedLine>)
    ensures PairedExact(before, after, 0, {})
  {
  }

  /** The second pass: new lines that are neither paired nor among the old uncited words. */
  method FindAdded(before: seq<ParsedLine>, after: seq<ParsedLine>, paired: set<nat>)
    returns (added: seq<nat>, layout: bool)
    requires PairedExact(before, after, |before|, paired)
    ensures added == Where(AddedAt(before, after), |after|)
    ensures layout <==> LayoutLeft(before, after)
  {
    hide Key, Positions, Uncited, PairedExact, AddedAt, Where;
    var tally := TallyUncited(before);
    added := [];
    UncitedStart(after);
    AddedStart(before, after);
    for j := 0 to |after|
      invariant fresh(tally) && tally.Valid()
      invariant forall t :: tally.Count(t) == Excess(Uncited(before, |before|, t), Uncited(after, j, t))
      invariant added == Where(AddedAt(before, after), j)
    {
      UncitedStep(after, j);
      AddedStep(before, after, paired, j);
      if j in paired { continue; }
      if IsCited(after[j]) {
        added := added + [j];
        continue;
      }
      var taken := tally.Take(after[j].text);
      if !taken { added := added + [j]; }
    }
    layout := tally.counts != map[];
    NoneCounted(tally);
  }

  lemma AddedStart(before: seq<ParsedLine>, after: seq<ParsedLine>)
    ensures Where(AddedAt(before, after), 0) == []
  {
  }

  /** Whether line `j` is added, as the second pass tells. */
  lemma AddedStep(before: seq<ParsedLine>, after: seq<ParsedLine>, paired: set<nat>, j: nat)
    requires PairedExact(before, after, |before|, paired) && j < |after|
    ensures j in paired ==> IsCited(after[j])
    ensures Where(AddedAt(before, after), j + 1) ==
            var text := after[j].text;
            if j !in paired
               && (IsCited(after[j]) || Excess(Uncited(before, |before|, text), Uncited(after, j, text)) == 0)
            then Where(AddedAt(before, after), j) + [j] else Where(AddedAt(before, after), j)
  {
    hide Key, Positions, Uncited;
  }

  lemma NoneCounted(tally: Tally)
    requires tally.Valid()
    ensures tally.counts != map[] <==> exists t :: tally.Count(t) > 0
  {
    assert forall t :: t in tally.counts <==> tally.Count(t) > 0;
  }

  lemma UncitedStart(ls: seq<ParsedLine>)
    ensures forall t :: Uncited(ls, 0, t) == 0
  {
  }

  lemma UncitedStep(ls: seq<ParsedLine>, j: nat)
    requires j < |ls|
    ensures forall t :: Uncited(ls, j + 1, t) ==
                        Uncited(ls, j, t) + if !IsCited(ls[j]) && ls[j].text == t then 1 else 0
  {
  }

  /** The spare lines with these words, by their indexes among the added. */
  method QueueSpare(before: seq<ParsedLine>, after: seq<ParsedLine>, added: seq<nat>) returns (queues: Queues)
    requires added == Where(AddedAt(before, after), |after|)
    ensures fresh(queues) && queues.Valid()
    ensures forall t :: queues.Pending(t) == SparePositions(before, after, |after|, t)
  {
    hide SparePositions, IsAdded, Where;
    queues := new Queues();
    WhereExact(AddedAt(before, after), |after|);
    SpareStart(before, after);
    SpareSkip(before, after, 0, Next(added, 0, |after|), 0);
    for g := 0 to |added|
      invariant fresh(queues) && queues.Valid()
      invariant forall t :: queues.Pending(t) == SparePositions(before, after, Next(added, g, |after|), t)
    {
      var j := added[g];
      SpareStep(before, after, j);
      SpareSkip(before, after, j + 1, Next(added, g + 1, |after|), g + 1);
      if !IsCited(after[j]) { queues.Push(after[j].text, j); }
    }
  }

  lemma SpareStart(before: seq<ParsedLine>, after: seq<ParsedLine>)
    ensures forall t :: SparePositions(before, after, 0, t) == []
  {
  }

  lemma SpareStep(before: seq<ParsedLine>, after: seq<ParsedLine>, j: nat)
    requires j < |after| && IsAdded(before, after, j)
    ensures forall t :: SparePositions(before, after, j + 1, t) ==
              if !IsCited(after[j]) && after[j].text == t then SparePositions(before, after, j, t) + [j]
              else SparePositions(before, after, j, t)
  {
  }

  /** The `g`-th stretch between added lines. */
  predicate Gap(p: nat -> bool, n: nat, lo: nat, hi: nat, g: nat) {
    var xs := Where(p, n);
    g <= |xs| && (g == 0 || xs[g - 1] < lo) && lo <= hi <= Next(xs, g, n)
  }

  lemma {:induction false} SpareSkip(before: seq<ParsedLine>, after: seq<ParsedLine>, lo: nat, hi: nat, g: nat)
    requires Gap(AddedAt(before, after), |after|, lo, hi, g)
    ensures hi <= |after|
    ensures forall t :: SparePositions(before, after, hi, t) == SparePositions(before, after, lo, t)
    decreases hi
  {
    hide IsAdded, Where;
    if lo < hi {
      WhereGap(AddedAt(before, after), |after|, g, hi - 1);
      SpareSkip(before, after, lo, hi - 1, g);
    }
  }

  /** Which spare lines the gone lines before `i` have taken. */
  ghost predicate SurvivedExact(before: seq<ParsedLine>, after: seq<ParsedLine>, i: nat, survived: set<nat>)
    requires i <= |before|
  {
    forall j: nat :: j in survived <==>
      j < |after| && !IsCited(after[j]) && IsAdded(before, after, j) &&
      Uncited(after, j, after[j].text) <
      Uncited(before, |before|, after[j].text) + GoneCount(before, after, i, after[j].text)
  }

  /** The spare lines with these words that the gone lines before `i` leave. */
  function SpareLeft(before: seq<ParsedLine>, after: seq<ParsedLine>, i: nat, text: string): seq<nat>
    requires i <= |before|
  {
    var all := SparePositions(before, after, |after|, text);
    all[Min(GoneCount(before, after, i, text), |all|)..]
  }

  lemma SpareLeftStart(before: seq<ParsedLine>, after: seq<ParsedLine>)
    ensures forall t :: SpareLeft(before, after, 0, t) == SparePositions(before, after, |after|, t)
    ensures SurvivedExact(before, after, 0, {})
  {
  }

  lemma SpareLeftStep(before: seq<ParsedLine>, after: seq<ParsedLine>, i: nat)
    requires i < |before| && IsGone(before, after, i)
    ensures forall t :: SpareLeft(before, after, i + 1, t) ==
              var left := SpareLeft(before, after, i, t);
              if t == before[i].text && left != [] then left[1..] else left
    ensures IsCited(before[i])
    ensures IsRemoved(before, after, i) <==> SpareLeft(before, after, i, before[i].text) == []
  {
    hide SparePositions, Uncited, Partner;
    SpareExact(before, after, |after|, before[i].text);
  }

  lemma SurvivedStep(before: seq<ParsedLine>, after: seq<ParsedLine>, i: nat, survived: set<nat>)
    requires i < |before| && IsGone(before, after, i) && SurvivedExact(before, after, i, survived)
    ensures var left := SpareLeft(before, after, i, before[i].text);
            SurvivedExact(before, after, i + 1, if left == [] then survived else survived + {left[0]})
  {
    hide SparePositions, IsGone, Partner, Uncited;
    var text := before[i].text;
    var all, rank := SparePositions(before, after, |after|, text), GoneCount(before, after, i, text);
    SpareExact(before, after, |after|, text);
    forall j: nat | j < |after| && !IsCited(after[j]) && IsAdded(before, after, j) && after[j].text == text
                    && Uncited(after, j, text) == Uncited(before, |before|, text) + rank
      ensures rank < |all| && all[rank] == j
    {
      assert j in all;
    }
  }

  lemma {:induction false} GoneSkip(before: seq<ParsedLine>, after: seq<ParsedLine>, lo: nat, hi: nat, g: nat)
    requires Gap(GoneAt(before, after), |before|, lo, hi, g)
    ensures hi <= |before|
    ensures forall t :: GoneCount(before, after, hi, t) == GoneCount(before, after, lo, t)
    ensures Removes(before, after, hi) == Removes(before, after, lo)
    decreases hi
  {
    hide Partner, Spare;
    if lo < hi {
      WhereGap(GoneAt(before, after), |before|, g, hi - 1);
      GoneSkip(before, after, lo, hi - 1, g);
    }
  }

  lemma SameGoneCount(before: seq<ParsedLine>, after: seq<ParsedLine>, lo: nat, hi: nat, survived: set<nat>)
    requires lo <= |before| && hi <= |before|
    requires forall t :: GoneCount(before, after, hi, t) == GoneCount(before, after, lo, t)
    ensures SurvivedExact(before, after, lo, survived) ==> SurvivedExact(before, after, hi, survived)
    ensures forall t :: SpareLeft(before, after, hi, t) == SpareLeft(before, after, lo, t)
  {
    hide IsAdded, Uncited, SparePositions, GoneCount;
  }

  lemma RemovesStart(before: seq<ParsedLine>, after: seq<ParsedLine>)
    ensures Removes(before, after, 0) == []
  {
  }

  lemma RemovesStep(before: seq<ParsedLine>, after: seq<ParsedLine>, i: nat)
    requires i < |before| && IsGone(before, after, i)
    ensures IsCited(before[i])
    ensures Removes(before, after, i + 1) ==
            if IsRemoved(before, after, i) then Removes(before, after, i) + [RemoveOf(before[i])]
            else Removes(before, after, i)
  {
    hide Partner, Spare, GoneCount;
  }

  /** The third pass: a gone line whose words survive without the cite takes the first such line. */
  method MatchGone(before: seq<ParsedLine>, after: seq<ParsedLine>, gone: seq<nat>, added: seq<nat>)
    returns (survived: set<nat>, removes: seq<Change>)
    requires gone == Where(GoneAt(before, after), |before|)
    requires added == Where(AddedAt(before, after), |after|)
    ensures SurvivedExact(before, after, |before|, survived)
    ensures removes == Removes(before, after, |before|)
  {
    hide SparePositions, SpareLeft, SurvivedExact, Where, IsGone, IsRemoved, GoneCount, Removes, RemoveOf;
    var queues := QueueSpare(before, after, added);
    survived, removes := {}, [];
    RemovesStart(before, after);
    var at := Next(gone, 0, |before|);
    WhereExact(GoneAt(before, after), |before|);
    SpareLeftStart(before, after);
    GoneSkip(before, after, 0, at, 0);
    SameGoneCount(before, after, 0, at, survived);
    for g := 0 to |gone|
      invariant fresh(queues) && queues.Valid() && at == Next(gone, g, |before|) <= |before|
      invariant forall t :: queues.Pending(t) == SpareLeft(before, after, at, t)
      invariant SurvivedExact(before, after, at, survived)
      invariant removes == Removes(before, after, at)
    {
      var i, next := gone[g], Next(gone, g + 1, |before|);
      SpareLeftStep(before, after, i);
      SurvivedStep(before, after, i, survived);
      RemovesStep(before, after, i);
      var same := queues.Shift(before[i].text);
      if same.Some? {
        survived := survived + {same.value};
      } else {
        removes := removes + [RemoveOf(before[i])];
      }
      GoneSkip(before, after, i + 1, next, g + 1);
      SameGoneCount(before, after, i + 1, next, survived);
      at := next;
    }
  }

  lemma {:induction false} NewsSkip(before: seq<ParsedLine>, after: seq<ParsedLine>, lo: nat, hi: nat, g: nat)
    requires Gap(AddedAt(before, after), |after|, lo, hi, g)
    ensures hi <= |after| && News(before, after, hi) == News(before, after, lo)
    decreases hi
  {
    hide Partner, Uncited;
    if lo < hi {
      WhereGap(AddedAt(before, after), |after|, g, hi - 1);
      NewsSkip(before, after, lo, hi - 1, g);
    }
  }

  method CollectNews(before: seq<ParsedLine>, after: seq<ParsedLine>, added: seq<nat>, survived: set<nat>)
    returns (news: seq<Change>)
    requires added == Where(AddedAt(before, after), |after|)
    requires SurvivedExact(before, after, |before|, survived)
    ensures news == News(before, after, |after|)
  {
    hide Where, Partner, Uncited, GoneCount;
    news := [];
    WhereExact(AddedAt(before, after), |after|);
    NewsSkip(before, after, 0, Next(added, 0, |after|), 0);
    for g := 0 to |added|
      invariant Next(added, g, |after|) <= |after|
      invariant news == News(before, after, Next(added, g, |after|))
    {
      var j := added[g];
      if j !in survived { news := news + [NewOf(after[j])]; }
      NewsSkip(before, after, j + 1, Next(added, g + 1, |after|), g + 1);
    }
  }

  /** `diff`, through the queues. */
  method DiffLines(oldLines: seq<ParsedLine>, newLines: seq<ParsedLine>) returns (changes: Changes)
    ensures var before, after := Content(oldLines), Content(newLines);
            changes.list == Proposals(before, after) && (changes.layout <==> LayoutLeft(before, after))
  {
    hide Edits, News, Removes, PairedExact, SurvivedExact, Where;
    var before, after := Content(oldLines), Content(newLines);
    var paired, edits, gone := PairCited(before, after);
    var added, layout := FindAdded(before, after, paired);
    var survived, removes := MatchGone(before, after, gone, added);
    var news := CollectNews(before, after, added, survived);
    changes := Changes(Sort(ByLine(), edits + news) + Sort(ByLine(), removes), layout);
  }
}
