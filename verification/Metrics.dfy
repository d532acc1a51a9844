/** The retrieval metrics of packages/server/eval/metrics.go, over the reals. */
module Metrics {
  import opened Sorting
  import opened Bits

  type Id = string

  /** Judged grades. Go reads 0 for a key that isn't there. */
  function Judged(relevance: map<Id, int>, id: Id): int { if id in relevance then relevance[id] else 0 }

  /** `clampRel`: a harmful -1 gains nothing. */
  function Clamp(rel: int): nat { if rel < 0 then 0 else rel }

  function Gain(grade: nat): real { Pow2(grade) as real - 1.0 }

  /** Each grade gains one more than twice what the grade below gains; no grade gains nothing. */
  lemma GainDoubles(grade: nat)
    ensures Gain(0) == 0.0 && Gain(grade + 1) == 2.0 * Gain(grade) + 1.0
  {
    assert Pow2(grade + 1) == 2 * Pow2(grade);
  }

  function Top(k: int, n: nat): (m: nat)
    ensures m <= n
  {
    if k <= 0 then 0 else if k < n then k else n
  }

  /** What the metrics need of `log2(rank + 1)`, by index: positive, and no smaller further down. */
  ghost predicate IsDiscount(d: nat -> real) {
    (forall i :: d(i) > 0.0) && forall i, j :: i <= j ==> d(i) <= d(j)
  }

  function GainAt(grades: seq<nat>, i: nat): real { if i < |grades| then Gain(grades[i]) else 0.0 }

  function GainsOf(grades: seq<nat>): nat -> real { (i: nat) => GainAt(grades, i) }

  function Sum(f: nat -> real, n: nat): real { if n == 0 then 0.0 else Sum(f, n - 1) + f(n - 1) }

  ghost function Discounted(f: nat -> real, d: nat -> real, n: nat): real
    requires IsDiscount(d)
  {
    if n == 0 then 0.0 else Discounted(f, d, n - 1) + f(n - 1) / d(n - 1)
  }

  function GradesOf(relevance: map<Id, int>, ids: seq<Id>): seq<nat> {
    seq(|ids|, i requires 0 <= i < |ids| => Clamp(Judged(relevance, ids[i])))
  }

  ghost function Dcg(grades: seq<nat>, d: nat -> real, n: nat): real
    requires IsDiscount(d)
  {
    Discounted(GainsOf(grades), d, n)
  }

  // ---------------------------------------------------------------------
  // The ideal ranking, whatever order the map gives its keys in
  // ---------------------------------------------------------------------

  ghost predicate Enumerates(keys: seq<Id>, s: set<Id>) {
    NoDuplicates(keys) && forall x :: x in keys <==> x in s
  }

  lemma {:induction false} Enumeration(s: set<Id>) returns (keys: seq<Id>)
    ensures Enumerates(keys, s)
  {
    keys := [];
    var left := s;
    while left != {}
      invariant left <= s && Enumerates(keys, s - left)
    {
      var x :| x in left;
      left := left - {x};
      keys := keys + [x];
    }
  }

  lemma EnumerationExists(s: set<Id>)
    ensures exists keys :: Enumerates(keys, s)
  {
    var keys := Enumeration(s);
  }

  function Descending(): (nat, nat) -> bool { (a: nat, b: nat) => a >= b }

  lemma DescendingOrder()
    ensures TotalPreorder(Descending()) && forall s :: Antisymmetric(Descending(), s)
  {
  }

  ghost function Ideal(relevance: map<Id, int>, k: int, d: nat -> real): real
    requires IsDiscount(d)
  {
    EnumerationExists(relevance.Keys);
    var keys :| Enumerates(keys, relevance.Keys);
    Dcg(Sort(Descending(), GradesOf(relevance, keys)), d, Top(k, |keys|))
  }

  lemma {:induction false} GradesPermuted(relevance: map<Id, int>, a: seq<Id>, b: seq<Id>)
    requires multiset(a) == multiset(b)
    ensures multiset(GradesOf(relevance, a)) == multiset(GradesOf(relevance, b))
  {
    hide GradesOf, Judged, Clamp;
    SameSize(a, b);
    SameMembers(a, b);
    if a != [] {
      assert a[0] in b;
      var i :| 0 <= i < |b| && b[i] == a[0];
      var rest := b[..i] + b[i + 1..];
      WithoutFirst(a, b, i);
      GradesPermuted(relevance, a[1..], rest);
      GradesWithout(relevance, b, i);
      GradesWithout(relevance, a, 0);
      assert a[..0] + a[1..] == a[1..];
    }
  }

  lemma WithoutFirst<T>(a: seq<T>, b: seq<T>, i: nat)
    requires multiset(a) == multiset(b) && a != [] && i < |b| && b[i] == a[0]
    ensures multiset(a[1..]) == multiset(b[..i] + b[i + 1..])
  {
    WithoutOne(b, i);
    TailContents(a);
  }

  lemma GradesWithout(relevance: map<Id, int>, ids: seq<Id>, i: nat)
    requires i < |ids|
    ensures multiset(GradesOf(relevance, ids)) ==
            multiset(GradesOf(relevance, ids[..i] + ids[i + 1..])) + multiset{Clamp(Judged(relevance, ids[i]))}
  {
    var g := GradesOf(relevance, ids);
    assert GradesOf(relevance, ids[..i] + ids[i + 1..]) == g[..i] + g[i + 1..];
    WithoutOne(g, i);
  }

  lemma WithoutOne<T>(s: seq<T>, i: nat)
    requires i < |s|
    ensures multiset(s) == multiset(s[..i] + s[i + 1..]) + multiset{s[i]}
  {
    assert s == s[..i] + [s[i]] + s[i + 1..];
  }

  /** The ideal value doesn't depend on the order in which the judgments are read. */
  lemma IdealAny(relevance: map<Id, int>, k: int, d: nat -> real, keys: seq<Id>)
    requires IsDiscount(d) && Enumerates(keys, relevance.Keys)
    ensures Ideal(relevance, k, d) == Dcg(Sort(Descending(), GradesOf(relevance, keys)), d, Top(k, |keys|))
  {
    hide Dcg, Sort;
    EnumerationExists(relevance.Keys);
    var other :| Enumerates(other, relevance.Keys)
              && Ideal(relevance, k, d) == Dcg(Sort(Descending(), GradesOf(relevance, other)), d, Top(k, |other|));
    SameSet(keys, other);
    SameSize(keys, other);
    GradesPermuted(relevance, keys, other);
    DescendingOrder();
    SortPermuted(Descending(), GradesOf(relevance, keys), GradesOf(relevance, other));
  }

  /** `idealDCG`. */
  method IdealDcg(relevance: map<Id, int>, k: int, d: nat -> real) returns (idcg: real)
    requires IsDiscount(d)
    ensures idcg == Ideal(relevance, k, d)
  {
    hide Sort, Ideal;
    var rels: seq<nat> := [];
    var left := relevance.Keys;
    ghost var keys: seq<Id> := [];
    while left != {}
      invariant left <= relevance.Keys && Enumerates(keys, relevance.Keys - left)
      invariant rels == GradesOf(relevance, keys)
      decreases |left|
    {
      var id :| id in left;
      left := left - {id};
      rels := rels + [Clamp(relevance[id])];
      keys := keys + [id];
    }
    IdealAny(relevance, k, d, keys);
    SortContents(Descending(), rels);
    rels := Sort(Descending(), rels);
    idcg := 0.0;
    var n := Top(k, |rels|);
    for i := 0 to n
      invariant idcg == Dcg(rels, d, i)
    {
      var gain := Pow2(rels[i]) as real - 1.0;
      idcg := idcg + gain / d(i);
    }
  }

  ghost function NdcgOf(results: seq<Id>, relevance: map<Id, int>, k: int, d: nat -> real): real
    requires IsDiscount(d)
  {
    if k <= 0 || results == [] || Ideal(relevance, k, d) == 0.0 then 0.0
    else Dcg(GradesOf(relevance, results), d, Top(k, |results|)) / Ideal(relevance, k, d)
  }

  /** `NDCG`. */
  method Ndcg(results: seq<Id>, relevance: map<Id, int>, k: int, d: nat -> real) returns (ndcg: real)
    requires IsDiscount(d)
    ensures ndcg == NdcgOf(results, relevance, k, d)
  {
    hide Ideal;
    if k <= 0 || |results| == 0 { return 0.0; }
    var dcg := 0.0;
    var n := Top(k, |results|);
    ghost var grades := GradesOf(relevance, results);
    for i := 0 to n
      invariant dcg == Dcg(grades, d, i)
    {
      var rel := Clamp(Judged(relevance, results[i]));
      var gain := Pow2(rel) as real - 1.0;
      dcg := dcg + gain / d(i);
    }
    var idcg := IdealDcg(relevance, k, d);
    if idcg == 0.0 { return 0.0; }
    return dcg / idcg;
  }

  // ---------------------------------------------------------------------
  // NDCG stays within 0 and 1
  // ---------------------------------------------------------------------

  /** Summation by parts: smaller prefix sums stay smaller under weights that only shrink. */
  lemma {:induction false} SmallerPrefixes(f: nat -> real, g: nat -> real, d: nat -> real, n: nat)
    requires IsDiscount(d) && n > 0
    requires forall m: nat | m <= n :: Sum(f, m) <= Sum(g, m)
    ensures Discounted(g, d, n) - Discounted(f, d, n) >= (Sum(g, n) - Sum(f, n)) / d(n - 1) >= 0.0
  {
    var gap := Sum(g, n) - Sum(f, n);
    Quotient(gap, d(n - 1));
    if n > 1 {
      SmallerPrefixes(f, g, d, n - 1);
      var before := Sum(g, n - 1) - Sum(f, n - 1);
      ShrinkingWeights(before, d(n - 2), d(n - 1));
      SplitQuotient(gap, before, d(n - 1));
      SplitQuotient(g(n - 1), f(n - 1), d(n - 1));
    } else {
      assert Sum(f, 0) == Sum(g, 0) == 0.0;
      SplitQuotient(g(0), f(0), d(0));
    }
  }

  lemma Quotient(x: real, y: real)
    requires x >= 0.0 && y > 0.0
    ensures x / y >= 0.0
  {
  }

  lemma ShrinkingWeights(x: real, y: real, z: real)
    requires x >= 0.0 && 0.0 < y <= z
    ensures x / y >= x / z
  {
    var q := x / y;
    Quotient(x, y);
    assert q * z - x == q * (z - y) >= 0.0;
    Quotient(q * z - x, z);
    SplitQuotient(q * z, x, z);
    assert q * z / z == q;
  }

  lemma SplitQuotient(x: real, y: real, z: real)
    requires z > 0.0
    ensures x / z - y / z == (x - y) / z
  {
  }

  function GainOf(relevance: map<Id, int>, id: Id): real { Gain(Clamp(Judged(relevance, id))) }

  /** Only a positive judgment gains anything, one less than its power of two. */
  lemma GainExactly(relevance: map<Id, int>, id: Id)
    ensures GainOf(relevance, id) ==
            if id in relevance && relevance[id] > 0 then Pow2(relevance[id]) as real - 1.0 else 0.0
  {
  }

  function Total(relevance: map<Id, int>, ids: seq<Id>): real {
    if ids == [] then 0.0 else Total(relevance, ids[..|ids| - 1]) + GainOf(relevance, ids[|ids| - 1])
  }

  lemma {:induction false} TotalConcat(relevance: map<Id, int>, a: seq<Id>, b: seq<Id>)
    ensures Total(relevance, a + b) == Total(relevance, a) + Total(relevance, b)
  {
    hide GainOf;
    if b == [] {
      assert a + b == a;
    } else {
      assert (a + b)[..|a + b| - 1] == a + b[..|b| - 1];
      TotalConcat(relevance, a, b[..|b| - 1]);
    }
  }

  lemma {:induction false} GainBounds(a: nat, b: nat)
    requires a <= b
    ensures 0.0 <= Gain(a) <= Gain(b)
  {
    if a < b { GainBounds(a, b - 1); }
  }

  ghost predicate Ranked(relevance: map<Id, int>, ids: seq<Id>) {
    forall i, j | 0 <= i < j < |ids| :: Clamp(Judged(relevance, ids[i])) >= Clamp(Judged(relevance, ids[j]))
  }

  /** Distinct results gain no more than as many of the best. */
  lemma {:induction false} BestTotal(relevance: map<Id, int>, ids: seq<Id>, best: seq<Id>)
    requires NoDuplicates(ids) && Ranked(relevance, best)
    requires forall x | x in ids :: x in best || GainOf(relevance, x) == 0.0
    ensures Total(relevance, ids) <= Total(relevance, best[..Top(|ids|, |best|)])
    decreases |best|
  {
    hide GainOf, Total;
    if ids == [] || best == [] {
      NoGain(relevance, ids);
      TotalPositive(relevance, best[..Top(|ids|, |best|)]);
    } else {
      var x, n := best[0], |ids| - 1;
      var i := if x in ids then IndexOf(ids, x) else n;
      var rest := ids[..i] + ids[i + 1..];
      Without(relevance, ids, i);
      assert forall y :: y in best <==> y == x || y in best[1..];
      BestFirst(relevance, best, ids[i]);
      BestTotal(relevance, rest, best[1..]);
      var m := Top(|ids|, |best|);
      assert best[..m] == [x] + best[1..][..m - 1];
      TotalConcat(relevance, [x], best[1..][..m - 1]);
      TotalOne(relevance, x);
    }
  }

  function IndexOf(ids: seq<Id>, x: Id): (i: nat)
    requires x in ids
    ensures i < |ids| && ids[i] == x
  {
    if ids[0] == x then 0 else 1 + IndexOf(ids[1..], x)
  }

  lemma TotalOne(relevance: map<Id, int>, x: Id)
    ensures Total(relevance, [x]) == GainOf(relevance, x)
  {
    assert Total(relevance, [x][..0]) == 0.0;
  }

  lemma BestFirst(relevance: map<Id, int>, best: seq<Id>, y: Id)
    requires best != [] && Ranked(relevance, best) && (y in best || GainOf(relevance, y) == 0.0)
    ensures GainOf(relevance, y) <= GainOf(relevance, best[0])
  {
    hide Gain;
    if y in best {
      var i := IndexOf(best, y);
      GainBounds(Clamp(Judged(relevance, y)), Clamp(Judged(relevance, best[0])));
    } else {
      GainBounds(Clamp(Judged(relevance, best[0])), Clamp(Judged(relevance, best[0])));
    }
  }

  lemma Without(relevance: map<Id, int>, ids: seq<Id>, i: nat)
    requires NoDuplicates(ids) && i < |ids|
    ensures var rest := ids[..i] + ids[i + 1..];
            && NoDuplicates(rest) && |rest| == |ids| - 1 && (forall y | y in rest :: y in ids && y != ids[i])
            && Total(relevance, ids) == Total(relevance, rest) + GainOf(relevance, ids[i])
  {
    hide GainOf, Total;
    assert ids == ids[..i] + [ids[i]] + ids[i + 1..];
    TotalConcat(relevance, ids[..i] + [ids[i]], ids[i + 1..]);
    TotalConcat(relevance, ids[..i], [ids[i]]);
    TotalConcat(relevance, ids[..i], ids[i + 1..]);
    TotalOne(relevance, ids[i]);
  }

  lemma {:induction false} NoGain(relevance: map<Id, int>, ids: seq<Id>)
    requires forall x | x in ids :: GainOf(relevance, x) == 0.0
    ensures Total(relevance, ids) == 0.0
  {
    hide GainOf;
    if ids != [] { NoGain(relevance, ids[..|ids| - 1]); }
  }

  lemma {:induction false} TotalPositive(relevance: map<Id, int>, ids: seq<Id>)
    ensures Total(relevance, ids) >= 0.0
  {
    if ids != [] {
      var g := Clamp(Judged(relevance, ids[|ids| - 1]));
      GainBounds(g, g);
      TotalPositive(relevance, ids[..|ids| - 1]);
    }
  }

  lemma {:induction false} SumIsTotal(relevance: map<Id, int>, ids: seq<Id>, m: nat)
    ensures Sum(GainsOf(GradesOf(relevance, ids)), m) == Total(relevance, ids[..Top(m, |ids|)])
  {
    if m > 0 {
      SumIsTotal(relevance, ids, m - 1);
      if m <= |ids| { assert ids[..m][..m - 1] == ids[..m - 1]; }
    }
  }

  lemma {:induction false} DiscountedGrows(f: nat -> real, d: nat -> real, m: nat, n: nat)
    requires IsDiscount(d) && m <= n && forall i :: f(i) >= 0.0
    ensures 0.0 <= Discounted(f, d, m) <= Discounted(f, d, n)
  {
    if m < n {
      DiscountedGrows(f, d, m, n - 1);
      Quotient(f(n - 1), d(n - 1));
    } else if n > 0 {
      DiscountedGrows(f, d, n - 1, n - 1);
      Quotient(f(n - 1), d(n - 1));
    }
  }

  lemma GainsPositive(grades: seq<nat>)
    ensures forall i :: GainsOf(grades)(i) >= 0.0
  {
    forall i: nat
      ensures GainAt(grades, i) >= 0.0
    {
      if i < |grades| { GainBounds(grades[i], grades[i]); }
    }
  }

  /** The keys from the best grade to the worst. */
  lemma RankedKeys(relevance: map<Id, int>) returns (keys: seq<Id>)
    ensures Enumerates(keys, relevance.Keys) && Ranked(relevance, keys)
  {
    var some := Enumeration(relevance.Keys);
    var le := (a: Id, b: Id) => Clamp(Judged(relevance, a)) >= Clamp(Judged(relevance, b));
    assert TotalPreorder(le);
    keys := Sort(le, some);
    SortContents(le, some);
    SortSorted(le, some);
    SameMembers(keys, some);
    NoDuplicatesPermuted(keys, some);
    assert forall i, j | 0 <= i < j < |keys| :: le(keys[i], keys[j]);
  }

  /** Ranked keys spell out the ideal ranking. */
  lemma RankedIsIdeal(relevance: map<Id, int>, k: int, d: nat -> real, keys: seq<Id>)
    requires IsDiscount(d) && Enumerates(keys, relevance.Keys) && Ranked(relevance, keys)
    ensures Ideal(relevance, k, d) == Dcg(GradesOf(relevance, keys), d, Top(k, |keys|))
  {
    hide Dcg, Ideal, Sort;
    IdealAny(relevance, k, d, keys);
    DescendingOrder();
    SortIdentity(Descending(), GradesOf(relevance, keys));
  }

  /** A list is complete after its length. */
  lemma {:induction false} DcgBeyond(grades: seq<nat>, d: nat -> real, n: nat)
    requires IsDiscount(d) && n >= |grades|
    ensures Dcg(grades, d, n) == Dcg(grades, d, |grades|)
  {
    if n > |grades| {
      DcgBeyond(grades, d, n - 1);
      assert 0.0 / d(n - 1) == 0.0;
    }
  }

  /** For distinct results: no ranking is worth more than the ideal one. */
  lemma NdcgWithinOne(results: seq<Id>, relevance: map<Id, int>, k: int, d: nat -> real)
    requires IsDiscount(d) && NoDuplicates(results)
    ensures 0.0 <= NdcgOf(results, relevance, k, d) <= 1.0
  {
    hide Discounted, Ideal;
    if k > 0 && results != [] {
      var keys := RankedKeys(relevance);
      RankedIsIdeal(relevance, k, d, keys);
      var grades, best, n := GradesOf(relevance, results), GradesOf(relevance, keys), Top(k, |results|);
      forall m: nat | m <= n
        ensures Sum(GainsOf(grades), m) <= Sum(GainsOf(best), m)
      {
        PrefixBelow(results, relevance, keys, m);
      }
      SmallerPrefixes(GainsOf(grades), GainsOf(best), d, n);
      GainsPositive(grades);
      GainsPositive(best);
      DiscountedGrows(GainsOf(grades), d, 0, n);
      DiscountedGrows(GainsOf(best), d, n, if n <= Top(k, |keys|) then Top(k, |keys|) else n);
      if Top(k, |keys|) < n { DcgBeyond(best, d, n); }
      assert Dcg(grades, d, n) <= Ideal(relevance, k, d);
      ShareOf(Dcg(grades, d, n), Ideal(relevance, k, d));
    }
  }

  lemma PrefixBelow(results: seq<Id>, relevance: map<Id, int>, keys: seq<Id>, m: nat)
    requires NoDuplicates(results) && m <= |results| && Enumerates(keys, relevance.Keys) && Ranked(relevance, keys)
    ensures Sum(GainsOf(GradesOf(relevance, results)), m) <= Sum(GainsOf(GradesOf(relevance, keys)), m)
  {
    SumIsTotal(relevance, results, m);
    SumIsTotal(relevance, keys, m);
    assert Pow2(0) == 1;
    BestTotal(relevance, results[..m], keys);
  }

  lemma ShareOf(x: real, y: real)
    requires 0.0 <= x <= y
    ensures y != 0.0 ==> 0.0 <= x / y <= 1.0
  {
    if y != 0.0 {
      Quotient(x, y);
      Quotient(y - x, y);
      SplitQuotient(y, x, y);
    }
  }

  /** A ranking of the judged items from best to worst reaches 1. */
  lemma DescendingRankingIsIdeal(results: seq<Id>, relevance: map<Id, int>, k: int, d: nat -> real)
    requires IsDiscount(d) && Enumerates(results, relevance.Keys) && Ranked(relevance, results)
    requires k > 0 && Ideal(relevance, k, d) != 0.0
    ensures NdcgOf(results, relevance, k, d) == 1.0
  {
    hide Dcg, Ideal;
    RankedIsIdeal(relevance, k, d, results);
    NothingIdeal(relevance, results, k, d);
    WholeShare(Ideal(relevance, k, d));
  }

  lemma NothingIdeal(relevance: map<Id, int>, results: seq<Id>, k: int, d: nat -> real)
    requires IsDiscount(d)
    ensures results == [] ==> Dcg(GradesOf(relevance, results), d, Top(k, |results|)) == 0.0
  {
  }

  lemma WholeShare(x: real)
    requires x != 0.0
    ensures x / x == 1.0
  {
  }

  // ---------------------------------------------------------------------
  // Expected reciprocal rank
  // ---------------------------------------------------------------------

  /** The probability that a reader stops at a result of this grade. */
  function Stop(grade: nat, maxRel: nat): real { Gain(grade) / Pow2(maxRel) as real }

  /** The probability that a reader gets past the first `n` results. */
  function Trust(grades: seq<nat>, maxRel: nat, n: nat): real
    requires n <= |grades|
  {
    if n == 0 then 1.0 else Trust(grades, maxRel, n - 1) * (1.0 - Stop(grades[n - 1], maxRel))
  }

  /** The expected reciprocal rank of the result that a reader stops at. */
  function Err(grades: seq<nat>, maxRel: nat, n: nat): real
    requires n <= |grades|
  {
    if n == 0 then 0.0
    else Err(grades, maxRel, n - 1) + Trust(grades, maxRel, n - 1) * Stop(grades[n - 1], maxRel) / n as real
  }

  lemma StopBounds(grade: nat, maxRel: nat)
    requires grade <= maxRel
    ensures 0.0 <= Stop(grade, maxRel) < 1.0
  {
    hide Pow2;
    GainBounds(grade, maxRel);
    GainBounds(grade, grade);
    var p := Pow2(maxRel) as real;
    Quotient(Gain(grade), p);
    assert Gain(grade) < p;
    assert Stop(grade, maxRel) * p == Gain(grade);
    StrictShare(Stop(grade, maxRel), p);
  }

  lemma StrictShare(q: real, p: real)
    requires p > 0.0 && q * p < p
    ensures q < 1.0
  {
    assert q >= 1.0 ==> (q - 1.0) * p >= 0.0;
    assert (q - 1.0) * p == q * p - p;
  }

  /** With judged grades up to `maxRel`: never more than the probability that the reader stopped at all. */
  lemma {:induction false} ErrBelow(grades: seq<nat>, maxRel: nat, n: nat)
    requires n <= |grades| && forall g | g in grades :: g <= maxRel
    ensures 0.0 <= Err(grades, maxRel, n) <= 1.0 - Trust(grades, maxRel, n) && 0.0 < Trust(grades, maxRel, n) <= 1.0
  {
    hide Stop, Err, Trust;
    if n == 0 {
      ErrStart(grades, maxRel);
    } else {
      ErrNext(grades, maxRel, n - 1);
      ErrBelow(grades, maxRel, n - 1);
      assert grades[n - 1] in grades;
      StopBounds(grades[n - 1], maxRel);
      ErrStep(Err(grades, maxRel, n - 1), Trust(grades, maxRel, n - 1), Stop(grades[n - 1], maxRel), n as real,
              Err(grades, maxRel, n), Trust(grades, maxRel, n));
    }
  }

  lemma ErrStep(err: real, trust: real, r: real, rank: real, nextErr: real, nextTrust: real)
    requires 0.0 <= err <= 1.0 - trust && 0.0 < trust <= 1.0 && 0.0 <= r < 1.0 && rank >= 1.0
    requires nextErr == err + trust * r / rank && nextTrust == trust * (1.0 - r)
    ensures 0.0 <= nextErr <= 1.0 - nextTrust && 0.0 < nextTrust <= 1.0
  {
    var x := trust * r;
    assert 0.0 <= x <= trust;
    Quotient(x, rank);
    ShrinkingWeights(x, 1.0, rank);
    assert x / 1.0 == x;
    assert trust * (1.0 - r) == trust - x;
    Positive(trust, 1.0 - r, nextTrust);
  }

  lemma Positive(x: real, y: real, z: real)
    requires x > 0.0 && y > 0.0 && z == x * y
    ensures z > 0.0
  {
  }

  /** `ERRAtK`. */
  method ErrAtK(results: seq<Id>, relevance: map<Id, int>, k: int, maxRel: int) returns (err: real)
    ensures k <= 0 || maxRel <= 0 ==> err == 0.0
    ensures k > 0 && maxRel > 0 ==> err == Err(GradesOf(relevance, results), maxRel, Top(k, |results|))
    ensures (forall id | id in relevance :: relevance[id] <= maxRel) ==> 0.0 <= err < 1.0
  {
    hide Err, Trust, Stop, Pow2;
    if k <= 0 || maxRel <= 0 { return 0.0; }
    ghost var grades := GradesOf(relevance, results);
    var n := Top(k, |results|);
    var denom := Pow2(maxRel) as real;
    err := 0.0;
    var trust := 1.0;
    ErrStart(grades, maxRel);
    for i := 0 to n
      invariant err == Err(grades, maxRel, i) && trust == Trust(grades, maxRel, i)
    {
      var rel := Clamp(Judged(relevance, results[i]));
      var ri := (Pow2(rel) as real - 1.0) / denom;
      StopIs(rel, maxRel);
      ErrNext(grades, maxRel, i);
      err := err + trust * ri / (i + 1) as real;
      trust := trust * (1.0 - ri);
    }
    ErrWithin(results, relevance, maxRel, n);
  }

  lemma ErrStart(grades: seq<nat>, maxRel: nat)
    ensures Err(grades, maxRel, 0) == 0.0 && Trust(grades, maxRel, 0) == 1.0
  {
  }

  lemma StopIs(grade: nat, maxRel: nat)
    ensures Stop(grade, maxRel) == (Pow2(grade) as real - 1.0) / Pow2(maxRel) as real
  {
  }

  lemma ErrNext(grades: seq<nat>, maxRel: nat, i: nat)
    requires i < |grades|
    ensures Err(grades, maxRel, i + 1) ==
            Err(grades, maxRel, i) + Trust(grades, maxRel, i) * Stop(grades[i], maxRel) / (i + 1) as real
    ensures Trust(grades, maxRel, i + 1) == Trust(grades, maxRel, i) * (1.0 - Stop(grades[i], maxRel))
  {
    hide Stop;
  }

  lemma ErrWithin(results: seq<Id>, relevance: map<Id, int>, maxRel: nat, n: nat)
    requires n <= |results|
    ensures (forall id | id in relevance :: relevance[id] <= maxRel) ==>
              0.0 <= Err(GradesOf(relevance, results), maxRel, n) < 1.0
  {
    hide Err, Trust;
    if forall id | id in relevance :: relevance[id] <= maxRel {
      ErrBelow(GradesOf(relevance, results), maxRel, n);
    }
  }

  // ---------------------------------------------------------------------
  // Recall
  // ---------------------------------------------------------------------

  function Relevant(relevance: map<Id, int>, minRel: int): set<Id> {
    set id | id in relevance && relevance[id] >= minRel
  }

  /** How many of the first `n` results have a grade of `minRel` or more. */
  function Found(results: seq<Id>, relevance: map<Id, int>, minRel: int, n: nat): nat
    requires n <= |results|
  {
    if n == 0 then 0
    else Found(results, relevance, minRel, n - 1) + if Judged(relevance, results[n - 1]) >= minRel then 1 else 0
  }

  /** The results that count, by their places: an unjudged one counts as grade 0. */
  function FoundAt(results: seq<Id>, relevance: map<Id, int>, minRel: int, n: nat): set<nat>
    requires n <= |results|
  {
    set i: nat | i < n && (if results[i] in relevance then relevance[results[i]] >= minRel else 0 >= minRel)
  }

  lemma {:induction false} FoundExactly(results: seq<Id>, relevance: map<Id, int>, minRel: int, n: nat)
    requires n <= |results|
    ensures Found(results, relevance, minRel, n) == |FoundAt(results, relevance, minRel, n)|
  {
    hide FoundAt, Judged;
    if n == 0 {
      NothingFound(results, relevance, minRel);
    } else {
      FoundExactly(results, relevance, minRel, n - 1);
      FoundStep(results, relevance, minRel, n - 1);
    }
  }

  lemma NothingFound(results: seq<Id>, relevance: map<Id, int>, minRel: int)
    ensures FoundAt(results, relevance, minRel, 0) == {}
  {
  }

  lemma FoundStep(results: seq<Id>, relevance: map<Id, int>, minRel: int, n: nat)
    requires n < |results|
    ensures var less := FoundAt(results, relevance, minRel, n);
            && n !in less
            && FoundAt(results, relevance, minRel, n + 1) ==
               if Judged(relevance, results[n]) >= minRel then less + {n} else less
  {
  }

  function Recall(results: seq<Id>, relevance: map<Id, int>, k: int, minRel: int): real {
    var all := |Relevant(relevance, minRel)|;
    if k <= 0 then 0.0
    else if all == 0 then 1.0
    else Found(results, relevance, minRel, Top(k, |results|)) as real / all as real
  }

  /** `RecallAtK`. */
  method RecallAtK(results: seq<Id>, relevance: map<Id, int>, k: int, minRel: int) returns (recall: real)
    ensures recall == Recall(results, relevance, k, minRel)
  {
    if k <= 0 { return 0.0; }
    var totalRelevant := 0;
    var left := relevance.Keys;
    while left != {}
      invariant left <= relevance.Keys
      invariant totalRelevant == |Relevant(relevance, minRel) - left|
      decreases |left|
    {
      var id :| id in left;
      RelevantStep(Relevant(relevance, minRel), left, id);
      left := left - {id};
      if relevance[id] >= minRel { totalRelevant := totalRelevant + 1; }
    }
    assert Relevant(relevance, minRel) - {} == Relevant(relevance, minRel);
    if totalRelevant == 0 { return 1.0; }
    var n := Top(k, |results|);
    var found := 0;
    for i := 0 to n
      invariant found == Found(results, relevance, minRel, i)
    {
      if Judged(relevance, results[i]) >= minRel { found := found + 1; }
    }
    return found as real / totalRelevant as real;
  }

  lemma RelevantStep(all: set<Id>, left: set<Id>, id: Id)
    requires id in left
    ensures |all - (left - {id})| == |all - left| + if id in all then 1 else 0
  {
    if id in all {
      assert all - (left - {id}) == (all - left) + {id};
    } else {
      assert all - (left - {id}) == all - left;
    }
  }

  /** Distinct results with a grade of at least 1 are judged: none is found twice. */
  lemma {:induction false} FoundInto(results: seq<Id>, relevance: map<Id, int>, minRel: int, n: nat)
    returns (hits: set<Id>)
    requires n <= |results| && NoDuplicates(results) && minRel >= 1
    ensures hits <= Relevant(relevance, minRel) && |hits| == Found(results, relevance, minRel, n)
    ensures forall x | x in hits :: x in results[..n]
  {
    if n == 0 {
      hits := {};
    } else {
      hits := FoundInto(results, relevance, minRel, n - 1);
      if Judged(relevance, results[n - 1]) >= minRel {
        assert results[n - 1] !in results[..n - 1];
        hits := hits + {results[n - 1]};
      }
    }
  }

  lemma {:induction false} Within(a: set<Id>, b: set<Id>)
    requires a <= b
    ensures |a| <= |b|
    decreases |a|
  {
    if a != {} {
      var x :| x in a;
      Within(a - {x}, b - {x});
    }
  }

  lemma RecallWithinOne(results: seq<Id>, relevance: map<Id, int>, k: int, minRel: int)
    requires NoDuplicates(results) && minRel >= 1
    ensures 0.0 <= Recall(results, relevance, k, minRel) <= 1.0
  {
    hide Found, Relevant;
    var n := Top(k, |results|);
    var hits := FoundInto(results, relevance, minRel, n);
    Within(hits, Relevant(relevance, minRel));
    ShareOf(Found(results, relevance, minRel, n) as real, |Relevant(relevance, minRel)| as real);
  }
}
