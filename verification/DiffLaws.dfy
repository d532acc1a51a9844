/** What `diff` of packages/compiler/src/parse.ts promises: moves are silent, single edits are
    exact, and no line is lost or counted twice. */
module DiffLaws {
  import opened Text
  import opened Sorting
  import opened Parse
  import opened Diff
  import opened Matching

  // ---------------------------------------------------------------------
  // Pairs
  // ---------------------------------------------------------------------

  /** Pairing is symmetric: it matches lines one to one. */
  lemma PartnersInverse(before: seq<ParsedLine>, after: seq<ParsedLine>, i: nat, j: nat)
    requires i < |before| && IsCited(before[i]) && Partner(before, after, i) == Some(j)
    ensures IsCited(after[j]) && Key(after[j]) == Key(before[i])
    ensures Partner(after, before, j) == Some(i)
  {
    hide Key, Positions;
    var key := Key(before[i]);
    PositionsExact(after, |after|, key);
    assert j in Positions(after, |after|, key);
    PositionsGrow(before, i, |before|, key);
  }

  /** The pair of a line is the first line with its cites that no earlier line has taken: what
      scanning for the first unused line finds. */
  lemma PartnerIsFirstUnused(before: seq<ParsedLine>, after: seq<ParsedLine>, i: nat, j: nat)
    requires i < |before| && IsCited(before[i]) && j < |after|
    requires IsCited(after[j]) && Key(after[j]) == Key(before[i])
    ensures Partner(before, after, i) == Some(j) <==>
            !Taken(before, after, i, j) &&
            forall h | 0 <= h < j && IsCited(after[h]) && Key(after[h]) == Key(before[i]) :: Taken(before, after, i, h)
  {
    hide Key, Positions;
    var key := Key(before[i]);
    var rank, all := Cites(before, i, key), Positions(after, |after|, key);
    PositionsExact(after, |after|, key);
    PositionsGrow(after, j, |after|, key);
    TakenRank(before, after, i, j);
    forall h: nat | h < j && IsCited(after[h]) && Key(after[h]) == key
      ensures Cites(after, h, key) < Cites(after, j, key)
      ensures Taken(before, after, i, h) <==> Cites(after, h, key) < rank
    {
      PositionsGrow(after, h, j, key);
      TakenRank(before, after, i, h);
    }
    if Cites(after, j, key) > rank {
      var h := all[rank];
      assert h in all && Cites(after, h, key) == rank;
      CitesGrow(after, j, h, key);
      assert h < j;
    }
  }

  lemma CitesGrow(ls: seq<ParsedLine>, i: nat, j: nat, key: string)
    requires i <= |ls| && j <= |ls|
    ensures i <= j ==> Cites(ls, i, key) <= Cites(ls, j, key)
  {
    if i <= j { PositionsGrow(ls, i, j, key); }
  }

  /** Some earlier line with the same cites has taken line `j`. */
  ghost predicate Taken(before: seq<ParsedLine>, after: seq<ParsedLine>, i: nat, j: nat)
    requires i <= |before|
  {
    exists h | 0 <= h < i :: IsCited(before[h]) && Partner(before, after, h) == Some(j)
  }

  lemma TakenRank(before: seq<ParsedLine>, after: seq<ParsedLine>, i: nat, j: nat)
    requires i <= |before| && j < |after| && IsCited(after[j])
    ensures Taken(before, after, i, j) <==> Cites(after, j, Key(after[j])) < Cites(before, i, Key(after[j]))
  {
    hide Key, Positions;
    var key := Key(after[j]);
    var rank := Cites(after, j, key);
    PositionsGrow(after, j, |after|, key);
    PositionsExact(before, i, key);
    if rank < Cites(before, i, key) {
      var h := Positions(before, i, key)[rank];
      assert h in Positions(before, i, key);
      assert Partner(before, after, h) == Some(j);
    }
    if Taken(before, after, i, j) {
      var h :| 0 <= h < i && IsCited(before[h]) && Partner(before, after, h) == Some(j);
      PartnersInverse(before, after, h, j);
      PositionsExact(after, |after|, key);
      PositionsGrow(before, h, i, key);
    }
  }

  /** Lines pair by cites: for refs without commas, as all memory refs are, the key is the cites. */
  lemma KeyIsCites(a: ParsedLine, b: ParsedLine)
    requires IsCited(a) && IsCited(b)
    requires (forall r | r in a.refs :: ',' !in r) && (forall r | r in b.refs :: ',' !in r)
    ensures Key(a) == Key(b) <==> a.refs == b.refs
  {
    JoinInjective(a.refs, b.refs, ',');
  }

  // ---------------------------------------------------------------------
  // Empty lists
  // ---------------------------------------------------------------------

  lemma {:induction false} EditsEmpty(before: seq<ParsedLine>, after: seq<ParsedLine>, n: nat)
    requires n <= |before|
    ensures Edits(before, after, n) == [] <==> forall i | 0 <= i < n :: !IsEdited(before, after, i)
  {
    hide IsEdited;
    if n > 0 { EditsEmpty(before, after, n - 1); }
  }

  lemma {:induction false} RemovesEmpty(before: seq<ParsedLine>, after: seq<ParsedLine>, n: nat)
    requires n <= |before|
    ensures Removes(before, after, n) == [] <==> forall i | 0 <= i < n :: !IsRemoved(before, after, i)
  {
    hide IsGone, Spare;
    if n > 0 { RemovesEmpty(before, after, n - 1); }
  }

  lemma {:induction false} NewsEmpty(before: seq<ParsedLine>, after: seq<ParsedLine>, n: nat)
    requires n <= |after|
    ensures News(before, after, n) == [] <==> forall j | 0 <= j < n :: !IsNew(before, after, j)
  {
    hide IsNew;
    if n > 0 { NewsEmpty(before, after, n - 1); }
  }

  lemma ProposalsEmpty(before: seq<ParsedLine>, after: seq<ParsedLine>)
    ensures Proposals(before, after) == [] <==>
            && (forall i | 0 <= i < |before| :: !IsEdited(before, after, i) && !IsRemoved(before, after, i))
            && (forall j | 0 <= j < |after| :: !IsNew(before, after, j))
  {
    hide IsEdited, IsRemoved, IsNew, Sort;
    EditsEmpty(before, after, |before|);
    RemovesEmpty(before, after, |before|);
    NewsEmpty(before, after, |after|);
    SortContents(ByLine(), Edits(before, after, |before|) + News(before, after, |after|));
    SortContents(ByLine(), Removes(before, after, |before|));
  }

  // ---------------------------------------------------------------------
  // When an edit is silent
  // ---------------------------------------------------------------------

  /** The words of the lines with these cites, in file order. */
  function CitedTexts(ls: seq<ParsedLine>, key: string): seq<string> {
    var ps := Positions(ls, |ls|, key);
    seq(|ps|, r requires 0 <= r < |ps| => ls[ps[r]].text)
  }

  lemma CitedTextAt(ls: seq<ParsedLine>, i: nat)
    requires i < |ls| && IsCited(ls[i])
    ensures Cites(ls, i, Key(ls[i])) < |CitedTexts(ls, Key(ls[i]))|
    ensures CitedTexts(ls, Key(ls[i]))[Cites(ls, i, Key(ls[i]))] == ls[i].text
  {
    PositionsGrow(ls, i, |ls|, Key(ls[i]));
  }

  lemma {:induction false} NthUncited(ls: seq<ParsedLine>, n: nat, text: string, r: nat) returns (j: nat)
    requires n <= |ls| && r < Uncited(ls, n, text)
    ensures j < n && !IsCited(ls[j]) && ls[j].text == text && Uncited(ls, j, text) == r
  {
    if !IsCited(ls[n - 1]) && ls[n - 1].text == text && Uncited(ls, n - 1, text) == r {
      j := n - 1;
    } else {
      j := NthUncited(ls, n - 1, text, r);
    }
  }

  lemma {:induction false} NthGone(before: seq<ParsedLine>, after: seq<ParsedLine>, n: nat, text: string, r: nat)
    returns (i: nat)
    requires n <= |before| && r < GoneCount(before, after, n, text)
    ensures i < n && IsGone(before, after, i) && before[i].text == text && GoneCount(before, after, i, text) == r
  {
    hide IsGone;
    if IsGone(before, after, n - 1) && before[n - 1].text == text && GoneCount(before, after, n - 1, text) == r {
      i := n - 1;
    } else {
      i := NthGone(before, after, n - 1, text, r);
    }
  }

  lemma {:induction false} GoneGrow(before: seq<ParsedLine>, after: seq<ParsedLine>, m: nat, n: nat, text: string)
    requires m <= n <= |before|
    ensures GoneCount(before, after, m, text) <= GoneCount(before, after, n, text)
    ensures m < n && IsGone(before, after, m) && before[m].text == text ==>
              GoneCount(before, after, m, text) < GoneCount(before, after, n, text)
  {
    hide IsGone;
    if m < n { GoneGrow(before, after, m, n - 1, text); }
  }

  /** Under each cite the new words are the first old ones, unchanged. */
  ghost predicate CitesKept(before: seq<ParsedLine>, after: seq<ParsedLine>) {
    forall key :: CitedTexts(after, key) <= CitedTexts(before, key)
  }

  /** The uncited words are the old uncited ones and those that lost their cite, as often. */
  ghost predicate WordsKept(before: seq<ParsedLine>, after: seq<ParsedLine>) {
    forall text :: Uncited(after, |after|, text) ==
                   Uncited(before, |before|, text) + GoneCount(before, after, |before|, text)
  }

  lemma KeptCites(before: seq<ParsedLine>, after: seq<ParsedLine>, key: string)
    requires forall i | 0 <= i < |before| :: !IsEdited(before, after, i)
    requires forall j | 0 <= j < |after| :: !IsNew(before, after, j)
    ensures CitedTexts(after, key) <= CitedTexts(before, key)
  {
    hide Key, Positions, Uncited;
    var ps, qs := Positions(after, |after|, key), Positions(before, |before|, key);
    PositionsExact(after, |after|, key);
    PositionsExact(before, |before|, key);
    forall r | 0 <= r < |ps|
      ensures r < |qs| && after[ps[r]].text == before[qs[r]].text
    {
      assert ps[r] in ps;
      assert !IsNew(before, after, ps[r]);
      assert qs[r] in qs;
      assert Partner(before, after, qs[r]) == Some(ps[r]);
      assert !IsEdited(before, after, qs[r]);
    }
    assert |ps| > 0 ==> ps[|ps| - 1] in ps && |ps| - 1 < |qs|;
    assert CitedTexts(before, key)[..|ps|] == CitedTexts(after, key);
  }

  /** More uncited lines than the old file accounts for: one is new. */
  lemma SomeNew(before: seq<ParsedLine>, after: seq<ParsedLine>, text: string) returns (j: nat)
    requires Uncited(after, |after|, text) > Uncited(before, |before|, text) + GoneCount(before, after, |before|, text)
    ensures j < |after| && IsNew(before, after, j)
  {
    hide Partner, Uncited, GoneCount;
    j := NthUncited(after, |after|, text, Uncited(before, |before|, text) + GoneCount(before, after, |before|, text));
  }

  /** More gone lines than spare ones: one is removed. */
  lemma SomeRemoved(before: seq<ParsedLine>, after: seq<ParsedLine>, text: string) returns (i: nat)
    requires Uncited(before, |before|, text) <= Uncited(after, |after|, text)
    requires Uncited(after, |after|, text) < Uncited(before, |before|, text) + GoneCount(before, after, |before|, text)
    ensures i < |before| && IsRemoved(before, after, i)
  {
    hide Partner, Uncited, GoneCount;
    i := NthGone(before, after, |before|, text, Uncited(after, |after|, text) - Uncited(before, |before|, text));
  }

  lemma KeptWords(before: seq<ParsedLine>, after: seq<ParsedLine>, text: string)
    requires forall i | 0 <= i < |before| :: !IsRemoved(before, after, i)
    requires forall j | 0 <= j < |after| :: !IsNew(before, after, j)
    requires Uncited(before, |before|, text) <= Uncited(after, |after|, text)
    ensures Uncited(after, |after|, text) == Uncited(before, |before|, text) + GoneCount(before, after, |before|, text)
  {
    hide IsNew, IsRemoved, Uncited, GoneCount;
    var c, u := Uncited(before, |before|, text), Uncited(after, |after|, text);
    var g := GoneCount(before, after, |before|, text);
    if u > c + g { var j := SomeNew(before, after, text); }
    if u < c + g { var i := SomeRemoved(before, after, text); }
  }

  /** Exactly when a hand edit proposes nothing and leaves nothing uncited behind. */
  lemma SilentExactly(before: seq<ParsedLine>, after: seq<ParsedLine>)
    ensures Proposals(before, after) == [] && !LayoutLeft(before, after) <==>
            CitesKept(before, after) && WordsKept(before, after)
  {
    hide IsEdited, IsRemoved, IsNew, Proposals, CitedTexts, Uncited, GoneCount;
    ProposalsEmpty(before, after);
    if Proposals(before, after) == [] && !LayoutLeft(before, after) {
      forall key ensures CitedTexts(after, key) <= CitedTexts(before, key) { KeptCites(before, after, key); }
      forall text
        ensures Uncited(after, |after|, text) ==
                Uncited(before, |before|, text) + GoneCount(before, after, |before|, text)
      {
        KeptWords(before, after, text);
      }
    }
    if CitesKept(before, after) && WordsKept(before, after) {
      forall i | 0 <= i < |before|
        ensures !IsEdited(before, after, i) && !IsRemoved(before, after, i)
      {
        KeptNotEdited(before, after, i);
      }
      forall j | 0 <= j < |after|
        ensures !IsNew(before, after, j)
      {
        KeptNotNew(before, after, j);
      }
    }
  }

  lemma KeptNotEdited(before: seq<ParsedLine>, after: seq<ParsedLine>, i: nat)
    requires CitesKept(before, after) && WordsKept(before, after) && i < |before|
    ensures !IsEdited(before, after, i) && !IsRemoved(before, after, i)
  {
    hide Key, Positions, CitedTexts, Uncited, GoneCount;
    if IsCited(before[i]) {
      var key := Key(before[i]);
      CitedTextAt(before, i);
      if Partner(before, after, i).Some? {
        var j := Partner(before, after, i).value;
        PartnersInverse(before, after, i, j);
        PositionsExact(after, |after|, key);
        CitedTextAt(after, j);
        assert CitedTexts(after, key) <= CitedTexts(before, key);
      } else {
        GoneGrow(before, after, i, |before|, before[i].text);
      }
    }
  }

  lemma KeptNotNew(before: seq<ParsedLine>, after: seq<ParsedLine>, j: nat)
    requires CitesKept(before, after) && WordsKept(before, after) && j < |after|
    ensures !IsNew(before, after, j)
  {
    hide Key, Uncited, GoneCount;
    if IsCited(after[j]) {
      CitedTextAt(after, j);
      assert CitedTexts(after, Key(after[j])) <= CitedTexts(before, Key(after[j]));
    } else {
      UncitedGrow(after, j, |after|, after[j].text);
    }
  }

  /** Lines that only moved, keeping the order of lines with the same cites, propose nothing. */
  lemma MovesAreSilent(before: seq<ParsedLine>, after: seq<ParsedLine>)
    requires forall key :: CitedTexts(after, key) == CitedTexts(before, key)
    requires forall text :: Uncited(after, |after|, text) == Uncited(before, |before|, text)
    ensures Proposals(before, after) == [] && !LayoutLeft(before, after)
  {
    hide Proposals, CitedTexts, Uncited, GoneCount, LayoutLeft;
    forall text
      ensures GoneCount(before, after, |before|, text) == 0
    {
      NoneGone(before, after, |before|, text);
    }
    SilentExactly(before, after);
  }

  lemma {:induction false} NoneGone(before: seq<ParsedLine>, after: seq<ParsedLine>, n: nat, text: string)
    requires n <= |before|
    requires forall key :: |CitedTexts(after, key)| == |CitedTexts(before, key)|
    ensures GoneCount(before, after, n, text) == 0
  {
    hide Key;
    if n > 0 {
      NoneGone(before, after, n - 1, text);
      if IsCited(before[n - 1]) {
        CitedTextAt(before, n - 1);
        assert |CitedTexts(after, Key(before[n - 1]))| == |CitedTexts(before, Key(before[n - 1]))|;
      }
    }
  }

  // ---------------------------------------------------------------------
  // Single edits
  // ---------------------------------------------------------------------

  lemma {:induction false} OneEdit(before: seq<ParsedLine>, after: seq<ParsedLine>, n: nat, i: nat)
    requires i < n <= |before| && IsEdited(before, after, i)
    requires forall h | 0 <= h < n && h != i :: !IsEdited(before, after, h)
    ensures Edits(before, after, n) == [EditOf(before[i], after[Partner(before, after, i).value])]
  {
    hide Partner;
    if i < n - 1 {
      OneEdit(before, after, n - 1, i);
    } else {
      EditsEmpty(before, after, n - 1);
    }
  }

  lemma {:induction false} OneRemove(before: seq<ParsedLine>, after: seq<ParsedLine>, n: nat, i: nat)
    requires i < n <= |before| && IsRemoved(before, after, i)
    requires forall h | 0 <= h < n && h != i :: !IsRemoved(before, after, h)
    ensures Removes(before, after, n) == [RemoveOf(before[i])]
  {
    hide Partner, Spare, GoneCount;
    if i < n - 1 {
      OneRemove(before, after, n - 1, i);
    } else {
      RemovesEmpty(before, after, n - 1);
    }
  }

  lemma {:induction false} OneNew(before: seq<ParsedLine>, after: seq<ParsedLine>, n: nat, j: nat)
    requires j < n <= |after| && IsNew(before, after, j)
    requires forall h | 0 <= h < n && h != j :: !IsNew(before, after, h)
    ensures News(before, after, n) == [NewOf(after[j])]
  {
    hide IsNew;
    if j < n - 1 {
      OneNew(before, after, n - 1, j);
    } else {
      NewsEmpty(before, after, n - 1);
    }
  }

  lemma SortOne(le: (Change, Change) -> bool, c: Change)
    ensures Sort(le, [c] + []) == [c] && Sort(le, [] + [c]) == [c] && Sort(le, [c]) == [c]
    ensures Sort(le, []) == [] && Sort(le, [] + []) == []
  {
    assert [c] + [] == [c] && [] + [c] == [c];
  }

  /** Everything but the lines with one set of cites is as it was, though it may have moved. */
  ghost predicate SameElsewhere(before: seq<ParsedLine>, after: seq<ParsedLine>, key: string) {
    && (forall k | k != key :: CitedTexts(after, k) == CitedTexts(before, k))
    && (forall text :: Uncited(after, |after|, text) == Uncited(before, |before|, text))
  }

  lemma ElsewherePairs(before: seq<ParsedLine>, after: seq<ParsedLine>, key: string, i: nat)
    requires SameElsewhere(before, after, key) && i < |before| && IsCited(before[i]) && Key(before[i]) != key
    ensures !IsGone(before, after, i) && !IsEdited(before, after, i)
  {
    hide Key, Positions, Uncited;
    var k := Key(before[i]);
    assert CitedTexts(after, k) == CitedTexts(before, k);
    CitedTextAt(before, i);
    if Partner(before, after, i).Some? {
      var j := Partner(before, after, i).value;
      PartnersInverse(before, after, i, j);
      PositionsExact(after, |after|, k);
      CitedTextAt(after, j);
    }
  }

  lemma ElsewhereNotNew(before: seq<ParsedLine>, after: seq<ParsedLine>, key: string, j: nat)
    requires SameElsewhere(before, after, key) && j < |after|
    requires IsCited(after[j]) ==> Key(after[j]) != key
    ensures !IsNew(before, after, j)
  {
    hide Key, Uncited, GoneCount;
    if IsCited(after[j]) {
      CitedTextAt(after, j);
      assert CitedTexts(after, Key(after[j])) == CitedTexts(before, Key(after[j]));
    } else {
      UncitedGrow(after, j, |after|, after[j].text);
    }
  }

  lemma SinglePosition(ls: seq<ParsedLine>, key: string, i: nat)
    requires Positions(ls, |ls|, key) == [i]
    ensures i < |ls| && IsCited(ls[i]) && Key(ls[i]) == key && Cites(ls, i, key) == 0
    ensures forall h | 0 <= h < |ls| && IsCited(ls[h]) && Key(ls[h]) == key :: h == i
  {
    PositionsExact(ls, |ls|, key);
    assert i in [i];
    assert forall h | 0 <= h < |ls| && IsCited(ls[h]) && Key(ls[h]) == key :: h in Positions(ls, |ls|, key);
  }

  /** Rewording one line whose cites are its own is exactly one edit of it, wherever the lines moved. */
  lemma RewordingIsOneEdit(before: seq<ParsedLine>, after: seq<ParsedLine>, key: string, i: nat, j: nat)
    requires Positions(before, |before|, key) == [i] && Positions(after, |after|, key) == [j]
    requires i < |before| && j < |after| && before[i].text != after[j].text
    requires SameElsewhere(before, after, key)
    ensures IsCited(before[i])
    ensures var o, n := before[i], after[j];
            && Proposals(before, after) == [Edit(o.refs[0], o.refs, o.text, n.text, o.line, n.line)]
            && !LayoutLeft(before, after)
  {
    hide IsEdited, IsRemoved, IsNew, SameElsewhere, Edits, Removes, News;
    SinglePosition(before, key, i);
    SinglePosition(after, key, j);
    assert Partner(before, after, i) == Some(j) && Partner(after, before, j) == Some(i);
    assert IsEdited(before, after, i) && !IsNew(before, after, j) && !IsRemoved(before, after, i) by {
      Reworded(before, after, i, j);
    }
    forall h | 0 <= h < |before|
      ensures !IsRemoved(before, after, h) && (h != i ==> !IsEdited(before, after, h))
    {
      ElsewhereUncited(before, after, key, h);
    }
    forall h | 0 <= h < |after|
      ensures !IsNew(before, after, h)
    {
      if h != j { ElsewhereNotNew(before, after, key, h); }
    }
    OneEdit(before, after, |before|, i);
    RemovesEmpty(before, after, |before|);
    NewsEmpty(before, after, |after|);
    SortOne(ByLine(), EditOf(before[i], after[j]));
    NoLayoutLeft(before, after, key);
  }

  lemma Reworded(before: seq<ParsedLine>, after: seq<ParsedLine>, i: nat, j: nat)
    requires i < |before| && j < |after| && IsCited(before[i]) && IsCited(after[j])
    requires Partner(before, after, i) == Some(j) && Partner(after, before, j) == Some(i)
    ensures IsEdited(before, after, i) <==> before[i].text != after[j].text
    ensures !IsNew(before, after, j) && !IsRemoved(before, after, i)
  {
  }

  lemma NoLayoutLeft(before: seq<ParsedLine>, after: seq<ParsedLine>, key: string)
    requires SameElsewhere(before, after, key)
    ensures !LayoutLeft(before, after)
  {
    hide CitedTexts;
  }

  /** Lines outside the key are neither edited nor removed, and uncited lines never are. */
  lemma ElsewhereUncited(before: seq<ParsedLine>, after: seq<ParsedLine>, key: string, h: nat)
    requires SameElsewhere(before, after, key) && h < |before|
    ensures !IsCited(before[h]) || Key(before[h]) != key ==>
              !IsRemoved(before, after, h) && !IsEdited(before, after, h)
  {
    hide Partner, SameElsewhere, Spare, Key;
    if IsCited(before[h]) && Key(before[h]) != key {
      ElsewherePairs(before, after, key, h);
    }
  }

  lemma NoneCited(ls: seq<ParsedLine>, key: string)
    requires Positions(ls, |ls|, key) == []
    ensures forall h | 0 <= h < |ls| && IsCited(ls[h]) :: Key(ls[h]) != key
  {
    PositionsExact(ls, |ls|, key);
    assert forall h: nat :: h !in Positions(ls, |ls|, key);
  }

  /** Deleting one line whose cites are its own is exactly one proposal to remove it. */
  lemma DeletingIsOneRemove(before: seq<ParsedLine>, after: seq<ParsedLine>, key: string, i: nat)
    requires Positions(before, |before|, key) == [i] && Positions(after, |after|, key) == []
    requires SameElsewhere(before, after, key)
    ensures i < |before| && IsCited(before[i])
    ensures var o := before[i];
            Proposals(before, after) == [Remove(o.refs[0], o.refs, o.text, o.line)] && !LayoutLeft(before, after)
  {
    hide IsEdited, IsRemoved, IsNew, SameElsewhere, Edits, Removes, News;
    SinglePosition(before, key, i);
    assert Partner(before, after, i) == None;
    assert IsRemoved(before, after, i) && !IsEdited(before, after, i) by { Deleted(before, after, key, i); }
    NoneCited(after, key);
    forall h | 0 <= h < |before|
      ensures !IsEdited(before, after, h) && (h != i ==> !IsRemoved(before, after, h))
    {
      ElsewhereUncited(before, after, key, h);
    }
    forall h | 0 <= h < |after|
      ensures !IsNew(before, after, h)
    {
      ElsewhereNotNew(before, after, key, h);
    }
    OneRemove(before, after, |before|, i);
    EditsEmpty(before, after, |before|);
    NewsEmpty(before, after, |after|);
    SortOne(ByLine(), RemoveOf(before[i]));
    NoLayoutLeft(before, after, key);
  }

  lemma Deleted(before: seq<ParsedLine>, after: seq<ParsedLine>, key: string, i: nat)
    requires i < |before| && IsCited(before[i]) && Partner(before, after, i) == None
    requires SameElsewhere(before, after, key)
    ensures IsRemoved(before, after, i) && !IsEdited(before, after, i)
  {
    hide CitedTexts, Uncited, Partner;
  }

  /** Adding one line with cites of its own is exactly one new proposal. */
  lemma AddingIsOneNew(before: seq<ParsedLine>, after: seq<ParsedLine>, key: string, j: nat)
    requires Positions(before, |before|, key) == [] && Positions(after, |after|, key) == [j]
    requires SameElsewhere(before, after, key)
    ensures j < |after|
    ensures var l := after[j];
            && Proposals(before, after) == [New(l.text, l.line, l.section, l.paths, l.refs)]
            && !LayoutLeft(before, after)
  {
    hide IsEdited, IsRemoved, IsNew, SameElsewhere, Edits, Removes, News;
    SinglePosition(after, key, j);
    assert Partner(after, before, j) == None;
    assert IsNew(before, after, j) by { Unpaired(before, after, j); }
    NoneCited(before, key);
    forall h | 0 <= h < |before|
      ensures !IsEdited(before, after, h) && !IsRemoved(before, after, h)
    {
      ElsewhereUncited(before, after, key, h);
    }
    forall h | 0 <= h < |after| && h != j
      ensures !IsNew(before, after, h)
    {
      ElsewhereNotNew(before, after, key, h);
    }
    OneNew(before, after, |after|, j);
    EditsEmpty(before, after, |before|);
    RemovesEmpty(before, after, |before|);
    SortOne(ByLine(), NewOf(after[j]));
    NoLayoutLeft(before, after, key);
  }

  lemma Unpaired(before: seq<ParsedLine>, after: seq<ParsedLine>, j: nat)
    requires j < |after| && IsCited(after[j]) && Partner(after, before, j) == None
    ensures IsNew(before, after, j)
  {
    hide Partner;
  }

  // ---------------------------------------------------------------------
  // Conservation
  // ---------------------------------------------------------------------

  function RemovedCount(before: seq<ParsedLine>, after: seq<ParsedLine>, n: nat, text: string): nat
    requires n <= |before|
  {
    if n == 0 then 0
    else RemovedCount(before, after, n - 1, text)
         + if IsRemoved(before, after, n - 1) && before[n - 1].text == text then 1 else 0
  }

  /** New lines, among the uncited ones with these words. */
  function NewWords(before: seq<ParsedLine>, after: seq<ParsedLine>, n: nat, text: string): nat
    requires n <= |after|
  {
    if n == 0 then 0
    else NewWords(before, after, n - 1, text)
         + if !IsCited(after[n - 1]) && after[n - 1].text == text && IsNew(before, after, n - 1) then 1 else 0
  }

  /** Lines of `ls` with these cites that pair with none of `other`'s. */
  function Unmatched(ls: seq<ParsedLine>, other: seq<ParsedLine>, n: nat, key: string): nat
    requires n <= |ls|
  {
    if n == 0 then 0
    else Unmatched(ls, other, n - 1, key)
         + if IsCited(ls[n - 1]) && Key(ls[n - 1]) == key && Partner(ls, other, n - 1).None? then 1 else 0
  }

  lemma {:induction false} RemovedExactly(before: seq<ParsedLine>, after: seq<ParsedLine>, n: nat, text: string)
    requires n <= |before|
    ensures RemovedCount(before, after, n, text) ==
            Excess(GoneCount(before, after, n, text), Spare(before, after, text))
  {
    hide Partner, Spare;
    if n > 0 { RemovedExactly(before, after, n - 1, text); }
  }

  lemma {:induction false} NewExactly(before: seq<ParsedLine>, after: seq<ParsedLine>, n: nat, text: string)
    requires n <= |after|
    ensures NewWords(before, after, n, text) ==
            Excess(Uncited(after, n, text),
                   Uncited(before, |before|, text) + GoneCount(before, after, |before|, text))
  {
    hide Partner, GoneCount;
    if n > 0 { NewExactly(before, after, n - 1, text); }
  }

  lemma {:induction false} UnmatchedExactly(ls: seq<ParsedLine>, other: seq<ParsedLine>, n: nat, key: string)
    requires n <= |ls|
    ensures Unmatched(ls, other, n, key) == Excess(Cites(ls, n, key), Cites(other, |other|, key))
  {
    hide Key;
    if n > 0 { UnmatchedExactly(ls, other, n - 1, key); }
  }

  /** No line is lost or counted twice. By cites: the old lines less the gone are the new lines
      less the unpaired. By words: what is uncited now, with what is removed and what uncited
      words were left behind, is what was uncited, with what lost its pair and what is new. */
  lemma LinesConserved(before: seq<ParsedLine>, after: seq<ParsedLine>, key: string, text: string)
    ensures Cites(before, |before|, key) + Unmatched(after, before, |after|, key) ==
            Cites(after, |after|, key) + Unmatched(before, after, |before|, key)
    ensures Uncited(after, |after|, text) + RemovedCount(before, after, |before|, text)
            + Excess(Uncited(before, |before|, text), Uncited(after, |after|, text)) ==
            Uncited(before, |before|, text) + GoneCount(before, after, |before|, text)
            + NewWords(before, after, |after|, text)
  {
    hide Positions, Key, Uncited, GoneCount, RemovedCount, NewWords, Unmatched;
    UnmatchedExactly(before, after, |before|, key);
    UnmatchedExactly(after, before, |after|, key);
    RemovedExactly(before, after, |before|, text);
    NewExactly(before, after, |after|, text);
  }

  function Texts(ls: seq<ParsedLine>, n: nat): seq<string>
    requires n <= |ls|
  {
    if n == 0 then [] else Texts(ls, n - 1) + [ls[n - 1].text]
  }

  function CitedWords(ls: seq<ParsedLine>, n: nat, text: string): nat
    requires n <= |ls|
  {
    if n == 0 then 0
    else CitedWords(ls, n - 1, text) + if IsCited(ls[n - 1]) && ls[n - 1].text == text then 1 else 0
  }

  lemma {:induction false} TextsCount(ls: seq<ParsedLine>, n: nat, text: string)
    requires n <= |ls|
    ensures multiset(Texts(ls, n))[text] == CitedWords(ls, n, text) + Uncited(ls, n, text)
  {
    if n > 0 { TextsCount(ls, n - 1, text); }
  }

  /** Line `j` is taken by one of the first `i` old lines. */
  predicate Reached(before: seq<ParsedLine>, after: seq<ParsedLine>, i: nat, j: nat)
    requires i <= |before| && j < |after|
  {
    IsCited(after[j]) && Cites(after, j, Key(after[j])) < Cites(before, i, Key(after[j]))
  }

  function ReachedWords(before: seq<ParsedLine>, after: seq<ParsedLine>, i: nat, n: nat, text: string): nat
    requires i <= |before| && n <= |after|
  {
    if n == 0 then 0
    else ReachedWords(before, after, i, n - 1, text)
         + if Reached(before, after, i, n - 1) && after[n - 1].text == text then 1 else 0
  }

  lemma ReachedOne(before: seq<ParsedLine>, after: seq<ParsedLine>, i: nat, j: nat)
    requires i < |before| && j < |after|
    ensures Reached(before, after, i + 1, j) <==>
            Reached(before, after, i, j) || (IsCited(before[i]) && Partner(before, after, i) == Some(j))
    ensures IsCited(before[i]) && Partner(before, after, i) == Some(j) ==> !Reached(before, after, i, j)
  {
    hide Key, Positions;
    CitesStep(before, i);
    if IsCited(before[i]) {
      PositionsExact(after, |after|, Key(before[i]));
      if Partner(before, after, i) == Some(j) {
        PartnersInverse(before, after, i, j);
      }
      if IsCited(after[j]) {
        PositionsGrow(after, j, |after|, Key(after[j]));
      }
    }
  }

  lemma {:induction false} ReachedStep(before: seq<ParsedLine>, after: seq<ParsedLine>, i: nat, n: nat, text: string)
    requires i < |before| && n <= |after|
    ensures ReachedWords(before, after, i + 1, n, text) == ReachedWords(before, after, i, n, text) +
            if IsCited(before[i]) && Partner(before, after, i).Some? && Partner(before, after, i).value < n
               && after[Partner(before, after, i).value].text == text then 1 else 0
  {
    hide Reached, Partner;
    if n > 0 {
      ReachedStep(before, after, i, n - 1, text);
      ReachedOne(before, after, i, n - 1);
    }
  }

  lemma {:induction false} PairedOrGone(before: seq<ParsedLine>, after: seq<ParsedLine>, i: nat, text: string)
    requires i <= |before| && forall h | 0 <= h < |before| :: !IsEdited(before, after, h)
    ensures CitedWords(before, i, text) ==
            ReachedWords(before, after, i, |after|, text) + GoneCount(before, after, i, text)
  {
    hide Partner, Reached;
    if i == 0 {
      NoneReached(before, after, |after|, text);
    } else {
      PairedOrGone(before, after, i - 1, text);
      ReachedStep(before, after, i - 1, |after|, text);
      assert !IsEdited(before, after, i - 1);
    }
  }

  lemma {:induction false} NoneReached(before: seq<ParsedLine>, after: seq<ParsedLine>, n: nat, text: string)
    requires n <= |after|
    ensures ReachedWords(before, after, 0, n, text) == 0
  {
    if n > 0 { NoneReached(before, after, n - 1, text); }
  }

  lemma {:induction false} AllReached(before: seq<ParsedLine>, after: seq<ParsedLine>, n: nat, text: string)
    requires n <= |after| && forall j | 0 <= j < |after| :: !IsNew(before, after, j)
    ensures ReachedWords(before, after, |before|, n, text) == CitedWords(after, n, text)
  {
    hide Key, Uncited, GoneCount;
    if n > 0 {
      AllReached(before, after, n - 1, text);
      assert !IsNew(before, after, n - 1);
    }
  }

  /** If nothing is proposed and nothing uncited is left behind, both files hold the same texts, as often. */
  lemma SilentKeepsTexts(before: seq<ParsedLine>, after: seq<ParsedLine>)
    requires Proposals(before, after) == [] && !LayoutLeft(before, after)
    ensures multiset(Texts(before, |before|)) == multiset(Texts(after, |after|))
  {
    hide IsEdited, IsRemoved, IsNew, Proposals, CitedTexts, Uncited, GoneCount, CitedWords, ReachedWords, Texts;
    ProposalsEmpty(before, after);
    SilentExactly(before, after);
    forall text: string
      ensures multiset(Texts(before, |before|))[text] == multiset(Texts(after, |after|))[text]
    {
      TextsCount(before, |before|, text);
      TextsCount(after, |after|, text);
      PairedOrGone(before, after, |before|, text);
      AllReached(before, after, |after|, text);
    }
  }
}
