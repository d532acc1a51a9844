/** `diff` of packages/compiler/src/parse.ts: what an edit of a file proposes. */
module Diff {
  import opened Text
  import opened Sorting
  import opened Parse

  datatype Change =
    | Edit(ref: string, refs: seq<string>, oldText: string, newText: string, oldLine: nat, newLine: nat)
    | New(text: string, line: nat, section: Option<string>, paths: seq<string>, cites: seq<string>)
    | Remove(ref: string, refs: seq<string>, oldText: string, oldLine: nat)

  datatype Changes = Changes(list: seq<Change>, layout: bool)

  predicate IsContent(l: ParsedLine) { (l.kind == Item || l.kind == Words) && l.text != "" }

  function Content(ls: seq<ParsedLine>): seq<ParsedLine> {
    if ls == [] then [] else
    var n := |ls| - 1;
    if IsContent(ls[n]) then Content(ls[..n]) + [ls[n]] else Content(ls[..n])
  }

  function Key(l: ParsedLine): string { Join(l.refs, ",") }

  predicate IsCited(l: ParsedLine) { l.refs != [] }

  // ---------------------------------------------------------------------
  // First-in, first-out queues by key
  // ---------------------------------------------------------------------

  datatype Queue = Queue(items: seq<nat>, next: nat)

  /** `Queues`: push appends and shift moves a cursor, so both take constant time. */
  class Queues {
    var byKey: map<string, Queue>

    ghost predicate Valid()
      reads this
    {
      forall k | k in byKey :: byKey[k].next <= |byKey[k].items|
    }

    /** The items under `key` not yet shifted. */
    ghost function Pending(key: string): seq<nat>
      reads this
      requires Valid()
    {
      if key in byKey then byKey[key].items[byKey[key].next..] else []
    }

    constructor ()
      ensures Valid() && forall k :: Pending(k) == []
    {
      byKey := map[];
    }

    method Push(key: string, item: nat)
      requires Valid()
      modifies this
      ensures Valid()
      ensures forall k :: Pending(k) == if k == key then old(Pending(k)) + [item] else old(Pending(k))
    {
      if key in byKey {
        byKey := byKey[key := byKey[key].(items := byKey[key].items + [item])];
      } else {
        byKey := byKey[key := Queue([item], 0)];
      }
    }

    method Shift(key: string) returns (item: Option<nat>)
      requires Valid()
      modifies this
      ensures Valid()
      ensures item == if old(Pending(key)) == [] then None else Some(old(Pending(key))[0])
      ensures forall k :: Pending(k) ==
                          if k == key && old(Pending(k)) != [] then old(Pending(k))[1..] else old(Pending(k))
    {
      if key in byKey && byKey[key].next < |byKey[key].items| {
        var q := byKey[key];
        byKey := byKey[key := q.(next := q.next + 1)];
        return Some(q.items[q.next]);
      }
      return None;
    }
  }

  /** `multiset` and `take`: texts with how often each is left. */
  class Tally {
    var counts: map<string, nat>

    ghost predicate Valid()
      reads this
    {
      forall t | t in counts :: counts[t] > 0
    }

    ghost function Count(text: string): nat
      reads this
    {
      if text in counts then counts[text] else 0
    }

    constructor ()
      ensures Valid() && forall t :: Count(t) == 0
    {
      counts := map[];
    }

    method Add(text: string)
      requires Valid()
      modifies this
      ensures Valid() && forall t :: Count(t) == old(Count(t)) + if t == text then 1 else 0
    {
      counts := counts[text := (if text in counts then counts[text] else 0) + 1];
    }

    /** Takes one `text` out; false if there was none. */
    method Take(text: string) returns (taken: bool)
      requires Valid()
      modifies this
      ensures Valid() && taken == (old(Count(text)) > 0)
      ensures forall t :: Count(t) == old(Count(t)) - if t == text && taken then 1 else 0
    {
      var n := if text in counts then counts[text] else 0;
      if n == 0 { return false; }
      if n == 1 {
        counts := map t | t in counts && t != text :: counts[t];
      } else {
        counts := counts[text := n - 1];
      }
      return true;
    }
  }

  // ---------------------------------------------------------------------
  // What pairs with what, by counting
  // ---------------------------------------------------------------------

  /** The cited lines before `n` with this key. */
  function Positions(ls: seq<ParsedLine>, n: nat, key: string): (r: seq<nat>)
    requires n <= |ls|
    ensures forall i | 0 <= i < |r| :: r[i] < n
  {
    if n == 0 then []
    else if IsCited(ls[n - 1]) && Key(ls[n - 1]) == key then Positions(ls, n - 1, key) + [n - 1]
    else Positions(ls, n - 1, key)
  }

  /** How many lines before `n` have this key, and how many uncited ones these words. */
  function Cites(ls: seq<ParsedLine>, n: nat, key: string): nat
    requires n <= |ls|
  {
    |Positions(ls, n, key)|
  }

  function Uncited(ls: seq<ParsedLine>, n: nat, text: string): nat
    requires n <= |ls|
  {
    if n == 0 then 0
    else if !IsCited(ls[n - 1]) && ls[n - 1].text == text then Uncited(ls, n - 1, text) + 1
    else Uncited(ls, n - 1, text)
  }

  /** The line of `other` that line `i` of `ls` pairs with: as many-eth among the lines with the same cites. */
  function Partner(ls: seq<ParsedLine>, other: seq<ParsedLine>, i: nat): (r: Option<nat>)
    requires i < |ls|
    ensures r.Some? ==> r.value < |other|
  {
    var key := Key(ls[i]);
    var rank, all := Cites(ls, i, key), Positions(other, |other|, key);
    if rank < |all| then Some(all[rank]) else None
  }

  predicate IsGone(before: seq<ParsedLine>, after: seq<ParsedLine>, i: nat)
    requires i < |before|
  {
    IsCited(before[i]) && Partner(before, after, i).None?
  }

  /** How many gone lines before `n` have these words. */
  function GoneCount(before: seq<ParsedLine>, after: seq<ParsedLine>, n: nat, text: string): nat
    requires n <= |before|
  {
    if n == 0 then 0
    else GoneCount(before, after, n - 1, text)
         + if IsGone(before, after, n - 1) && before[n - 1].text == text then 1 else 0
  }

  /** Uncited lines with these words that the old file doesn't account for. */
  function Spare(before: seq<ParsedLine>, after: seq<ParsedLine>, text: string): nat {
    var had, has := Uncited(before, |before|, text), Uncited(after, |after|, text);
    if has > had then has - had else 0
  }

  /** A gone line whose words don't survive without the cite. */
  predicate IsRemoved(before: seq<ParsedLine>, after: seq<ParsedLine>, i: nat)
    requires i < |before|
  {
    IsGone(before, after, i) && GoneCount(before, after, i, before[i].text) >= Spare(before, after, before[i].text)
  }

  /** A line the old file accounts for neither by its cites, nor by its words, nor by a gone line's words. */
  predicate IsNew(before: seq<ParsedLine>, after: seq<ParsedLine>, j: nat)
    requires j < |after|
  {
    if IsCited(after[j]) then Partner(after, before, j).None?
    else Uncited(after, j, after[j].text) >=
         Uncited(before, |before|, after[j].text) + GoneCount(before, after, |before|, after[j].text)
  }

  function EditOf(o: ParsedLine, n: ParsedLine): Change
    requires IsCited(o)
  {
    Edit(o.refs[0], o.refs, o.text, n.text, o.line, n.line)
  }

  function RemoveOf(o: ParsedLine): Change
    requires IsCited(o)
  {
    Remove(o.refs[0], o.refs, o.text, o.line)
  }

  function NewOf(l: ParsedLine): Change { New(l.text, l.line, l.section, l.paths, l.refs) }

  predicate IsEdited(before: seq<ParsedLine>, after: seq<ParsedLine>, i: nat)
    requires i < |before|
  {
    IsCited(before[i]) &&
    match Partner(before, after, i)
    case Some(j) => after[j].text != before[i].text
    case None => false
  }

  function Edits(before: seq<ParsedLine>, after: seq<ParsedLine>, n: nat): seq<Change>
    requires n <= |before|
  {
    if n == 0 then []
    else if IsEdited(before, after, n - 1)
    then Edits(before, after, n - 1) + [EditOf(before[n - 1], after[Partner(before, after, n - 1).value])]
    else Edits(before, after, n - 1)
  }

  function Removes(before: seq<ParsedLine>, after: seq<ParsedLine>, n: nat): seq<Change>
    requires n <= |before|
  {
    if n == 0 then []
    else if IsRemoved(before, after, n - 1) then Removes(before, after, n - 1) + [RemoveOf(before[n - 1])]
    else Removes(before, after, n - 1)
  }

  function News(before: seq<ParsedLine>, after: seq<ParsedLine>, n: nat): seq<Change>
    requires n <= |after|
  {
    if n == 0 then []
    else if IsNew(before, after, n - 1) then News(before, after, n - 1) + [NewOf(after[n - 1])]
    else News(before, after, n - 1)
  }

  function At(c: Change): nat {
    match c
    case Edit(_, _, _, _, _, line) => line
    case New(_, line, _, _, _) => line
    case Remove(_, _, _, line) => line
  }

  function ByLine(): (Change, Change) -> bool { (a: Change, b: Change) => At(a) <= At(b) }

  /** Whether the old file has an uncited line the new one doesn't. */
  ghost predicate LayoutLeft(before: seq<ParsedLine>, after: seq<ParsedLine>) {
    exists t :: Uncited(before, |before|, t) > Uncited(after, |after|, t)
  }

  /** The proposals between two lists of content lines. */
  function Proposals(before: seq<ParsedLine>, after: seq<ParsedLine>): seq<Change> {
    Sort(ByLine(), Edits(before, after, |before|) + News(before, after, |after|)) +
    Sort(ByLine(), Removes(before, after, |before|))
  }
}
