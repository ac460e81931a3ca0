/** The collected transcript of the mention bot: a Python dict from message id to
    `(created_at, line)`, then sorted by time and joined with newlines.

    A Python dict keeps its keys in insertion order and overwrites a value in
    place, so it is modelled as a sequence of entries whose ids are distinct;
    `list(d.values())` is that sequence, and the stable sort that follows sees
    ties in insertion order. */
module History {
  import opened Wrappers
  import opened Text
  import opened Sorting

  datatype Entry = Entry(id: nat, ts: int, line: string)

  predicate UniqueIds(d: seq<Entry>)
  {
    forall i, j :: 0 <= i < j < |d| ==> d[i].id != d[j].id
  }

  /** Position of the entry with key `id`, if any. */
  function Find(d: seq<Entry>, id: nat): (r: Option<nat>)
    ensures r.Some? ==> r.value < |d| && d[r.value].id == id
    ensures r.None? ==> forall i :: 0 <= i < |d| ==> d[i].id != id
  {
    if |d| == 0 then None
    else if d[|d| - 1].id == id then Some(|d| - 1)
    else Find(d[..|d| - 1], id)
  }

  /** `d[id]` as an optional lookup. */
  function Lookup(d: seq<Entry>, id: nat): Option<Entry>
  {
    match Find(d, id)
    case None => None
    case Some(i) => Some(d[i])
  }

  /** `d[e.id] = e`: an existing key keeps its place and gets the new value; a
      new key goes to the end. */
  function Put(d: seq<Entry>, e: Entry): seq<Entry>
  {
    match Find(d, e.id)
    case None => d + [e]
    case Some(i) => d[i := e]
  }

  /** Every id appears at most once after any sequence of stores. */
  lemma PutKeepsIdsUnique(d: seq<Entry>, e: Entry)
    requires UniqueIds(d)
    ensures UniqueIds(Put(d, e))
  {
  }

  /** After `d[e.id] = e`, reading `e.id` gives `e`, and every other key reads as
      before. */
  lemma PutThenLookup(d: seq<Entry>, e: Entry, k: nat)
    requires UniqueIds(d)
    ensures Lookup(Put(d, e), e.id) == Some(e)
    ensures k != e.id ==> Lookup(Put(d, e), k) == Lookup(d, k)
  {
    var r := Put(d, e);
    PutKeepsIdsUnique(d, e);
    UniqueFind(r, e.id);
    UniqueFind(r, k);
    UniqueFind(d, k);
  }

  /** With distinct ids, the entry found for a key is the only one with that key. */
  lemma UniqueFind(d: seq<Entry>, k: nat)
    requires UniqueIds(d)
    ensures forall i :: 0 <= i < |d| && d[i].id == k ==> Find(d, k) == Some(i)
  {
  }

  /** Storing never reorders: an old key keeps its position, and the dict grows
      by one exactly when the key is new. */
  lemma PutKeepsOrder(d: seq<Entry>, e: Entry)
    ensures Find(d, e.id).None? ==> Put(d, e) == d + [e]
    ensures Find(d, e.id).Some? ==>
      (|Put(d, e)| == |d| && forall i :: 0 <= i < |d| && i != Find(d, e.id).value ==> Put(d, e)[i] == d[i])
  {
  }

  /** Storing the entries of `es` one after the other. */
  function PutAll(d: seq<Entry>, es: seq<Entry>): seq<Entry>
    decreases |es|
  {
    if |es| == 0 then d else Put(PutAll(d, es[..|es| - 1]), es[|es| - 1])
  }

  /** Index of the last entry of `es` with key `k`. */
  function LastWith(es: seq<Entry>, k: nat): (r: Option<nat>)
    ensures r.Some? ==> r.value < |es| && es[r.value].id == k && forall j :: r.value < j < |es| ==> es[j].id != k
    ensures r.None? ==> forall j :: 0 <= j < |es| ==> es[j].id != k
  {
    if |es| == 0 then None
    else if es[|es| - 1].id == k then Some(|es| - 1)
    else LastWith(es[..|es| - 1], k)
  }

  /** After storing a batch, a key holds the last entry of the batch with that
      key, or what it held before when the batch has none; ids stay distinct. */
  lemma {:induction false} PutAllLookup(d: seq<Entry>, es: seq<Entry>, k: nat)
    requires UniqueIds(d)
    ensures UniqueIds(PutAll(d, es))
    ensures Lookup(PutAll(d, es), k) == match LastWith(es, k)
      case None => Lookup(d, k)
      case Some(i) => Some(es[i])
    decreases |es|
  {
    if |es| > 0 {
      var init := es[..|es| - 1];
      PutAllLookup(d, init, k);
      PutKeepsIdsUnique(PutAll(d, init), es[|es| - 1]);
      PutThenLookup(PutAll(d, init), es[|es| - 1], k);
      if es[|es| - 1].id != k {
        assert LastWith(es, k) == LastWith(init, k);
        match LastWith(init, k)
        case None =>
        case Some(i) => assert es[i] == init[i];
      }
    }
  }

  /** The dict is empty after a batch exactly when it was empty and the batch was. */
  lemma {:induction false} PutAllEmpty(d: seq<Entry>, es: seq<Entry>)
    ensures |PutAll(d, es)| == 0 <==> |d| == 0 && |es| == 0
    decreases |es|
  {
    if |es| > 0 {
      PutAllEmpty(d, es[..|es| - 1]);
    }
  }

  function Ts(e: Entry): int
  {
    e.ts
  }

  function Lines(d: seq<Entry>): (r: seq<string>)
    ensures |r| == |d| && forall i :: 0 <= i < |d| ==> r[i] == d[i].line
  {
    seq(|d|, i requires 0 <= i < |d| => d[i].line)
  }

  /** `list(d.values())` sorted by `created_at`, oldest first. */
  function Ordered(d: seq<Entry>): seq<Entry>
  {
    SortBy(d, Ts)
  }

  /** `"\n".join` of the sorted lines. */
  function Render(d: seq<Entry>): string
  {
    Join(Lines(Ordered(d)), "\n")
  }

  /** The rendered entries are every stored entry once, oldest first, with
      entries of equal time in the order they were first stored. */
  lemma OrderedIsSortedPermutation(d: seq<Entry>, t: int)
    ensures SortedBy(Ordered(d), Ts)
    ensures multiset(Ordered(d)) == multiset(d)
    ensures WithKey(Ordered(d), Ts, t) == WithKey(d, Ts, t)
  {
    SortBySortsAndPermutes(d, Ts);
    SortByIsStable(d, Ts, t);
  }
}
