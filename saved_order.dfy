/**
 * The dashboard's saved card order: a list of monitor ids kept in the
 * browser's storage under `monitorOrder`, read back without duplicates,
 * applied to the monitor list, rewritten after a drag-and-drop swap and
 * reconciled with the current monitors.
 */
module SavedOrder {
  import opened Wrappers
  import opened Schema
  import opened Seqs

  /** What `JSON.parse` makes of the stored entry (a missing entry reads as `"[]"`). */
  datatype StoredOrder = NoEntry | Unparsable | NotAnArray | IdList(ids: seq<int>)

  /** `getSavedOrder`: the stored ids, each once at its first position; `[]` for anything but an array. */
  function SavedIds(stored: StoredOrder): (r: seq<int>)
    ensures NoDup(r)
    ensures stored.IdList? ==> forall x :: x in r <==> x in stored.ids
    ensures !stored.IdList? ==> r == []
  {
    match stored
    case IdList(ids) => Dedup(ids)
    case _ => []
  }

  /** Writing a duplicate-free list and reading it back gives the same list. */
  lemma SavedIdsRoundTrip(ids: seq<int>)
    requires NoDup(ids)
    ensures SavedIds(IdList(ids)) == ids
  {
    DedupOfNoDup(ids);
  }

  /** `monitors.map((m) => Number(m.id))`. */
  function Ids(ms: seq<Monitor>): (r: seq<int>)
    ensures |r| == |ms| && forall i :: 0 <= i < |ms| ==> r[i] == ms[i].id
  {
    seq(|ms|, i requires 0 <= i < |ms| => ms[i].id as int)
  }

  predicate DistinctIds(ms: seq<Monitor>) {
    forall i, j :: 0 <= i < j < |ms| ==> ms[i].id != ms[j].id
  }

  // ---------------------------------------------------------------------
  // Applying the saved order

  /** `list.find((m) => Number(m.id) === Number(id))`. */
  function FindById(ms: seq<Monitor>, id: int): (r: Option<Monitor>)
    ensures r.Some? ==> r.value in ms && r.value.id == id
    ensures r.None? <==> forall i :: 0 <= i < |ms| ==> ms[i].id != id
    decreases |ms|
  {
    if |ms| == 0 then None
    else if ms[0].id == id then Some(ms[0])
    else
      assert forall i :: 1 <= i < |ms| ==> ms[i] == ms[1..][i - 1];
      FindById(ms[1..], id)
  }

  /** The monitors found for the saved ids, in saved order. */
  function Found(saved: seq<int>, ms: seq<Monitor>): (r: seq<Monitor>)
    ensures forall m :: m in r ==> m in ms && m.id in saved
    decreases |saved|
  {
    if |saved| == 0 then []
    else
      var rest := Found(saved[..|saved| - 1], ms);
      assert forall x :: x in saved[..|saved| - 1] ==> x in saved;
      match FindById(ms, saved[|saved| - 1])
      case None => rest
      case Some(m) => rest + [m]
  }

  function NotSaved(saved: seq<int>): Monitor -> bool {
    (m: Monitor) => m.id !in saved
  }

  /** The monitors whose id is not saved, in list order. */
  function Unsaved(saved: seq<int>, ms: seq<Monitor>): seq<Monitor>
    decreases |ms|
  {
    if |ms| == 0 then []
    else Unsaved(saved, ms[..|ms| - 1]) + if ms[|ms| - 1].id !in saved then [ms[|ms| - 1]] else []
  }

  lemma {:induction false} UnsavedIsFilter(saved: seq<int>, ms: seq<Monitor>)
    ensures Unsaved(saved, ms) == Filter(ms, NotSaved(saved))
    decreases |ms|
  {
    if |ms| > 0 {
      UnsavedIsFilter(saved, ms[..|ms| - 1]);
    }
  }

  /** What `applySavedOrder` returns: the list itself without a saved order, else found monitors then the rest. */
  function Arrange(saved: seq<int>, ms: seq<Monitor>): seq<Monitor> {
    if |saved| == 0 then ms else Found(saved, ms) + Unsaved(saved, ms)
  }

  /** `applySavedOrder`: one pass over the saved ids, one over the list. */
  method ApplySavedOrder(stored: StoredOrder, ms: seq<Monitor>) returns (ordered: seq<Monitor>)
    ensures ordered == Arrange(SavedIds(stored), ms)
  {
    var saved := SavedIds(stored);
    if |saved| == 0 {
      return ms;
    }
    ordered := [];
    var i := 0;
    while i < |saved|
      invariant 0 <= i <= |saved|
      invariant ordered == Found(saved[..i], ms)
    {
      FoundStep(saved, i, ms);
      var found := FindById(ms, saved[i]);
      if found.Some? {
        ordered := ordered + [found.value];
      }
      i := i + 1;
    }
    assert saved[..i] == saved;
    ghost var found := ordered;
    var j := 0;
    while j < |ms|
      invariant 0 <= j <= |ms|
      invariant ordered == found + Unsaved(saved, ms[..j])
    {
      assert ms[..j + 1][..j] == ms[..j];
      if ms[j].id !in saved {
        AppendAssoc(found, Unsaved(saved, ms[..j]), [ms[j]]);
        ordered := ordered + [ms[j]];
      }
      j := j + 1;
    }
    assert ms[..j] == ms;
  }

  lemma FoundStep(saved: seq<int>, i: nat, ms: seq<Monitor>)
    requires i < |saved|
    ensures Found(saved[..i + 1], ms) == Found(saved[..i], ms) +
      match FindById(ms, saved[i]) case None => [] case Some(m) => [m]
  {
    assert saved[..i + 1][..i] == saved[..i];
  }

  /** With distinct ids the found monitors are distinct and include every monitor whose id is saved. */
  lemma {:induction false} FoundFacts(saved: seq<int>, ms: seq<Monitor>)
    requires NoDup(saved) && DistinctIds(ms)
    ensures NoDup(Found(saved, ms))
    ensures forall m :: m in ms && m.id in saved ==> m in Found(saved, ms)
    decreases |saved|
  {
    if |saved| > 0 {
      var saved', last := saved[..|saved| - 1], saved[|saved| - 1];
      assert NoDup(saved');
      FoundFacts(saved', ms);
      assert last !in saved';
      forall m | m in ms && m.id in saved
        ensures m in Found(saved, ms)
      {
        if m.id !in saved' {
          assert saved == saved' + [last];
          var f := FindById(ms, last);
          var k :| 0 <= k < |ms| && ms[k] == m;
          assert f.Some?;
          var k' :| 0 <= k' < |ms| && ms[k'] == f.value;
        }
      }
    }
  }

  /** With distinct ids, applying any saved order only rearranges the monitors. */
  lemma ArrangePermutation(stored: StoredOrder, ms: seq<Monitor>)
    requires DistinctIds(ms)
    ensures multiset(Arrange(SavedIds(stored), ms)) == multiset(ms)
  {
    var saved := SavedIds(stored);
    if |saved| > 0 {
      assert NoDup(ms);
      FoundFacts(saved, ms);
      UnsavedIsFilter(saved, ms);
      FilterNoDup(ms, NotSaved(saved));
      NoDupAppend(Found(saved, ms), Unsaved(saved, ms));
      SameElementsPermutation(Arrange(saved, ms), ms);
    }
  }

  // ---------------------------------------------------------------------
  // Rewriting the saved order

  function NotIn(xs: seq<int>): int -> bool {
    (x: int) => x !in xs
  }

  function NotInEither(xs: seq<int>, ys: seq<int>): int -> bool {
    (x: int) => x !in xs && x !in ys
  }

  /** The order `updateSavedOrderForSwap` stores: the swapped ids, then the other saved ids, then new ids. */
  function SwapOrder(saved: seq<int>, swapped: seq<int>, current: seq<int>): seq<int> {
    var d := Dedup(swapped);
    d + Filter(saved, NotIn(d)) + Filter(current, NotInEither(d, saved))
  }

  /** The stored order after a swap starts with the swapped ids, holds every id once, and loses none. */
  lemma SwapOrderFacts(saved: seq<int>, swapped: seq<int>, current: seq<int>)
    requires NoDup(saved) && NoDup(current)
    ensures var r := SwapOrder(saved, swapped, current);
      && NoDup(r)
      && (forall x :: x in r <==> x in swapped || x in saved || x in current)
      && |Dedup(swapped)| <= |r| && r[..|Dedup(swapped)|] == Dedup(swapped)
  {
    var d := Dedup(swapped);
    var a, b := Filter(saved, NotIn(d)), Filter(current, NotInEither(d, saved));
    FilterNoDup(saved, NotIn(d));
    FilterNoDup(current, NotInEither(d, saved));
    NoDupAppend(d, a);
    NoDupAppend(d + a, b);
    assert (d + a + b)[..|d|] == d;
  }

  /** The order the reconcile effect stores: saved ids still present, in saved order, then new ids. */
  function ReconcileOrder(saved: seq<int>, current: seq<int>): (r: seq<int>)
    ensures NoDup(r)
    ensures forall x :: x in r <==> x in current
  {
    Dedup(Filter(saved, In(current)) + Filter(current, NotIn(saved)))
  }

  /** With duplicate-free inputs the final de-duplication changes nothing. */
  lemma ReconcileKeepsSavedOrder(saved: seq<int>, current: seq<int>)
    requires NoDup(saved) && NoDup(current)
    ensures ReconcileOrder(saved, current) == Filter(saved, In(current)) + Filter(current, NotIn(saved))
  {
    FilterNoDup(saved, In(current));
    FilterNoDup(current, NotIn(saved));
    NoDupAppend(Filter(saved, In(current)), Filter(current, NotIn(saved)));
    DedupOfNoDup(Filter(saved, In(current)) + Filter(current, NotIn(saved)));
  }

  /** The `monitorOrder` storage entry and the two effects that rewrite it. */
  class OrderStore {
    var stored: StoredOrder

    constructor (initial: StoredOrder)
      ensures stored == initial
    {
      stored := initial;
    }

    /** `updateSavedOrderForSwap(swapped)` with the current monitor ids. */
    method UpdateForSwap(swapped: seq<int>, current: seq<int>)
      modifies this
      ensures stored == IdList(SwapOrder(SavedIds(old(stored)), swapped, current))
    {
      var saved := SavedIds(stored);
      var d := Dedup(swapped);
      stored := IdList(d + Filter(saved, NotIn(d)) + Filter(current, NotInEither(d, saved)));
    }

    /** The reconcile effect: skipped while loading or without monitors. */
    method Reconcile(current: seq<int>, isLoading: bool)
      modifies this
      ensures isLoading || |current| == 0 ==> stored == old(stored)
      ensures !isLoading && |current| > 0 ==> stored == IdList(ReconcileOrder(SavedIds(old(stored)), current))
    {
      if isLoading || |current| == 0 {
        return;
      }
      var saved := SavedIds(stored);
      stored := IdList(Dedup(Filter(saved, In(current)) + Filter(current, NotIn(saved))));
    }
  }

  /**
   * After a reconcile over monitors with distinct ids the saved order names
   * exactly those monitors, so applying it lists each of them once.
   */
  lemma ReconciledOrderCoversAll(saved: seq<int>, ms: seq<Monitor>)
    requires DistinctIds(ms) && |ms| > 0
    ensures var order := SavedIds(IdList(ReconcileOrder(saved, Ids(ms))));
      && (forall x :: x in order <==> x in Ids(ms))
      && Arrange(order, ms) == Found(order, ms)
  {
    var order := ReconcileOrder(saved, Ids(ms));
    SavedIdsRoundTrip(order);
    assert Ids(ms)[0] in order;
    forall i | 0 <= i < |ms|
      ensures !NotSaved(order)(ms[i])
    {
      assert Ids(ms)[i] in Ids(ms);
    }
    FilterAllOrNone(ms, NotSaved(order));
    UnsavedIsFilter(order, ms);
  }
}
