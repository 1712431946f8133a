/**
 * `database_info_list_new` from end to end: open the store, open a cursor,
 * allocate the header, collect the records, and release at the exit; as
 * written and with the exit it evidently intends. Also the lifetime of what
 * a successful listing hands out.
 */
module Listing {
  import opened Wrappers
  import opened Dom
  import opened InfoRecord
  import opened Keys
  import opened Projection
  import opened Cursor
  import opened InfoList
  import opened ListFree

  /**
   * What every run of the listing reports, whatever its exit releases: no
   * header exactly when some step failed, which step failed, and on success
   * one record per map item, each the projection of its item, in cursor
   * order. A refused growth holds the records built before it.
   */
  ghost predicate Outcome(store: Store, query: Option<string>, alloc: Alloc,
                          r: Option<ListHeader>, failure: Option<Failure>)
    requires WellTypedItems(store.items)
  {
    && (r.None? <==> failure.Some?)
    && (failure == Some(StoreOpenFailed) <==> !store.opens)
    && (failure == Some(CursorOpenFailed) <==> store.opens && !CursorOpens(store, query))
    && (failure == Some(HeaderAllocFailed) <==>
          store.opens && CursorOpens(store, query) && !alloc.headerOk)
    && (r.Some? <==>
          store.opens && CursorOpens(store, query) && alloc.headerOk
          && Grants(alloc, |Projected(store.items)|))
    && (r.Some? ==>
          r.value == ListOf(Projected(store.items))
          && r.value.count == |MapPositions(store.items, |store.items|)|)
    && (failure.Some? && failure.value.GrowFailed? ==>
          var built := failure.value.built;
          store.opens && CursorOpens(store, query) && alloc.headerOk
          && |built| < |Projected(store.items)|
          && built == Projected(store.items)[..|built|]
          && Grants(alloc, |built|) && !Grants(alloc, |built| + 1))
  }

  /** The steps of the listing up to its exit: open, open a cursor, allocate, collect. */
  method OpenAndCollect(store: Store, query: Option<string>, alloc: Alloc)
    returns (r: Option<ListHeader>, failure: Option<Failure>)
    requires WellTypedItems(store.items)
    ensures Outcome(store, query, alloc, r, failure)
  {
    if !store.opens {
      return None, Some(StoreOpenFailed);
    }
    var outcome := OpenCursor(query, store.compile, store.cursorRc);
    if outcome.rc != 0 {
      return None, Some(CursorOpenFailed);
    }
    if !alloc.headerOk {
      return None, Some(HeaderAllocFailed);
    }
    var infos, ok := CollectRecords(store.items, alloc);
    if !ok {
      return None, Some(GrowFailed(infos));
    }
    ProjectedPositions(store.items);
    return Some(ListOf(infos)), None;
  }

  /**
   * The listing as written. Success releases nothing. A failure releases
   * what the exit at the `error` label releases: the cursor and the store
   * only after a failure past the cursor, the header only after a refused
   * growth, and never a string or the record array, not even those of the
   * records built before the refusal.
   */
  method DatabaseInfoListNew(store: Store, query: Option<string>, alloc: Alloc)
    returns (r: Option<ListHeader>, failure: Option<Failure>, released: seq<Release>)
    requires WellTypedItems(store.items)
    ensures Outcome(store, query, alloc, r, failure)
    ensures r.Some? ==> released == []
    ensures forall k :: 0 <= k < |released| ==> !released[k].FreeText? && released[k] != FreeArray
    ensures CloseStore in released <==> r.None? && store.opens && CursorOpens(store, query)
    ensures CloseCursor in released <==> r.None? && store.opens && CursorOpens(store, query)
    ensures FreeHeader in released <==> failure.Some? && failure.value.GrowFailed?
    ensures NoDuplicates(released)
  {
    r, failure := OpenAndCollect(store, query, alloc);
    released := if failure.Some? then Teardown(failure.value) else [];
  }

  /**
   * The listing with the exit it evidently intends: whatever a failure
   * leaves open is closed, and a refused growth frees the strings and the
   * array of the records built before it, as well as the header.
   */
  method DatabaseInfoListNewFixed(store: Store, query: Option<string>, alloc: Alloc)
    returns (r: Option<ListHeader>, failure: Option<Failure>, released: seq<Release>)
    requires WellTypedItems(store.items)
    ensures Outcome(store, query, alloc, r, failure)
    ensures r.Some? ==> released == []
    ensures CloseStore in released <==> r.None? && store.opens
    ensures CloseCursor in released <==> r.None? && store.opens && CursorOpens(store, query)
    ensures FreeHeader in released <==> failure.Some? && failure.value.GrowFailed?
    ensures failure.Some? && failure.value.GrowFailed? ==>
      forall i: nat, t, s :: FreeText(i, t, s) in released <==>
        i < |failure.value.built| && TextOf(failure.value.built[i], t) == Some(s)
    ensures FreeArray in released <==>
      failure.Some? && failure.value.GrowFailed? && |failure.value.built| > 0
    ensures NoDuplicates(released)
  {
    r, failure := OpenAndCollect(store, query, alloc);
    released := if failure.Some? then TeardownFixed(failure.value) else [];
  }

  /**
   * Freeing a successful listing releases, for record `i` and text field
   * `t`, exactly the copy of the value of the last pair of the `i`-th map
   * item naming `t`, and nothing when no pair names it.
   */
  lemma FreeReleasesProjection(items: seq<Value>, i: nat, t: TextField)
    requires WellTypedItems(items) && i < |Projected(items)|
    ensures Walkable(ListOf(Projected(items)))
    ensures i < |MapPositions(items, |items|)|
    ensures MapPositions(items, |items|)[i] < |items| && items[MapPositions(items, |items|)[i]].Map?
    ensures forall s :: FreeText(i, t, s) in FreeList(Some(ListOf(Projected(items)))) <==>
      match LastValue(items[MapPositions(items, |items|)[i]].pairs, Text(t))
      case None => false
      case Some(v) => CString(v.s) == s
  {
    ProjectedPositions(items);
    ProjectField(items[MapPositions(items, |items|)[i]].pairs, Text(t));
  }

  /**
   * As written, the exit after a refused growth releases neither the
   * strings of the records built before it nor their array; the intended
   * exit releases both.
   */
  lemma GrowFailureLeaks(built: seq<DatabaseInfo>, i: nat, t: TextField, s: string)
    requires i < |built| && TextOf(built[i], t) == Some(s)
    ensures FreeText(i, t, s) !in Teardown(GrowFailed(built))
    ensures FreeArray !in Teardown(GrowFailed(built))
    ensures FreeText(i, t, s) in TeardownFixed(GrowFailed(built))
    ensures FreeArray in TeardownFixed(GrowFailed(built))
  {
  }

  /**
   * A listing reaches that exit holding a string: the cursor yields a map
   * naming text field `t`, then a second map, and the allocator refuses the
   * growth to two records. The one record built holds `s`.
   */
  lemma GrowFailureWitness(t: TextField, s: string)
    requires NUL !in s
    ensures
      var items := [Map([Pair(Str(KeyName(Text(t))), Str(s))]), Map([])];
      var alloc := Alloc(true, Some(1));
      WellTypedItems(items) && |Projected(items)| == 2
      && Grants(alloc, 1) && !Grants(alloc, 2)
      && TextOf(Projected(items)[0], t) == Some(s)
  {
    var none: seq<Pair> := [];
    assert WellTypedMap(none);
    ProjectOneText(t, s);
    ProjectedTwo([Pair(Str(KeyName(Text(t))), Str(s))], none);
  }

  /**
   * As written, a cursor that fails to open leaves the store open: with the
   * store opened and a query the compiler rejects, the exit closes nothing,
   * while the intended exit closes the store.
   */
  lemma CursorFailureLeavesStoreOpen(query: string, items: seq<Value>)
    ensures
      var store := Store(true, CompileError, 0, items);
      store.opens && !CursorOpens(store, Some(query))
      && CloseStore !in Teardown(CursorOpenFailed)
      && CloseStore in TeardownFixed(CursorOpenFailed)
  {
  }
}
