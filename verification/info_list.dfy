/**
 * `database_info_list_new` and `database_info_list_free`: read every item a
 * cursor yields, project each map item onto a record, collect the records in
 * a growing array, and release what the list owns.
 *
 * The store, the cursor and the allocator are outside this model. The store
 * is described by what its calls answer, the allocator by which requests it
 * grants, and the releases a teardown performs by a sequence of `Release`
 * events.
 */
module InfoList {
  import opened Wrappers
  import opened Dom
  import opened InfoRecord
  import opened Keys
  import opened Projection
  import opened Cursor

  /**
   * A store as one listing sees it: whether it opens, what the compiler
   * reports for the query, what opening the cursor returns, and the items
   * the cursor yields before it reports the end or a read error.
   */
  datatype Store = Store(opens: bool, compile: Compile, cursorRc: int, items: seq<Value>)

  /**
   * The allocator's answers: whether the list header is granted, and the
   * first growth of the record array it refuses (`Some(k)`: growing it to
   * hold `k + 1` records). The listing stops at the first refusal, so later
   * answers never matter.
   */
  datatype Alloc = Alloc(headerOk: bool, firstRefusal: Option<nat>)

  /** Every growth of the record array up to `n` records is granted. */
  predicate Grants(alloc: Alloc, n: nat) {
    alloc.firstRefusal.None? || n <= alloc.firstRefusal.value
  }

  /** `database_info_list_t`: the record array (`None` while it is NULL) and the record count. */
  datatype ListHeader = ListHeader(list: Option<seq<DatabaseInfo>>, count: nat)

  /** Why a listing returned NULL; a failed growth carries the records built before it. */
  datatype Failure =
    | StoreOpenFailed
    | CursorOpenFailed
    | HeaderAllocFailed
    | GrowFailed(built: seq<DatabaseInfo>)

  /** Every map item the cursor yields satisfies the value-kind assumption of the projection. */
  ghost predicate WellTypedItems(items: seq<Value>) {
    forall i :: 0 <= i < |items| && items[i].Map? ==> WellTypedMap(items[i].pairs)
  }

  /** Opening the cursor succeeds for this store and query. */
  predicate CursorOpens(store: Store, query: Option<string>) {
    OpenCursor(query, store.compile, store.cursorRc).rc == 0
  }

  /** The header a successful listing returns for the records it built. */
  function ListOf(records: seq<DatabaseInfo>): (h: ListHeader)
    ensures h.count == |records|
    ensures h.list.None? <==> |records| == 0
    ensures h.list.Some? ==> h.list.value == records
  {
    ListHeader(if |records| == 0 then None else Some(records), |records|)
  }

  /** The positions of the map items among the first `n` items, in cursor order. */
  function MapPositions(items: seq<Value>, n: nat): (ps: seq<nat>)
    requires n <= |items|
    ensures |ps| <= n
  {
    if n == 0 then []
    else MapPositions(items, n - 1) + (if items[n - 1].Map? then [n - 1] else [])
  }

  /** The positions are exactly the map items' positions, strictly increasing. */
  lemma {:induction false} MapPositionsExact(items: seq<Value>, n: nat)
    requires n <= |items|
    ensures forall k :: 0 <= k < |MapPositions(items, n)| ==>
      MapPositions(items, n)[k] < n && items[MapPositions(items, n)[k]].Map?
    ensures forall k, l :: 0 <= k < l < |MapPositions(items, n)| ==>
      MapPositions(items, n)[k] < MapPositions(items, n)[l]
    ensures forall i :: 0 <= i < n && items[i].Map? ==> i in MapPositions(items, n)
  {
    if n > 0 {
      MapPositionsExact(items, n - 1);
      var ps, front := MapPositions(items, n), MapPositions(items, n - 1);
      if items[n - 1].Map? {
        assert ps == front + [n - 1];
      } else {
        assert ps == front;
      }
    }
  }

  /**
   * The records built after reading the first `n` items: one per map item,
   * in cursor order, every other item skipped.
   */
  function Built(items: seq<Value>, n: nat): (rs: seq<DatabaseInfo>)
    requires WellTypedItems(items) && n <= |items|
    ensures |rs| <= n
  {
    if n == 0 then []
    else Built(items, n - 1) + (if items[n - 1].Map? then [Project(items[n - 1].pairs)] else [])
  }

  /** The records a listing of all the items builds. */
  function Projected(items: seq<Value>): (rs: seq<DatabaseInfo>)
    requires WellTypedItems(items)
    ensures |rs| <= |items|
  {
    Built(items, |items|)
  }

  /** The `k`-th record is the projection of the `k`-th map item, and there is one per map item. */
  lemma {:induction false} BuiltPositions(items: seq<Value>, n: nat)
    requires WellTypedItems(items) && n <= |items|
    ensures |Built(items, n)| == |MapPositions(items, n)|
    ensures forall k :: 0 <= k < |Built(items, n)| ==>
      MapPositions(items, n)[k] < n && items[MapPositions(items, n)[k]].Map?
      && Built(items, n)[k] == Project(items[MapPositions(items, n)[k]].pairs)
  {
    if n > 0 {
      BuiltPositions(items, n - 1);
    }
  }

  /** The positions of the map items among all the items. */
  lemma ProjectedPositions(items: seq<Value>)
    requires WellTypedItems(items)
    ensures |Projected(items)| == |MapPositions(items, |items|)|
    ensures forall k :: 0 <= k < |Projected(items)| ==>
      MapPositions(items, |items|)[k] < |items| && items[MapPositions(items, |items|)[k]].Map?
      && Projected(items)[k] == Project(items[MapPositions(items, |items|)[k]].pairs)
  {
    BuiltPositions(items, |items|);
  }

  /** Reading more items only appends records. */
  lemma {:induction false} BuiltPrefix(items: seq<Value>, m: nat, n: nat)
    requires WellTypedItems(items) && m <= n <= |items|
    ensures Built(items, m) <= Built(items, n)
    decreases n - m
  {
    if m < n {
      BuiltPrefix(items, m + 1, n);
    }
  }

  /**
   * The inner loop of the listing: every pair of a map item in turn goes
   * through the chain of key comparisons into the record.
   */
  method DispatchPairs(info0: DatabaseInfo, pairs: seq<Pair>) returns (info: DatabaseInfo)
    requires WellTypedMap(pairs)
    ensures info == ApplyAll(info0, pairs)
  {
    info := info0;
    var j := 0;
    while j < |pairs|
      invariant 0 <= j <= |pairs|
      invariant WellTypedMap(pairs[..j])
      invariant info == ApplyAll(info0, pairs[..j])
    {
      ApplyAllSnoc(info0, pairs, j);
      DispatchIsApplyPair(info, pairs[j]);
      info := Dispatch(info, CString(pairs[j].key.s), pairs[j].value, DispatchOrder, 0);
      j := j + 1;
    }
    assert pairs[..j] == pairs;
  }

  /** One map item's record: the defaults, then every pair dispatched in turn. */
  method BuildRecord(pairs: seq<Pair>) returns (info: DatabaseInfo)
    requires WellTypedMap(pairs)
    ensures info == Project(pairs)
  {
    info := DispatchPairs(NewRecord(), pairs);
  }

  /**
   * The read loop of the listing: one record per map item, other items
   * skipped, the array grown by one record before each. `ok` is false when
   * a growth is refused; `infos` then holds the records built before it.
   */
  method CollectRecords(items: seq<Value>, alloc: Alloc) returns (infos: seq<DatabaseInfo>, ok: bool)
    requires WellTypedItems(items)
    ensures ok <==> Grants(alloc, |Projected(items)|)
    ensures ok ==> infos == Projected(items)
    ensures !ok ==>
      |infos| < |Projected(items)|
      && infos == Projected(items)[..|infos|]
      && Grants(alloc, |infos|) && !Grants(alloc, |infos| + 1)
  {
    infos := [];
    var idx := 0;
    while idx < |items|
      invariant 0 <= idx <= |items|
      invariant infos == Built(items, idx)
      invariant Grants(alloc, |infos|)
    {
      var item := items[idx];
      if item.Map? {
        if !Grants(alloc, |infos| + 1) {
          BuiltPrefix(items, idx + 1, |items|);
          return infos, false;
        }
        var info := BuildRecord(item.pairs);
        infos := infos + [info];
      }
      idx := idx + 1;
    }
    return infos, true;
  }

  /** Two map items build two records, in order. */
  lemma ProjectedTwo(a: seq<Pair>, b: seq<Pair>)
    requires WellTypedMap(a) && WellTypedMap(b)
    ensures WellTypedItems([Map(a), Map(b)])
    ensures Projected([Map(a), Map(b)]) == [Project(a), Project(b)]
  {
    var items := [Map(a), Map(b)];
    assert WellTypedItems(items);
    assert Built(items, 1) == [Project(a)];
  }
}
