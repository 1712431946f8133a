/**
 * `database_info_list_free` and the error exit of `database_info_list_new`,
 * described by the sequence of releases they perform.
 */
module ListFree {
  import opened Wrappers
  import opened InfoRecord
  import opened InfoList

  /**
   * One release: closing the cursor or the store, freeing one text field of
   * one record, freeing the record array, or freeing the list header.
   */
  datatype Release =
    | CloseCursor
    | CloseStore
    | FreeText(record: nat, field: TextField, text: string)
    | FreeArray
    | FreeHeader

  /** No release happens twice. */
  predicate NoDuplicates(rel: seq<Release>) {
    forall a, b :: 0 <= a < b < |rel| ==> rel[a] != rel[b]
  }

  /** The text fields in the order the free loop visits them; the numeric fields own nothing. */
  const FreeOrder: seq<TextField> := [
    Name, Description, Publisher, Developer, Origin, Franchise,
    EdgeMagazineReview, CeroRating, PegiRating, EnhancementHw,
    ElspaRating, EsrbRating, BbfcRating
  ]

  lemma FreeOrderCovers(t: TextField)
    ensures t in FreeOrder
  {
    match t
    case Name => assert FreeOrder[0] == t;
    case Description => assert FreeOrder[1] == t;
    case Publisher => assert FreeOrder[2] == t;
    case Developer => assert FreeOrder[3] == t;
    case Origin => assert FreeOrder[4] == t;
    case Franchise => assert FreeOrder[5] == t;
    case EdgeMagazineReview => assert FreeOrder[6] == t;
    case CeroRating => assert FreeOrder[7] == t;
    case PegiRating => assert FreeOrder[8] == t;
    case EnhancementHw => assert FreeOrder[9] == t;
    case ElspaRating => assert FreeOrder[10] == t;
    case EsrbRating => assert FreeOrder[11] == t;
    case BbfcRating => assert FreeOrder[12] == t;
  }

  lemma FreeOrderDistinct()
    ensures forall a, b :: 0 <= a < b < |FreeOrder| ==> FreeOrder[a] != FreeOrder[b]
  {
  }

  /** The text a record holds in a text field, `None` for NULL. */
  function TextOf(r: DatabaseInfo, t: TextField): Option<string> {
    Get(r, Text(t)).text
  }

  /** The frees of record `i`'s text fields, visiting the fields in `order` and skipping NULL ones. */
  function RecordReleases(i: nat, r: DatabaseInfo, order: seq<TextField>): (rel: seq<Release>)
    ensures forall k :: 0 <= k < |rel| ==> rel[k].FreeText? && rel[k].record == i
    ensures forall t, s :: FreeText(i, t, s) in rel <==> t in order && TextOf(r, t) == Some(s)
    ensures (forall a, b :: 0 <= a < b < |order| ==> order[a] != order[b]) ==> NoDuplicates(rel)
  {
    if |order| == 0 then []
    else
      var t := order[0];
      var rest := RecordReleases(i, r, order[1..]);
      assert forall a, b :: 0 <= a < b < |order| - 1 ==> order[1..][a] == order[a + 1] && order[1..][b] == order[b + 1];
      match TextOf(r, t)
      case None => rest
      case Some(s) => [FreeText(i, t, s)] + rest
  }

  lemma FreeOrderComplete()
    ensures forall t :: t in FreeOrder
  {
    forall t {
      FreeOrderCovers(t);
    }
  }

  /** The frees of the text fields of the first `n` records, record by record. */
  function RecordsReleases(list: seq<DatabaseInfo>, n: nat): (rel: seq<Release>)
    requires n <= |list|
    ensures forall k :: 0 <= k < |rel| ==> rel[k].FreeText? && rel[k].record < n
    ensures forall i: nat, t, s :: FreeText(i, t, s) in rel <==> i < n && TextOf(list[i], t) == Some(s)
    ensures NoDuplicates(rel)
  {
    if n == 0 then []
    else
      var front := RecordsReleases(list, n - 1);
      var last := RecordReleases(n - 1, list[n - 1], FreeOrder);
      FreeOrderComplete();
      FreeOrderDistinct();
      assert forall a, b :: 0 <= a < |front| && 0 <= b < |last| ==> front[a] != last[b] by {
        forall a, b | 0 <= a < |front| && 0 <= b < |last|
          ensures front[a] != last[b]
        {
          assert front[a].record < n - 1 == last[b].record;
        }
      }
      front + last
  }

  /** A header `database_info_list_free` can walk: a NULL array holds no records, and `count` records fit. */
  predicate Walkable(h: ListHeader) {
    match h.list
    case None => h.count == 0
    case Some(records) => h.count <= |records|
  }

  /** Record `i` of the header's list holds text `s` in field `t`: a string the list owns. */
  predicate Owns(h: Option<ListHeader>, i: nat, t: TextField, s: string) {
    h.Some? && h.value.list.Some? && i < h.value.count && i < |h.value.list.value|
    && TextOf(h.value.list.value[i], t) == Some(s)
  }

  /**
   * `database_info_list_free`: nothing for NULL; otherwise every non-NULL
   * text field of the first `count` records, then the array, then the
   * header. Freeing a NULL array releases nothing.
   */
  function FreeList(h: Option<ListHeader>): (rel: seq<Release>)
    requires h.Some? ==> Walkable(h.value)
    ensures h.None? ==> rel == []
    ensures h.Some? ==> |rel| > 0 && rel[|rel| - 1] == FreeHeader
    ensures h.Some? ==> (FreeArray in rel <==> h.value.list.Some?)
    ensures h.Some? && h.value.list.Some? ==> |rel| >= 2 && rel[|rel| - 2] == FreeArray
    ensures forall a, b :: 0 <= a < b < |rel| && rel[b].FreeText? ==> rel[a].FreeText?
    ensures forall i: nat, t, s :: FreeText(i, t, s) in rel <==> Owns(h, i, t, s)
    ensures CloseCursor !in rel && CloseStore !in rel
    ensures NoDuplicates(rel)
  {
    match h
    case None => []
    case Some(header) =>
      match header.list
      case None => [FreeHeader]
      case Some(records) => RecordsReleases(records, header.count) + [FreeArray, FreeHeader]
  }

  /**
   * The releases on the error exit of `database_info_list_new`, as written.
   * Failing to open the store or the cursor returns at once; the other two
   * failures close the cursor and the store and free the header. A refused
   * growth has overwritten the array pointer with NULL and never stored it
   * in the header, so the header it frees holds no records.
   */
  function Teardown(f: Failure): (rel: seq<Release>)
    ensures forall k :: 0 <= k < |rel| ==> !rel[k].FreeText? && rel[k] != FreeArray
    ensures CloseCursor in rel <==> f.HeaderAllocFailed? || f.GrowFailed?
    ensures CloseStore in rel <==> f.HeaderAllocFailed? || f.GrowFailed?
    ensures FreeHeader in rel <==> f.GrowFailed?
  {
    match f
    case StoreOpenFailed => []
    case CursorOpenFailed => []
    case HeaderAllocFailed => [CloseCursor, CloseStore] + FreeList(None)
    case GrowFailed(_) => [CloseCursor, CloseStore] + FreeList(Some(ListHeader(None, 0)))
  }

  /**
   * The error exit as intended: whatever was opened is closed, and a
   * refused growth frees the records built so far, their strings and their
   * array along with the header.
   */
  function TeardownFixed(f: Failure): (rel: seq<Release>)
    ensures CloseStore in rel <==> !f.StoreOpenFailed?
    ensures CloseCursor in rel <==> f.HeaderAllocFailed? || f.GrowFailed?
    ensures FreeHeader in rel <==> f.GrowFailed?
    ensures forall i: nat, t, s :: FreeText(i, t, s) in rel <==>
      f.GrowFailed? && i < |f.built| && TextOf(f.built[i], t) == Some(s)
    ensures FreeArray in rel <==> f.GrowFailed? && |f.built| > 0
    ensures NoDuplicates(rel)
  {
    match f
    case StoreOpenFailed => []
    case CursorOpenFailed => [CloseStore]
    case HeaderAllocFailed => [CloseCursor, CloseStore]
    case GrowFailed(built) =>
      var frees := FreeList(Some(ListOf(built)));
      assert forall k :: 0 <= k < |frees| ==> frees[k] != CloseCursor && frees[k] != CloseStore;
      [CloseCursor, CloseStore] + frees
  }
}
