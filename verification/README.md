# Game database record listing

A Dafny model of RetroArch's game database record lister, `database_info.c`.
Given a libretrodb store and an optional query, `database_info_list_new`:

1. opens a cursor (`database_open_cursor`);
2. reads every item the cursor yields and skips the items that are not maps;
3. projects each map item onto a fixed-schema `database_info_t` record. The record has
   13 text fields (name, description, publisher, …) and 7 numeric fields (Edge
   magazine rating and issue, maximum users, release month and year, rumble
   and analog support);
4. collects the records in an array that grows by one record per map item.

`database_info_list_free` releases the strings the records own, then the
array, then the list header.

The model is split into modules (`Wrappers` holds the `Option` type):

- `Dom`: the MessagePack-style values the store yields (`rmsgpack_dom_value`), plus the view C
  string routines take of a string: everything before its first NUL.
- `InfoRecord`: the record, its fields, a uniform field read/write (`Get`/`Set`), and the defaults a
  fresh record gets.
- `Keys`: the 20 key names, the exact-match lookup from a key to its field, and the order in which
  the source compares them.
- `Projection`: the chain of comparisons one pair goes through (`Dispatch`), proved equal to storing
  the value in the field the key names (`ApplyPair`). It also covers a map folded pair by pair,
  and the reference definition `LastValue` (the last pair naming a field) that the fold is proved
  against.
- `Cursor`: `database_open_cursor`. The query compiler and the cursor are inputs.
- `InfoList`: the read loop and the records it builds, with `MapPositions` as the reference
  definition of which items become records.
- `ListFree` and `Listing`: `database_info_list_free` and the error exit, each described as the
  sequence of releases it performs. `DatabaseInfoListNew` ties everything together as written;
  `DatabaseInfoListNewFixed` is the same listing with the exit it evidently intends (see Findings).

The store, the query compiler, the cursor and the allocator are outside the model and are given as
inputs:

- whether the store opens;
- what the compiler reports for the query;
- what opening the cursor returns;
- the items the cursor yields;
- whether the header allocation succeeds, and the first growth of the record array that the
  allocator refuses.

The source reads keys and values without checking their kind. The model requires the same: every
key is a string, a key naming a text field has a string value, and a key naming a numeric field has
an unsigned value (`Projection.WellTypedMap`).

Where the code and its documented behaviour differ, the model follows the code. The one exception is
`Listing.DatabaseInfoListNewFixed`, which stands beside the as-written `Listing.DatabaseInfoListNew`
and models the error exit with the two leaks under Findings repaired. Otherwise:

- An empty query string is compiled like any other. It is not treated as a full scan (`Cursor.EmptyQueryIsCompiled`).
- The rumble and analog fields store the raw unsigned value. They are not clamped to 0/1.
- A cursor read error ends the read loop exactly like the end of the items, and the list built so far
  is returned. `Store.items` is therefore "the items read before the cursor reported anything
  but success".

## Model

| member | source | states |
|---|---|---|
| Cursor.OpenCursor | database_info.c:28-44 | A NULL query is never compiled and opens a full scan. A non-NULL query is compiled up to its first NUL (`strlen`), and the cursor is opened with it only if compilation set no error. The result is 0 exactly when a cursor was opened and opening it returned 0; otherwise it is -1. |
| Cursor.EmptyQueryIsCompiled | database_info.c:34-39 | An empty query string is compiled and never becomes a full scan; if compilation fails, opening fails. |
| InfoRecord.NewRecord | database_info.c:77-96 | A fresh record has every text field NULL, rating, issue, users, release month and year 0, and rumble and analog -1. |
| Keys.LookupExact | database_info.c:103-161 | A key selects field f exactly when it equals f's key name. The lookup is exact and case-sensitive, and the 20 key names are distinct. |
| Keys.Lookup | database_info.c:103-161 | The field a key selects has that key as its name, and no field is selected when no name equals the key. |
| Keys.LookupTextKeyName | database_info.c:103-140 | Each text field's key name selects that text field. |
| Keys.LookupNumKeyName | database_info.c:142-161 | Each numeric field's key name selects that numeric field and no text field. |
| Keys.DispatchOrderCovers | database_info.c:103-161 | Every one of the 20 fields is compared in the chain. |
| Keys.DispatchOrderDistinct | database_info.c:103-161 | The chain compares 20 distinct fields. |
| Keys.LookupKeyName | database_info.c:103-161 | Looking up a field's own key name gives that field back (round trip). |
| Keys.KeyNameInjective | database_info.c:103-161 | Different fields have different key names, so at most one comparison of the chain can succeed for a key. |
| Dom.CString | database_info.c:103-104 | The string `strcmp` and `strdup` see is a prefix of the buffer, contains no NUL, and stops at the first NUL. |
| Dom.CStringOfNulFree | database_info.c:103-104 | A string without NUL is seen whole. |
| Dom.CStringPrefix | database_info.c:103-104 | A string with its first NUL at k is seen as its first k characters. |
| Projection.DispatchEffect | database_info.c:103-161 | Running a chain of independent comparisons over distinct fields changes nothing when no field's name equals the key. Otherwise it stores the value in exactly the one matching field. |
| Projection.DispatchIsApplyPair | database_info.c:103-161 | Running all twenty comparisons on a pair's key stores its value in exactly the field the key names, and changes nothing when the key names no field. |
| Projection.ApplyPairEffect | database_info.c:100-161 | A pair whose key names no field leaves the record unchanged. A pair naming field f sets f to the stored value and leaves every other field as it was. |
| Projection.ApplyPairGet | database_info.c:100-161 | After one pair, each field holds the pair's stored value if the pair names it, and its previous content otherwise. |
| Projection.LastValue | database_info.c:98-162 | Reference definition: it returns no value exactly when no pair of the map names the field, and otherwise returns the value of the last pair naming it. That value has the kind the field needs. |
| Projection.ProjectField | database_info.c:98-162 | Folding a map's pairs in order leaves each field at the stored copy of `LastValue`, or at its default when no pair names it. |
| Projection.LastWins | database_info.c:98-162 | A field no pair names keeps its default. Otherwise the last occurrence of its key wins. |
| Projection.MatchesOnly | database_info.c:103-161 | A pair keyed by exactly a field's name is compared equal for that field and no other. |
| Projection.TriStateNotClamped | database_info.c:157-161 | A rumble or analog key stores the raw unsigned value, not clamped to 0 or 1 (the narrowing to the C field is not modelled), and leaves the other tri-state field at -1. |
| Projection.ProjectOneText | database_info.c:103-104 | A map with one text-keyed pair sets that field to a copy of the value. |
| Projection.EmbeddedNul | database_info.c:103-104 | A key "name" followed by a NUL and more characters still selects `name`. Only the part of the value before its NUL is copied. |
| Projection.ProjectSingle | database_info.c:76-104 | A one-pair map's record is that pair applied to the defaults. |
| Projection.ApplyAllSnoc | database_info.c:98-101 | Folding one more pair applies it to the fold of the pairs before it. |
| InfoList.MapPositionsExact | database_info.c:64-68 | The positions are strictly increasing, each one is a map item, and every map item among the items read is listed. |
| InfoList.BuiltPositions | database_info.c:64-164 | After reading n items there is one record per map item, and record k is the projection of the k-th map item, in cursor order. Items that are not maps use no slot. |
| InfoList.ProjectedPositions | database_info.c:64-169 | The records of a complete read are one per map item, each the projection of its item. |
| InfoList.BuiltPrefix | database_info.c:64-75 | Reading more items only appends records and never changes those already built. |
| InfoList.DispatchPairs | database_info.c:98-162 | The inner loop runs every pair through the chain of comparisons. It leaves the record equal to the in-order fold of the pairs' effects. |
| InfoList.BuildRecord | database_info.c:75-162 | A map item's record is its projection: defaults first, then every pair in turn. |
| InfoList.CollectRecords | database_info.c:64-164 | The read loop completes exactly when every growth up to the number of map items is granted, and then holds all the records. On a refusal it holds the records built before it, and they are a prefix of the full list. |
| InfoList.ProjectedTwo | database_info.c:64-75 | Two map items build two records, in order. |
| ListFree.RecordReleases | database_info.c:191-218 | One record's frees are exactly its non-NULL text fields, each freed once. |
| ListFree.RecordsReleases | database_info.c:185-219 | The loop over the first `count` records frees exactly the non-NULL text fields of those records, each once. |
| ListFree.FreeOrderCovers | database_info.c:192-218 | The free loop visits every one of the 13 text fields. |
| ListFree.FreeOrderDistinct | database_info.c:192-218 | The free loop visits each text field once. |
| ListFree.FreeOrderComplete | database_info.c:192-218 | No text field is left out of the free loop. |
| ListFree.FreeList | database_info.c:178-223 | It frees nothing for NULL. Otherwise it frees exactly the non-NULL text fields of records 0..count-1, each once, then the array (when it is not NULL), then the header last. It never closes the cursor or the store. |
| ListFree.Teardown | database_info.c:55-175 | As written: the store and cursor open failures release nothing. The other failures close the cursor and the store. Only a refused growth frees the header. No failure frees a string or the record array. |
| ListFree.TeardownFixed | database_info.c:55-175 | As intended: the store is closed whenever it was opened, and the cursor whenever it was opened. A refused growth frees exactly the strings of the records built before it, and their array when there is one. |
| Listing.OpenAndCollect | database_info.c:55-169 | The steps before the exit name the first step that fails. On success the header holds one projected record per map item, with `count` equal to the number of map items. |
| Listing.DatabaseInfoListNew | database_info.c:46-176 | It returns NULL with the failing step named when the store, the cursor, the header allocation or a growth fails, and never a partial list. Otherwise the header holds one record per map item, in cursor order, each the projection of its item, with `count` equal to the number of map items. Success releases nothing. A failure never frees a string or the record array. It closes the cursor and the store only when both had been opened, so a failed cursor open leaves the store open. It frees the header only after a refused growth. |
| Listing.DatabaseInfoListNewFixed | database_info.c:46-176 | The same outcome as the listing as written, but with the intended exit. A failure closes the store whenever it had been opened, and the cursor whenever it had been opened. After a refused growth it frees exactly the strings of the records built so far, their array when there is one, and the header. |
| Listing.FreeReleasesProjection | database_info.c:98-218 | Freeing a successful listing releases, for record i and text field t, exactly the copy of the last value the i-th map item gave t, and nothing when no pair named t. |
| Listing.GrowFailureLeaks | database_info.c:70-175 | As written, a refused growth releases neither the strings of the records already built nor their array. The corrected exit releases both. |
| Listing.GrowFailureWitness | database_info.c:64-74 | A cursor yielding a map with a text key, then a second map, with the growth to two records refused, reaches that exit holding a string. |
| Listing.CursorFailureLeavesStoreOpen | database_info.c:55-58 | As written, an opened store whose query fails to compile is left open. The corrected exit closes it. |

## Left out

- frontend/menu/disp/glui.c is not part of this model: it is display code over global driver
  state.
- menu/menu_driver.c is not part of this model: it is a driver registry over global settings.
- playlist.h and menu/menu_input.h are not part of this model: they hold only prototypes.
- The libretrodb store, the query compiler and the cursor are not modelled. Their answers are
  inputs, and query semantics (which records a query selects) are not modelled.
- The header `database_info.h` is not part of this model. The numeric fields keep the full unsigned
  value, and any narrowing to the C field widths is not modelled.
- `strdup` failure is not modelled: every copy of a value succeeds.
- Pointer identity is not modelled: strings and records are values. The `if (!info)` check
  (database_info.c:189) is never true for an element address and is not modelled.
- A repeated text key overwrites the earlier copy without freeing it (database_info.c:103-140). The
  model treats strings as values and does not count copies, so this leak is not represented.
- The compiled query is never released, and on success the cursor and the store stay open
  (database_info.c:166-169). `DatabaseInfoListNew` reports no releases on success, as the code
  performs none.
- InfoList.Alloc: the allocator is described by its first refused growth, not by an answer for every
  request. The listing stops at the first refusal, so later answers cannot matter.

## Findings

| source | as written | input that shows it | evidently intended | confidence | as-written member | corrected member |
|---|---|---|---|---|---|---|
| database_info.c:70-74, 171-175 | The result of `realloc` overwrites the only pointer to the records built so far. The error exit then frees a header whose list is NULL and whose count is 0, so the built records' strings and the array are never freed. | The store opens and there is no query. The cursor yields a map with key `name`, then a second map. The allocator refuses the growth to two records. | The exit frees the strings of the records built before the refusal and their array, as well as the header. | not executed | ListFree.Teardown, Listing.DatabaseInfoListNew, Listing.GrowFailureLeaks, Listing.GrowFailureWitness | ListFree.TeardownFixed, used by Listing.DatabaseInfoListNewFixed |
| database_info.c:55-58 | When `database_open_cursor` fails, the function returns without closing the store that `libretrodb_open` opened. | The store opens, and the query is rejected by the compiler. | The store is closed before returning. | not executed | ListFree.Teardown, Listing.DatabaseInfoListNew, Listing.CursorFailureLeavesStoreOpen | ListFree.TeardownFixed, used by Listing.DatabaseInfoListNewFixed |
