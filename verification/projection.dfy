/**
 * Projection of one map-shaped DOM value onto a `database_info_t`: every
 * key/value pair, in map order, goes through the chain of twenty key
 * comparisons, and a matching comparison overwrites its one field.
 */
module Projection {
  import opened Wrappers
  import opened Dom
  import opened InfoRecord
  import opened Keys

  /**
   * `v` has the kind that field `f` reads from it: the string buffer for a
   * text field, the unsigned payload for a numeric or tri-state field.
   */
  predicate ValueFits(f: Field, v: Value) {
    match f
    case Text(_) => v.Str?
    case Num(_) => v.UInt?
  }

  /** The key of `p` is a string whose C-string view is the key name of `f`. */
  predicate Matches(p: Pair, f: Field) {
    p.key.Str? && CString(p.key.s) == KeyName(f)
  }

  /**
   * What the projection assumes of a pair without checking it: the key is a
   * string, and a recognised key carries a value of the kind its field reads.
   */
  ghost predicate WellTypedPair(p: Pair) {
    p.key.Str? && forall f :: Matches(p, f) ==> ValueFits(f, p.value)
  }

  ghost predicate WellTypedMap(pairs: seq<Pair>) {
    forall j :: 0 <= j < |pairs| ==> WellTypedPair(pairs[j])
  }

  /** Pair `j` is the last pair of the map whose key names field `f`. */
  ghost predicate LastMatch(pairs: seq<Pair>, j: int, f: Field) {
    0 <= j < |pairs| && Matches(pairs[j], f) &&
    forall l :: j < l < |pairs| ==> !Matches(pairs[l], f)
  }

  /** A last match that is not the final pair is the last match of the pairs before it. */
  lemma LastMatchInPrefix(pairs: seq<Pair>, j: int, f: Field)
    requires LastMatch(pairs, j, f)
    requires !Matches(pairs[|pairs| - 1], f)
    ensures j < |pairs| - 1 && LastMatch(pairs[..|pairs| - 1], j, f)
  {
    var prefix := pairs[..|pairs| - 1];
    forall l | j < l < |prefix|
      ensures !Matches(prefix[l], f)
    {
      assert prefix[l] == pairs[l];
    }
  }

  /** What a matching comparison stores: a copy of the C string, or the raw unsigned value. */
  function Stored(f: Field, v: Value): (s: Slot)
    requires ValueFits(f, v)
    ensures Fits(f, s)
  {
    match f
    case Text(_) => TextSlot(Some(CString(v.s)))
    case Num(_) => NumSlot(v.u)
  }

  /**
   * The comparisons of `fs` from position `i` on, made one after the other
   * and independently of each other: each one whose key name equals `key`
   * stores `v` in its field.
   */
  function Dispatch(r: DatabaseInfo, key: string, v: Value, fs: seq<Field>, i: nat): DatabaseInfo
    requires forall f :: KeyName(f) == key ==> ValueFits(f, v)
    requires i <= |fs|
    decreases |fs| - i
  {
    if i == |fs| then r
    else
      var f := fs[i];
      var r' := if KeyName(f) == key then Set(r, f, Stored(f, v)) else r;
      Dispatch(r', key, v, fs, i + 1)
  }

  /**
   * The effect of one key/value pair: the field its key names, if any,
   * receives the pair's value. The code reaches this through the chain of
   * comparisons `Dispatch`; `DispatchIsApplyPair` proves the two agree.
   */
  function ApplyPair(r: DatabaseInfo, p: Pair): DatabaseInfo
    requires WellTypedPair(p)
  {
    match Lookup(CString(p.key.s))
    case None => r
    case Some(f) => Set(r, f, Stored(f, p.value))
  }

  /** Applies the pairs of a map in order, the last pair last. */
  function ApplyAll(r: DatabaseInfo, pairs: seq<Pair>): DatabaseInfo
    requires WellTypedMap(pairs)
    decreases |pairs|
  {
    if |pairs| == 0 then r
    else ApplyPair(ApplyAll(r, pairs[..|pairs| - 1]), pairs[|pairs| - 1])
  }

  /** Folding one more pair of a map applies that pair to the fold of the pairs before it. */
  lemma ApplyAllSnoc(r: DatabaseInfo, pairs: seq<Pair>, j: nat)
    requires WellTypedMap(pairs) && j < |pairs|
    ensures WellTypedMap(pairs[..j]) && WellTypedMap(pairs[..j + 1])
    ensures ApplyAll(r, pairs[..j + 1]) == ApplyPair(ApplyAll(r, pairs[..j]), pairs[j])
  {
    assert forall i :: 0 <= i <= j ==> pairs[..j + 1][i] == pairs[i];
    assert pairs[..j + 1][..j] == pairs[..j];
  }

  /** The record projected from the pairs of one map item. */
  function Project(pairs: seq<Pair>): DatabaseInfo
    requires WellTypedMap(pairs)
  {
    ApplyAll(NewRecord(), pairs)
  }

  /**
   * A chain of comparisons over distinct fields stores `v` in the one field
   * whose key name is `key`, and changes nothing when there is none.
   */
  lemma {:induction false} DispatchEffect(r: DatabaseInfo, key: string, v: Value, fs: seq<Field>, i: nat)
    requires forall f :: KeyName(f) == key ==> ValueFits(f, v)
    requires i <= |fs|
    requires forall a, b :: 0 <= a < b < |fs| ==> fs[a] != fs[b]
    ensures (forall k :: i <= k < |fs| ==> KeyName(fs[k]) != key) ==> Dispatch(r, key, v, fs, i) == r
    ensures forall k :: i <= k < |fs| && KeyName(fs[k]) == key ==>
      Dispatch(r, key, v, fs, i) == Set(r, fs[k], Stored(fs[k], v))
    decreases |fs| - i
  {
    if i < |fs| {
      var f0 := fs[i];
      if KeyName(f0) == key {
        var r' := Set(r, f0, Stored(f0, v));
        forall k | i < k < |fs|
          ensures KeyName(fs[k]) != key
        {
          if KeyName(fs[k]) == key {
            KeyNameInjective(fs[k], f0);
          }
        }
        DispatchEffect(r', key, v, fs, i + 1);
        forall k | i <= k < |fs| && KeyName(fs[k]) == key
          ensures k == i
        {
          KeyNameInjective(fs[k], f0);
        }
      } else {
        DispatchEffect(r, key, v, fs, i + 1);
      }
    }
  }

  /**
   * Running the whole chain of twenty comparisons on a pair's key has the
   * effect of storing the value in the one field the key names.
   */
  lemma DispatchIsApplyPair(r: DatabaseInfo, p: Pair)
    requires WellTypedPair(p)
    ensures Dispatch(r, CString(p.key.s), p.value, DispatchOrder, 0) == ApplyPair(r, p)
  {
    var key := CString(p.key.s);
    DispatchOrderDistinct();
    DispatchEffect(r, key, p.value, DispatchOrder, 0);
    match Lookup(key)
    case None =>
      assert forall k :: 0 <= k < |DispatchOrder| ==> KeyName(DispatchOrder[k]) != key;
    case Some(f) =>
      DispatchOrderCovers(f);
      var k :| 0 <= k < |DispatchOrder| && DispatchOrder[k] == f;
  }

  /**
   * One pair changes nothing when its key names no field, and otherwise
   * sets the field it names and leaves every other field as it was.
   */
  lemma ApplyPairEffect(r: DatabaseInfo, p: Pair)
    requires WellTypedPair(p)
    ensures (forall f :: !Matches(p, f)) ==> ApplyPair(r, p) == r
    ensures forall f :: Matches(p, f) ==> ApplyPair(r, p) == Set(r, f, Stored(f, p.value))
    ensures forall f :: Matches(p, f) ==> Get(ApplyPair(r, p), f) == Stored(f, p.value)
    ensures forall f, g :: Matches(p, f) && g != f ==> Get(ApplyPair(r, p), g) == Get(r, g)
  {
    var key := CString(p.key.s);
    match Lookup(key)
    case None =>
      assert forall f :: !Matches(p, f);
    case Some(g) =>
      assert Matches(p, g);
      forall f | Matches(p, f)
        ensures f == g
      {
        KeyNameInjective(f, g);
      }
  }

  /** The content of one field after one pair has been applied. */
  lemma ApplyPairGet(r: DatabaseInfo, p: Pair, f: Field)
    requires WellTypedPair(p)
    ensures Get(ApplyPair(r, p), f) == if Matches(p, f) then Stored(f, p.value) else Get(r, f)
  {
    if Matches(p, f) {
      ApplyPairEffect(r, p);
    } else if g :| Matches(p, g) {
      assert g != f;
      ApplyPairEffect(r, p);
    } else {
      ApplyPairEffect(r, p);
    }
  }

  /**
   * Dropping a final pair that does not name `f` keeps the map well typed
   * and keeps every pair, and every last match, of `f`.
   */
  lemma DropUnmatchedLast(pairs: seq<Pair>, f: Field)
    requires WellTypedMap(pairs) && |pairs| > 0 && !Matches(pairs[|pairs| - 1], f)
    ensures WellTypedMap(pairs[..|pairs| - 1])
    ensures forall j :: 0 <= j < |pairs| - 1 ==> pairs[..|pairs| - 1][j] == pairs[j]
    ensures forall j :: LastMatch(pairs, j, f) ==> LastMatch(pairs[..|pairs| - 1], j, f)
  {
    forall j | LastMatch(pairs, j, f)
      ensures LastMatch(pairs[..|pairs| - 1], j, f)
    {
      LastMatchInPrefix(pairs, j, f);
    }
  }

  /**
   * The value of the last pair of the map whose key names `f`, or `None`
   * when no pair names it.
   */
  function LastValue(pairs: seq<Pair>, f: Field): (r: Option<Value>)
    requires WellTypedMap(pairs)
    ensures r.None? <==> forall j :: 0 <= j < |pairs| ==> !Matches(pairs[j], f)
    ensures forall j :: LastMatch(pairs, j, f) ==> r == Some(pairs[j].value)
    ensures r.Some? ==> ValueFits(f, r.value)
    decreases |pairs|
  {
    var n := |pairs|;
    if n == 0 then None
    else if Matches(pairs[n - 1], f) then
      assert forall j :: LastMatch(pairs, j, f) ==> j == n - 1;
      Some(pairs[n - 1].value)
    else
      var prefix := pairs[..n - 1];
      DropUnmatchedLast(pairs, f);
      LastValue(prefix, f)
  }

  /**
   * Pairs are applied in map order: after projection a field holds what the
   * last pair naming it stored, and its default when no pair names it.
   */
  lemma {:induction false} ProjectField(pairs: seq<Pair>, f: Field)
    requires WellTypedMap(pairs)
    ensures Get(Project(pairs), f) ==
              match LastValue(pairs, f)
              case None => Get(NewRecord(), f)
              case Some(v) => Stored(f, v)
    decreases |pairs|
  {
    var n := |pairs|;
    if n > 0 {
      var prefix := pairs[..n - 1];
      assert WellTypedMap(prefix) by {
        forall j | 0 <= j < |prefix|
          ensures WellTypedPair(prefix[j])
        {
          assert prefix[j] == pairs[j];
        }
      }
      ProjectField(prefix, f);
      ApplyPairGet(Project(prefix), pairs[n - 1], f);
      assert Project(pairs) == ApplyPair(Project(prefix), pairs[n - 1]);
    }
  }

  /**
   * The two cases of `ProjectField` spelled out: a field no pair names keeps
   * its default, and otherwise the last pair naming it wins.
   */
  lemma LastWins(pairs: seq<Pair>, f: Field)
    requires WellTypedMap(pairs)
    ensures (forall j :: 0 <= j < |pairs| ==> !Matches(pairs[j], f)) ==>
              Get(Project(pairs), f) == Get(NewRecord(), f)
    ensures forall j :: LastMatch(pairs, j, f) ==> Get(Project(pairs), f) == Stored(f, pairs[j].value)
  {
    ProjectField(pairs, f);
  }

  /** A pair whose key is exactly the key name of `g` matches `g` and no other field. */
  lemma MatchesOnly(p: Pair, g: Field, f: Field)
    requires p.key == Str(KeyName(g))
    ensures Matches(p, f) <==> f == g
  {
    KeyNameNulFree(g);
    CStringOfNulFree(KeyName(g));
    if Matches(p, f) {
      KeyNameInjective(f, g);
    }
  }

  /** A map of one pair projects by applying that pair to the default record. */
  lemma ProjectSingle(p: Pair)
    requires WellTypedPair(p)
    ensures WellTypedMap([p]) && Project([p]) == ApplyPair(NewRecord(), p)
  {
    var none: seq<Pair> := [];
    assert [p][..0] == none;
    assert ApplyAll(NewRecord(), none) == NewRecord();
    assert ApplyAll(NewRecord(), [p]) == ApplyPair(ApplyAll(NewRecord(), none), p);
  }

  /**
   * A tri-state flag takes whatever unsigned value the store holds, not only
   * 0 or 1, and a tri-state flag whose key is absent stays unknown (-1).
   */
  lemma TriStateNotClamped(n: NumField, other: NumField, u: uint64)
    requires IsTriState(n) && IsTriState(other) && other != n
    ensures
      var pairs := [Pair(Str(KeyName(Num(n))), UInt(u))];
      WellTypedMap(pairs) &&
      Get(Project(pairs), Num(n)) == NumSlot(u) && Get(Project(pairs), Num(other)) == NumSlot(-1)
  {
    var p := Pair(Str(KeyName(Num(n))), UInt(u));
    assert WellTypedPair(p) by {
      forall f | Matches(p, f)
        ensures ValueFits(f, p.value)
      {
        MatchesOnly(p, Num(n), f);
      }
    }
    ProjectSingle(p);
    MatchesOnly(p, Num(n), Num(n));
    MatchesOnly(p, Num(n), Num(other));
    ApplyPairGet(NewRecord(), p, Num(n));
    ApplyPairGet(NewRecord(), p, Num(other));
  }

  /** A map with one pair naming text field `t` sets that field to the pair's text. */
  lemma ProjectOneText(t: TextField, text: string)
    requires NUL !in text
    ensures
      var pairs := [Pair(Str(KeyName(Text(t))), Str(text))];
      WellTypedMap(pairs) && Get(Project(pairs), Text(t)) == TextSlot(Some(text))
  {
    var p := Pair(Str(KeyName(Text(t))), Str(text));
    assert WellTypedPair(p) by {
      forall f | Matches(p, f)
        ensures ValueFits(f, p.value)
      {
        MatchesOnly(p, Text(t), f);
      }
    }
    ProjectSingle(p);
    MatchesOnly(p, Text(t), Text(t));
    ApplyPairGet(NewRecord(), p, Text(t));
    CStringOfNulFree(text);
  }

  /**
   * Key comparison and value copy both stop at the first NUL: a key "name"
   * followed by a NUL and more characters still selects `name`, and only the
   * part of the value before its NUL is copied.
   */
  lemma EmbeddedNul(suffix: string, value: string, rest: string)
    requires NUL !in value
    ensures
      var pairs := [Pair(Str("name" + [NUL] + suffix), Str(value + [NUL] + rest))];
      WellTypedMap(pairs) && Project(pairs).name == Some(value)
  {
    var key := "name" + [NUL] + suffix;
    var p := Pair(Str(key), Str(value + [NUL] + rest));
    var pairs := [p];
    assert CString(key) == "name" by {
      assert key[..4] == "name" && key[4] == NUL;
      CStringOfNulFree("name");
      CStringPrefix(key, 4);
    }
    assert CString(value + [NUL] + rest) == value by {
      assert (value + [NUL] + rest)[..|value|] == value;
      CStringPrefix(value + [NUL] + rest, |value|);
    }
    assert WellTypedPair(p) by {
      forall f | Matches(p, f)
        ensures ValueFits(f, p.value)
      {
        MatchesOnly(Pair(Str("name"), p.value), Text(Name), f);
      }
    }
    ProjectSingle(p);
    MatchesOnly(Pair(Str("name"), p.value), Text(Name), Text(Name));
    ApplyPairGet(NewRecord(), p, Text(Name));
  }
}
