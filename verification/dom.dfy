/**
 * The MessagePack document values (the rmsgpack DOM) that a libretrodb cursor
 * yields, and the C-string view that `strcmp` and `strdup` take of a string value.
 */
module Dom {

  const UINT64_LIMIT: int := 0x1_0000_0000_0000_0000
  const INT64_MIN: int := -0x8000_0000_0000_0000

  /** The `uint_` payload of an unsigned value is a 64-bit unsigned integer. */
  type uint64 = x: int | 0 <= x < UINT64_LIMIT

  /** The `int_` payload of a signed value is a 64-bit two's-complement integer. */
  type int64 = x: int | INT64_MIN <= x < -INT64_MIN

  /** One DOM value; a map keeps its key/value pairs in the order they were stored. */
  datatype Value =
    | Null
    | Bool(b: bool)
    | UInt(u: uint64)
    | Int(i: int64)
    | Str(s: string)
    | Binary(bytes: seq<bv8>)
    | Map(pairs: seq<Pair>)
    | Array(elems: seq<Value>)

  datatype Pair = Pair(key: Value, value: Value)

  const NUL: char := '\0'

  /** The position of the first NUL character of `s` at or after `i`, or `|s|` when there is none. */
  function NulFrom(s: string, i: nat): (n: nat)
    requires i <= |s|
    ensures i <= n <= |s|
    ensures forall k :: i <= k < n ==> s[k] != NUL
    ensures n < |s| ==> s[n] == NUL
    decreases |s| - i
  {
    if i == |s| || s[i] == NUL then i else NulFrom(s, i + 1)
  }

  /**
   * The string a C routine sees when handed the buffer of `s`: everything
   * before the first NUL character (all of `s` when it has none).
   */
  function CString(s: string): (c: string)
    ensures c <= s
    ensures NUL !in c
    ensures |c| < |s| ==> s[|c|] == NUL
  {
    s[..NulFrom(s, 0)]
  }

  /** A string without NUL characters is its own C string. */
  lemma CStringOfNulFree(s: string)
    requires NUL !in s
    ensures CString(s) == s
  {
  }

  /** A NUL at position `k` with none before it ends the C string there. */
  lemma CStringPrefix(s: string, k: nat)
    requires k < |s| && s[k] == NUL && NUL !in s[..k]
    ensures CString(s) == s[..k]
  {
  }
}
