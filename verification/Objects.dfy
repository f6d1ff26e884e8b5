/** Values of the database: the tagged union of object.h, its comparison, and
    the bytes a key shows to the hash function. */
module Objects {

  const INT64_MIN: int := -0x8000_0000_0000_0000
  const UINT32: int := 0x1_0000_0000
  const UINT64: int := 0x1_0000_0000_0000_0000
  const MAX_TEXT: nat := 0xff_ffff_ffff_ffff // VSTR_MAX_LARGE_SIZE, 2^56 - 1

  type int64 = n: int | -0x8000_0000_0000_0000 <= n < 0x8000_0000_0000_0000

  /** A conversion of any integer to a C `int64_t`. */
  function ToInt64(n: int): (r: int64)
    ensures (r - n) % UINT64 == 0
    ensures INT64_MIN <= n < -INT64_MIN ==> r == n
  {
    var m := n % UINT64;
    if m < -INT64_MIN then m else m - UINT64
  }

  /** An object. `Table` keeps the sequence of `ht_insert` calls that built it. */
  datatype Obj =
    | Null
    | Int(num: int64)
    | Bool(boolean: int)
    | Str(text: string)
    | Array(items: seq<Obj>)
    | Table(pairs: seq<Pair>)

  datatype Pair = Pair(key: Obj, value: Obj)

  /** How many containers lie around the deepest leaf of `o`. */
  function Depth(o: Obj): nat {
    match o
    case Array(items) => 1 + DepthAll(items)
    case Table(pairs) => 1 + DepthPairs(pairs)
    case _ => 0
  }

  function DepthAll(items: seq<Obj>): nat {
    if items == [] then 0 else Max(Depth(items[0]), DepthAll(items[1..]))
  }

  function DepthPairs(pairs: seq<Pair>): nat {
    if pairs == [] then 0
    else Max(DepthPair(pairs[0]), DepthPairs(pairs[1..]))
  }

  function DepthPair(p: Pair): nat {
    Max(Depth(p.key), Depth(p.value))
  }

  function Max(a: nat, b: nat): nat {
    if a < b then b else a
  }
}
