/** Objects as keys of the server's tables: what `object_cmp` decides, what bytes
    the hash sees, and the class of keys on which the two agree with equality. */
module Keys {
  import opened Objects
  import opened Sequences
  import opened Buckets
  import opened Vstrs

  // -------------------------------------------------------------- comparison

  /** `strncmp` of the first `n` bytes gives 0: equal up to a common NUL. */
  predicate StrncmpEqual(a: string, b: string, n: nat)
    requires n <= |a| && n <= |b|
  {
    n == 0 || (a[0] == b[0] && (a[0] == '\0' || StrncmpEqual(a[1..], b[1..], n - 1)))
  }

  /** `vstr_cmp` gives 0. */
  predicate VstrSame(a: string, b: string) {
    |a| == |b| && StrncmpEqual(a, b, |a|)
  }

  /** `object_cmp` gives 0. Numbers are compared by a difference cut to 32 bits, a
      boolean with itself, and arrays and tables never compare equal. */
  predicate ObjectSame(a: Obj, b: Obj) {
    match (a, b)
    case (Null, Null) => true
    case (Int(m), Int(n)) => (m - n) % UINT32 == 0
    case (Bool(_), Bool(_)) => true
    case (Str(s), Str(t)) => VstrSame(s, t)
    case _ => false
  }

  function UpToNul(s: string): string {
    if s == "" || s[0] == '\0' then "" else [s[0]] + UpToNul(s[1..])
  }

  /** Texts compare equal exactly when their lengths and their parts before the
      first NUL agree. */
  lemma {:induction false} VstrSameMeaning(a: string, b: string)
    requires |a| == |b|
    ensures VstrSame(a, b) <==> UpToNul(a) == UpToNul(b)
  {
    if a != "" {
      VstrSameMeaning(a[1..], b[1..]);
      assert a[0] != '\0' ==> UpToNul(a)[0] == a[0] && UpToNul(a)[1..] == UpToNul(a[1..]);
      assert b[0] != '\0' ==> UpToNul(b)[0] == b[0] && UpToNul(b)[1..] == UpToNul(b[1..]);
    }
  }

  predicate NulFree(s: string) {
    forall i :: 0 <= i < |s| ==> s[i] != '\0'
  }

  lemma {:induction false} NulFreeWhole(s: string)
    requires NulFree(s)
    ensures UpToNul(s) == s
  {
    if s != "" {
      NulFreeWhole(s[1..]);
    }
  }

  // ----------------------------------------------------------------- key bytes

  function LittleEndian(n: nat, size: nat): (s: string)
    ensures |s| == size
  {
    if size == 0 then "" else [(n % 256) as char] + LittleEndian(n / 256, size - 1)
  }

  function Pow256(k: nat): nat {
    if k == 0 then 1 else 256 * Pow256(k - 1)
  }

  lemma {:induction false} LittleEndianInjective(m: nat, n: nat, size: nat)
    requires m < Pow256(size) && n < Pow256(size) && LittleEndian(m, size) == LittleEndian(n, size)
    ensures m == n
  {
    if size > 0 {
      var a, b := LittleEndian(m, size), LittleEndian(n, size);
      assert a[0] == b[0] && a[1..] == b[1..];
      LittleEndianInjective(m / 256, n / 256, size - 1);
    }
  }

  /** The inline buffer and flag byte of a vstr that holds `s` (vstr.h). */
  function InlineText(s: string): (r: string)
    requires |s| <= MAX_SMALL
    ensures |r| == 24
  {
    s + Repeat('\0', MAX_SMALL - |s|) + [(2 * (MAX_SMALL - |s|)) as char]
  }

  /** What is left inline of a text that was pushed to a vstr which was then freed. */
  function Leftover(s: string): (r: string)
    requires |s| <= MAX_SMALL
    ensures |r| == 24
  {
    s + Repeat('\0', MAX_SMALL - |s|) + [(2 * MAX_SMALL) as char]
  }

  /** The 64 bytes of an `object`: type, padding, union. */
  function ObjectBytes(tag: char, data: string): (r: string)
    requires |data| <= 56
    ensures |r| == 64
  {
    [tag] + Repeat('\0', 7) + data + Repeat('\0', 56 - |data|)
  }

  const INT_TAG: char := '\U{01}'
  const BOOL_TAG: char := '\U{03}'
  const STR_TAG: char := '\U{04}'

  /** The bytes of an object with this value, if it holds no pointer: a text read by
      its length is inline up to 22 bytes. */
  function ValueBytes(o: Obj): (r: Option<string>)
    ensures r.Some? ==> |r.value| == 64
  {
    match o
    case Null => Some(ObjectBytes('\0', ""))
    case Int(n) => Some(ObjectBytes(INT_TAG, LittleEndian(n % UINT64, 8)))
    case Bool(b) => Some(ObjectBytes(BOOL_TAG, LittleEndian(b % UINT32, 4)))
    case Str(s) => if |s| <= 22 then Some(ObjectBytes(STR_TAG, InlineText(s))) else None
    case _ => None
  }

  /** The bytes of a canonical value, built from nothing. */
  function Image(o: Obj): string
    requires Canonical(o)
  {
    ValueBytes(o).value
  }

  /** Keys for which comparison, bytes and content agree: null, numbers of 32 bits
      and NUL-free texts of at most 22 bytes. */
  predicate Canonical(o: Obj) {
    match o
    case Null => true
    case Int(n) => -0x8000_0000 <= n < 0x8000_0000
    case Str(s) => |s| <= 22 && NulFree(s)
    case _ => false
  }

  lemma InlineTextInjective(s: string, t: string)
    requires |s| <= MAX_SMALL && |t| <= MAX_SMALL && InlineText(s) == InlineText(t)
    ensures s == t
  {
    assert InlineText(s)[23] == (2 * (MAX_SMALL - |s|)) as char;
    assert InlineText(t)[23] == (2 * (MAX_SMALL - |t|)) as char;
    assert InlineText(s)[..|s|] == s && InlineText(t)[..|t|] == t;
  }

  lemma TextImages(s: string, t: string)
    requires Canonical(Str(s)) && Canonical(Str(t)) && Image(Str(s)) == Image(Str(t))
    ensures s == t
  {
    var a, b := Image(Str(s)), Image(Str(t));
    assert a[8..32] == InlineText(s) && b[8..32] == InlineText(t);
    InlineTextInjective(s, t);
  }

  lemma IntImages(m: int64, n: int64)
    requires Canonical(Int(m)) && Canonical(Int(n)) && Image(Int(m)) == Image(Int(n))
    ensures m == n
  {
    var a, b := Image(Int(m)), Image(Int(n));
    var m8, n8 := LittleEndian(m % UINT64, 8), LittleEndian(n % UINT64, 8);
    assert a[8..16] == m8 && b[8..16] == n8;
    assert Pow256(8) == UINT64;
    LittleEndianInjective(m % UINT64, n % UINT64, 8);
  }

  /** The type byte tells the kinds of key apart. */
  lemma ImageTag(o: Obj)
    requires Canonical(o)
    ensures Image(o) != ""
    ensures Image(o)[0] == if o.Null? then '\0' else if o.Int? then INT_TAG else STR_TAG
  {
  }

  lemma TextKeys(s: string, t: string)
    requires NulFree(s) && NulFree(t)
    ensures VstrSame(s, t) <==> s == t
  {
    if |s| == |t| {
      VstrSameMeaning(s, t);
      NulFreeWhole(s);
      NulFreeWhole(t);
    }
  }

  lemma IntKeys(m: int64, n: int64)
    requires Canonical(Int(m)) && Canonical(Int(n))
    ensures ObjectSame(Int(m), Int(n)) <==> m == n
  {
  }

  /** On canonical keys `object_cmp` is 0 exactly for equal contents, and so exactly
      for equal hashed bytes. */
  lemma CanonicalKeys(a: Obj, b: Obj)
    requires Canonical(a) && Canonical(b)
    ensures ObjectSame(a, b) <==> a == b
    ensures Image(a) == Image(b) <==> a == b
  {
    hide Image, ValueBytes, VstrSame, NulFree;
    ImageTag(a);
    ImageTag(b);
    if a.Str? && b.Str? {
      TextKeys(a.text, b.text);
      if Image(a) == Image(b) {
        TextImages(a.text, b.text);
      }
    } else if a.Int? && b.Int? {
      IntKeys(a.num, b.num);
      if Image(a) == Image(b) {
        IntImages(a.num, b.num);
      }
    }
  }

  /** What the comparison takes for the same although it is not: numbers that agree in 32
      bits, and any two booleans. Arrays and tables it never does. */
  lemma ComparisonFaults(m: int64, n: int64, x: int, y: int, items: seq<Obj>, pairs: seq<Pair>)
    ensures ObjectSame(Int(m), Int(n)) <==> exists k: int :: m == n + k * 0x1_0000_0000
    ensures ObjectSame(Bool(x), Bool(y)) && ObjectSame(Null, Null)
    ensures !ObjectSame(Array(items), Array(items)) && !ObjectSame(Table(pairs), Table(pairs))
    ensures !ObjectSame(Int(m), Bool(x)) && !ObjectSame(Int(m), Null) && !ObjectSame(Str("1"), Int(1))
  {
    if ObjectSame(Int(m), Int(n)) {
      var k := (m - n) / 0x1_0000_0000;
      assert m == n + k * 0x1_0000_0000;
    }
    if k: int :| m == n + k * 0x1_0000_0000 {
      assert (k * 0x1_0000_0000) % 0x1_0000_0000 == 0;
    }
  }

  /** The bytes that are hashed for the text "a" and for the number 258. */
  lemma LayoutExamples()
    ensures Image(Str("a")) == "\U{04}" + Repeat('\0', 7) + "a" + Repeat('\0', 22) + "\U{2c}" + Repeat('\0', 32)
    ensures Image(Int(258)) == "\U{01}" + Repeat('\0', 7) + "\U{02}\U{01}" + Repeat('\0', 54)
  {
    assert LittleEndian(258, 8) == "\U{02}\U{01}" + Repeat('\0', 6) by {
      ZeroBytes(6);
    }
  }

  lemma {:induction false} ZeroBytes(size: nat)
    ensures LittleEndian(0, size) == Repeat('\0', size)
  {
    if size > 0 {
      ZeroBytes(size - 1);
    }
  }

  /** A key as the tables see it: its content for comparison, its bytes for the hash. */
  datatype Key = Key(obj: Obj, raw: string)

  function KeyPolicy(siphash: string -> nat): Policy<Key> {
    Policy((a: Key, b: Key) => ObjectSame(a.obj, b.obj), (k: Key) => siphash(k.raw))
  }

  predicate CanonicalKey(k: Key) {
    Canonical(k.obj) && k.raw == Image(k.obj)
  }

  /** The server's comparison and hash fit together on canonical keys, whatever the
      seeded hash is. */
  lemma KeysLawful(siphash: string -> nat)
    ensures Lawful(KeyPolicy(siphash), CanonicalKey)
    ensures forall a, b :: CanonicalKey(a) && CanonicalKey(b) ==>
      (KeyPolicy(siphash).same(a, b) <==> a == b)
  {
    forall a, b | CanonicalKey(a) && CanonicalKey(b)
      ensures KeyPolicy(siphash).same(a, b) <==> a == b {
      CanonicalKeys(a.obj, b.obj);
    }
  }

  // ------------------------------------------------------------ how keys arise

  /** A clean inline vstr is byte for byte determined by its contents. */
  lemma InlineLayout(v: Vstr)
    requires v.Valid() && v.clean && !v.isLarge
    ensures v.small[..] + [v.FlagByte() as char] == InlineText(v.Contents())
  {
    var n := MAX_SMALL - v.smallAvail;
    assert v.small[..] == v.small[..n] + v.small[n..];
    assert v.small[n..] == Repeat('\0', MAX_SMALL - n);
  }

  /** `parse_string`: a text pushed byte by byte into a new buffer. Up to 22 bytes it
      stays inline, and its bytes are those of its content. */
  method BuildText(s: string) returns (v: Vstr)
    requires |s| < MAX_TEXT
    ensures v.Valid() && v.Contents() == s && v.isLarge == (|s| > 22)
    ensures |s| <= 22 ==> v.small[..] + [v.FlagByte() as char] == InlineText(s)
  {
    v := new Vstr.WithLen(|s| + 1);
    for i := 0 to |s|
      invariant v.Valid() && fresh(v) && fresh(v.small) && fresh(v.data)
      invariant v.Contents() == s[..i] && v.isLarge == (|s| > 22) && (!v.isLarge ==> v.clean)
    {
      var _ := v.PushChar(s[i]);
    }
    if |s| <= 22 {
      InlineLayout(v);
    }
  }

  /** `parse_simple_string` and `parse_error`: the text of a line is pushed byte by byte
      and freed again if the line does not end as it should. Its bytes then stay behind
      in a vstr that holds nothing. */
  method BuildLine(s: string, broken: bool) returns (v: Vstr)
    requires |s| <= MAX_SMALL
    ensures v.Valid() && v.Contents() == (if broken then "" else s) && !v.isLarge
    ensures v.small[..] + [v.FlagByte() as char] == if broken then Leftover(s) else InlineText(s)
  {
    v := new Vstr.WithLen(5);
    for i := 0 to |s|
      invariant v.Valid() && fresh(v) && fresh(v.small) && fresh(v.data)
      invariant v.Contents() == s[..i] && !v.isLarge && v.clean
    {
      var _ := v.PushChar(s[i]);
    }
    InlineLayout(v);
    if broken {
      ghost var bytes := v.small[..];
      assert bytes == InlineText(s)[..MAX_SMALL] == s + Repeat('\0', MAX_SMALL - |s|);
      v.Free();
    }
  }
}
