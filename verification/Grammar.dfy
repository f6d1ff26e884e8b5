/** Which bytes are an object, and what is made of bytes that are none. Every input that
    starts with the tag of a kind of object has one of the forms given for it here. */
module Grammar {
  import opened Objects
  import opened Wire
  import opened Commands

  predicate Digits(d: string) {
    forall i :: 0 <= i < |d| ==> '0' <= d[i] <= '9'
  }

  function Value(d: string): nat
    requires Digits(d)
  {
    if d == "" then 0 else 10 * Value(d[..|d| - 1]) + (d[|d| - 1] as int - '0' as int)
  }

  /** No digit, so that the digits before it are all there are. */
  predicate AfterDigits(x: string) {
    x == "" || !('0' <= x[0] <= '9')
  }

  predicate Plain(t: string) {
    forall i :: 0 <= i < |t| ==> t[i] != '\r' && t[i] != '\0'
  }

  /** Where a line stops. */
  predicate AfterPlain(x: string) {
    x == "" || x[0] == '\r' || x[0] == '\0'
  }

  lemma DigitAdded(v: nat, c: nat)
    ensures (v % UINT64 * 10 + c) % UINT64 == (10 * v + c) % UINT64
  {
    var q := v / UINT64;
    assert 10 * v + c == (v % UINT64 * 10 + c) + (10 * q) * UINT64;
    WholeTurns(v % UINT64 * 10 + c, 10 * q);
  }

  lemma {:induction false} WholeTurns(a: nat, k: nat)
    ensures (a + k * UINT64) % UINT64 == a % UINT64
  {
    if k > 0 {
      WholeTurns(a, k - 1);
      assert a + k * UINT64 == (a + (k - 1) * UINT64) + UINT64;
    }
  }

  lemma {:induction false} DigitsRead(d: string, x: string)
    requires Digits(d)
    ensures ParseLen(d + x, 0) == ParseLen(x, Value(d) % UINT64)
  {
    if d == "" {
      assert d + x == x;
    } else {
      var n := |d| - 1;
      var y := [d[n]] + x;
      assert d + x == d[..n] + y;
      DigitsRead(d[..n], y);
      assert y[1..] == x;
      DigitAdded(Value(d[..n]), DigitValue(d[n]));
    }
  }

  /** A header with the digits `d`: its length is their value modulo 2^64. */
  lemma HeaderIs(tag: char, d: string, x: string)
    requires Digits(d) && AfterDigits(x)
    ensures ParseHeader([tag] + d + x) ==
      if d == "" then Header(false, 0, [tag] + x)
      else if "\r\n" <= x then Header(true, Value(d) % 0x1_0000_0000_0000_0000, x[2..])
      else Header(false, 0, x)
  {
    var r := [tag] + d + x;
    assert Adv(r) == d + x;
    DigitsRead(d, x);
    if d == "" {
      assert r == [tag] + x;
    } else {
      assert r[1] == d[0];
      assert "\r\n" <= x <==> Cur(x) == CR && Peek(x) == LF;
    }
  }

  /** Every byte after a tag that is no digit ends the digits. */
  lemma {:induction false} SplitDigits(r: string) returns (d: string, x: string)
    ensures r == d + x && Digits(d) && AfterDigits(x)
  {
    if AfterDigits(r) {
      d, x := "", r;
    } else {
      d, x := SplitDigits(r[1..]);
      d := [r[0]] + d;
    }
  }

  lemma {:induction false} PlainRead(t: string, x: string)
    requires Plain(t) && AfterPlain(x)
    ensures Until(t + x) == Parsed(t, x)
  {
    if t == "" {
      assert t + x == x;
    } else {
      assert (t + x)[1..] == t[1..] + x;
      PlainRead(t[1..], x);
      assert [t[0]] + t[1..] == t;
    }
  }

  lemma {:induction false} SplitPlain(r: string) returns (t: string, x: string)
    ensures r == t + x && Plain(t) && AfterPlain(x)
  {
    if AfterPlain(r) {
      t, x := "", r;
    } else {
      t, x := SplitPlain(r[1..]);
      t := [r[0]] + t;
    }
  }

  lemma CloseIs(o: Obj, x: string)
    ensures Close(o, x) == if "\r\n" <= x then Parsed(o, x[2..]) else Parsed(Null, x)
  {
  }

  // ------------------------------------------------------------------ strings

  /** Without a header nothing is read; what follows the digits is left. */
  lemma NoHeader(conv: string -> int64, tag: char, d: string, x: string)
    requires tag in {'$', '*', '%'} && Digits(d) && AfterDigits(x) && !(d != "" && "\r\n" <= x)
    ensures ParseObject(conv, [tag] + d + x) == Parsed(Null, if d == "" then [tag] + x else x)
  {
    hide ParseHeader;
    HeaderIs(tag, d, x);
  }

  lemma TextAfter(conv: string -> int64, r: string)
    requires r != "" && r[0] == '$' && ParseHeader(r).ok
    ensures var h := ParseHeader(r); var t := Taken(h.len, h.rest);
      ParseObject(conv, r) == Close(Str(t.value), t.rest)
  {
    hide ParseHeader, Taken, Close;
  }

  /** A string without the length it declares is null, and nothing is left of it. */
  lemma TextIs(conv: string -> int64, d: string, y: string)
    requires d != "" && Digits(d)
    ensures var n := Value(d) % 0x1_0000_0000_0000_0000;
      ParseObject(conv, "$" + d + "\r\n" + y) ==
        if |y| < n then Parsed(Null, "")
        else if "\r\n" <= y[n..] then Parsed(Str(y[..n]), y[n..][2..])
        else Parsed(Null, y[n..])
  {
    hide ParseHeader, ParseObject;
    var x, n := "\r\n" + y, Value(d) % UINT64;
    assert "$" + d + "\r\n" + y == ['$'] + d + x;
    HeaderIs('$', d, x);
    assert x[2..] == y;
    TextAfter(conv, ['$'] + d + x);
    CloseIs(Str(Taken(n, y).value), Taken(n, y).rest);
  }

  predicate TextForm(r: string, d: string, s: string, x: string) {
    d != "" && Digits(d) && |s| == Value(d) % 0x1_0000_0000_0000_0000
    && r == "$" + d + "\r\n" + s + "\r\n" + x
  }

  lemma TextRead(conv: string -> int64, r: string, d: string, s: string, x: string)
    requires TextForm(r, d, s, x)
    ensures ParseObject(conv, r) == Parsed(Str(s), x)
  {
    hide ParseObject, Digits;
    var y := s + "\r\n" + x;
    assert r == "$" + d + "\r\n" + y;
    TextIs(conv, d, y);
    assert y[..|s|] == s && y[|s|..] == "\r\n" + x;
    assert ("\r\n" + x)[2..] == x;
  }

  lemma TextSplit(conv: string -> int64, r: string) returns (d: string, s: string, x: string)
    requires r != "" && r[0] == '$' && ParseObject(conv, r).value != Null
    ensures TextForm(r, d, s, x)
  {
    hide ParseObject, Digits, Value;
    d, x := SplitDigits(r[1..]);
    assert r == ['$'] + d + x;
    if d == "" || !("\r\n" <= x) {
      NoHeader(conv, '$', d, x);
    } else {
      var y, n := x[2..], Value(d) % UINT64;
      assert x == "\r\n" + y;
      assert r == "$" + d + "\r\n" + y;
      TextIs(conv, d, y);
      s, x := y[..n], y[n..][2..];
      assert y[n..] == "\r\n" + x;
      assert y == s + "\r\n" + x;
    }
  }

  /** A string is read exactly from the digits of its length, CR LF, as many bytes, CR LF. */
  lemma TextExactly(conv: string -> int64, r: string)
    requires r != "" && r[0] == '$'
    ensures ParseObject(conv, r).value != Null <==> exists d, s, x :: TextForm(r, d, s, x)
    ensures forall d, s, x :: TextForm(r, d, s, x) ==> ParseObject(conv, r) == Parsed(Str(s), x)
  {
    hide ParseObject, TextForm;
    forall d, s, x | TextForm(r, d, s, x) ensures ParseObject(conv, r) == Parsed(Str(s), x) {
      TextRead(conv, r, d, s, x);
    }
    if ParseObject(conv, r).value != Null {
      var d, s, x := TextSplit(conv, r);
    }
  }

  // ------------------------------------------------------- numbers, flags, lines

  /** A number that CR LF does not close is null; the cursor stays where the digits end. */
  lemma NumberIs(conv: string -> int64, t: string, x: string)
    requires Plain(t) && AfterPlain(x)
    ensures ParseObject(conv, ":" + t + x) ==
      if "\r\n" <= x then Parsed(Int(conv(t)), x[2..]) else Parsed(Null, x)
  {
    hide Until, Close;
    var r := ":" + t + x;
    assert Adv(r) == t + x;
    PlainRead(t, x);
    CloseIs(Int(conv(t)), x);
  }

  predicate NumberForm(r: string, t: string, x: string) {
    Plain(t) && r == ":" + t + "\r\n" + x
  }

  /** A number is read exactly from a text without CR and NUL, closed by CR LF. */
  lemma NumberExactly(conv: string -> int64, r: string)
    requires r != "" && r[0] == ':'
    ensures ParseObject(conv, r).value != Null <==> exists t, x :: NumberForm(r, t, x)
    ensures forall t, x :: NumberForm(r, t, x) ==> ParseObject(conv, r) == Parsed(Int(conv(t)), x)
  {
    hide ParseObject;
    forall t, x | NumberForm(r, t, x) ensures ParseObject(conv, r) == Parsed(Int(conv(t)), x) {
      var y := "\r\n" + x;
      assert r == ":" + t + y && y[2..] == x;
      NumberIs(conv, t, y);
    }
    var t, x := SplitPlain(r[1..]);
    assert r == ":" + t + x;
    NumberIs(conv, t, x);
    if "\r\n" <= x {
      assert x == "\r\n" + x[2..];
      assert NumberForm(r, t, x[2..]);
    }
  }

  /** A flag is t or f, closed by CR LF; else it is null, and the cursor stays at the first
      byte that does not fit, or on the letter if that is the one after it. */
  lemma FlagExactly(conv: string -> int64, r: string)
    requires r != "" && r[0] == '#'
    ensures ParseObject(conv, r) ==
      if "#t\r\n" <= r then Parsed(Bool(1), r[4..])
      else if "#f\r\n" <= r then Parsed(Bool(0), r[4..])
      else if "#t\r" <= r || "#f\r" <= r then Parsed(Null, r[2..])
      else Parsed(Null, r[1..])
  {
    assert |r| >= 2 ==> r[1..][1..] == r[2..];
    assert |r| >= 3 ==> r[2..][1..] == r[3..];
    assert |r| >= 4 ==> r[3..][1..] == r[4..];
    assert "#t\r" <= r || "#f\r" <= r <==> |r| >= 3 && (r[1] == 't' || r[1] == 'f') && r[2] == '\r';
    assert "#t\r\n" <= r || "#f\r\n" <= r <==> |r| >= 4 && (r[1] == 't' || r[1] == 'f') && r[2] == '\r' && r[3] == '\n';
  }

  lemma LineRead(tag: char, t: string, x: string)
    requires Plain(t) && AfterPlain(x)
    ensures ParseLine([tag] + t + x) == if "\r\n" <= x then Parsed(t, x[1..]) else Parsed("", x)
  {
    hide Until;
    var r := [tag] + t + x;
    assert Adv(r) == t + x;
    PlainRead(t, x);
  }

  /** A line is a string, empty unless CR LF closes it; then one byte is skipped. */
  lemma LineIs(conv: string -> int64, tag: char, t: string, x: string)
    requires tag == '+' || tag == '-'
    requires Plain(t) && AfterPlain(x)
    ensures ParseObject(conv, [tag] + t + x) ==
      if "\r\n" <= x then Parsed(Str(t), x[2..])
      else Parsed(Str(""), if x == "" then "" else x[1..])
  {
    hide ParseLine;
    LineRead(tag, t, x);
  }

  /** What has no tag is null, and nothing is read. */
  lemma Untagged(conv: string -> int64, r: string)
    requires r == "" || r[0] !in "$:#+-*%,"
    ensures ParseObject(conv, r) == Parsed(Null, r)
  {
  }

  // --------------------------------------------------------- arrays and tables

  /** An array is its header and, each where the one before it ends, as many objects. */
  lemma ArrayIs(conv: string -> int64, d: string, y: string) returns (ys: seq<string>)
    requires d != "" && Digits(d)
    ensures var n := Value(d) % 0x1_0000_0000_0000_0000; var p := ParseObject(conv, "*" + d + "\r\n" + y);
      && p.value.Array? && |p.value.items| == n
      && |ys| == n + 1 && ys[0] == y && ys[n] == p.rest
      && forall k :: 0 <= k < n ==> ParseObject(conv, ys[k]) == Parsed(p.value.items[k], ys[k + 1])
  {
    hide ParseHeader, ParseObjects;
    var n := Value(d) % UINT64;
    HeaderIs('*', d, "\r\n" + y);
    assert ("\r\n" + y)[2..] == y;
    assert "*" + d + "\r\n" + y == ['*'] + d + ("\r\n" + y);
    ys := InTurn(conv, n, y);
  }

  lemma {:induction false} InTurn(conv: string -> int64, n: nat, y: string) returns (ys: seq<string>)
    ensures var p := ParseObjects(conv, n, y);
      && |ys| == n + 1 && ys[0] == y && ys[n] == p.rest
      && forall k :: 0 <= k < n ==> ParseObject(conv, ys[k]) == Parsed(p.value[k], ys[k + 1])
    decreases n
  {
    hide ParseObject;
    if n == 0 {
      ys := [y];
    } else {
      var more := InTurn(conv, n - 1, ParseObject(conv, y).rest);
      ys := [y] + more;
    }
  }

  /** A table is its header and as many keys and values, alternately. */
  lemma TableIs(conv: string -> int64, d: string, y: string) returns (ys: seq<string>)
    requires d != "" && Digits(d)
    ensures var n := Value(d) % 0x1_0000_0000_0000_0000; var p := ParseObject(conv, "%" + d + "\r\n" + y);
      && p.value.Table? && |p.value.pairs| == n
      && |ys| == 2 * n + 1 && ys[0] == y && ys[2 * n] == p.rest
      && forall k :: 0 <= k < n ==>
        && ParseObject(conv, ys[2 * k]) == Parsed(p.value.pairs[k].key, ys[2 * k + 1])
        && ParseObject(conv, ys[2 * k + 1]) == Parsed(p.value.pairs[k].value, ys[2 * k + 2])
  {
    hide ParseHeader, ParsePairs;
    var n := Value(d) % UINT64;
    HeaderIs('%', d, "\r\n" + y);
    assert ("\r\n" + y)[2..] == y;
    assert "%" + d + "\r\n" + y == ['%'] + d + ("\r\n" + y);
    ys := PairsInTurn(conv, n, y);
  }

  lemma {:induction false} PairsInTurn(conv: string -> int64, n: nat, y: string) returns (ys: seq<string>)
    ensures var p := ParsePairs(conv, n, y);
      && |ys| == 2 * n + 1 && ys[0] == y && ys[2 * n] == p.rest
      && forall k :: 0 <= k < n ==>
        && ParseObject(conv, ys[2 * k]) == Parsed(p.value[k].key, ys[2 * k + 1])
        && ParseObject(conv, ys[2 * k + 1]) == Parsed(p.value[k].value, ys[2 * k + 2])
    decreases n
  {
    hide ParseObject;
    if n == 0 {
      ys := [y];
    } else {
      var key := ParseObject(conv, y);
      var value := ParseObject(conv, key.rest);
      var more := PairsInTurn(conv, n - 1, value.rest);
      ys := [y, key.rest] + more;
      forall k | 0 < k < n
        ensures ParseObject(conv, ys[2 * k]) == Parsed(ParsePairs(conv, n, y).value[k].key, ys[2 * k + 1])
        ensures ParseObject(conv, ys[2 * k + 1]) == Parsed(ParsePairs(conv, n, y).value[k].value, ys[2 * k + 2])
      {
        assert ys[2 * k] == more[2 * (k - 1)] && ys[2 * k + 1] == more[2 * (k - 1) + 1];
        assert ys[2 * k + 2] == more[2 * (k - 1) + 2];
      }
    }
  }

  // ----------------------------------------------------------------- commands

  /** The first byte of a name that is read as one: an error line is none. */
  predicate NameTag(y: string) {
    y != "" && (y[0] == '$' || y[0] == '+')
  }

  /** Which arrays are which commands: exactly those of the right length that hold, in this
      order, the command's name and its arguments, none of them null. */
  lemma TwoArguments(conv: string -> int64, r: string, a: Obj, b: Obj)
    requires r != "" && r[0] == '*' && ParseHeader(r).ok
    ensures var h := ParseHeader(r);
      var fits := h.len == 3 && NameTag(h.rest) && a != Null && b != Null;
      && (ParseCmd(conv, r) == Set(a, b) <==> fits && ParseObjects(conv, 3, h.rest).value == [Str("SET"), a, b])
      && (ParseCmd(conv, r) == Auth(a, b) <==> fits && ParseObjects(conv, 3, h.rest).value == [Str("AUTH"), a, b])
  {
    hide ParseHeader, ParseObject, ParseObjects, ParseCmdType;
    var y := ParseHeader(r).rest;
    NameRead(conv, y, SetType);
    NameRead(conv, y, AuthType);
    ThreeRead(conv, y);
  }

  lemma ThreeRead(conv: string -> int64, y: string)
    ensures var a := ParseObject(conv, y); var b := ParseObject(conv, a.rest);
      ParseObjects(conv, 3, y).value == [a.value, b.value, ParseObject(conv, b.rest).value]
  {
    hide ParseObject;
    var a := ParseObject(conv, y);
    var b := ParseObject(conv, a.rest);
    var c := ParseObject(conv, b.rest);
    assert ParseObjects(conv, 0, c.rest).value == [];
    assert ParseObjects(conv, 1, b.rest).value == [c.value];
    assert ParseObjects(conv, 2, a.rest).value == [b.value, c.value];
  }

  lemma TwoRead(conv: string -> int64, y: string)
    ensures var a := ParseObject(conv, y);
      ParseObjects(conv, 2, y).value == [a.value, ParseObject(conv, a.rest).value]
  {
    hide ParseObject;
    var a := ParseObject(conv, y);
    var b := ParseObject(conv, a.rest);
    assert ParseObjects(conv, 0, b.rest).value == [];
    assert ParseObjects(conv, 1, a.rest).value == [b.value];
  }

  /** A name is a string, read like any other. */
  lemma NameRead(conv: string -> int64, y: string, c: CmdType)
    requires c != IllegalType
    ensures var t := ParseCmdType(conv, y);
      && (NameTag(y) ==> t.rest == ParseObject(conv, y).rest)
      && (t.value == c <==> NameTag(y) && ParseObject(conv, y).value == Str(Name(c)))
  {
    hide ParseLine, ParseHeader, Lookup;
    LookupExactly();
  }

  lemma LookupExactly()
    ensures forall s, c :: c != IllegalType ==> (Lookup(s) == c <==> s == Name(c))
  {
  }

  lemma OneRead(conv: string -> int64, r: string, t: CmdType, o: Obj)
    requires r != "" && r[0] == '*' && ParseHeader(r).ok
    requires TakesOne(t) && WithOne(t, o) != Illegal
    ensures var h := ParseHeader(r);
      ParseCmd(conv, r) == WithOne(t, o)
      <==> h.len == 2 && NameTag(h.rest) && ParseObjects(conv, 2, h.rest).value == [Str(Name(t)), o]
  {
    hide ParseHeader, ParseObject, ParseObjects, ParseCmdType, Name;
    var y := ParseHeader(r).rest;
    NameRead(conv, y, t);
    TwoRead(conv, y);
  }

  lemma NullRefused(conv: string -> int64, r: string)
    requires r != "" && r[0] == '*' && ParseHeader(r).ok
    ensures ParseCmd(conv, r) !in
      {Get(Null), Del(Null), Push(Null), Enque(Null), ZSet(Null), ZHas(Null), ZDel(Null)}
  {
    hide ParseHeader, ParseObject, ParseCmdType;
  }

  lemma OneNames(o: Obj)
    requires o != Null
    ensures Name(GetType) == "GET" && WithOne(GetType, o) == Get(o)
    ensures Name(DelType) == "DEL" && WithOne(DelType, o) == Del(o)
    ensures Name(PushType) == "PUSH" && WithOne(PushType, o) == Push(o)
    ensures Name(EnqueType) == "ENQUE" && WithOne(EnqueType, o) == Enque(o)
    ensures Name(ZSetType) == "ZSET" && WithOne(ZSetType, o) == ZSet(o)
    ensures Name(ZHasType) == "ZHAS" && WithOne(ZHasType, o) == ZHas(o)
    ensures Name(ZDelType) == "ZDEL" && WithOne(ZDelType, o) == ZDel(o)
    ensures Name(SelectType) == "SELECT" && (o.Int? ==> WithOne(SelectType, o) == Select(o.num))
  {
  }

  lemma OneArgument(conv: string -> int64, r: string, o: Obj)
    requires r != "" && r[0] == '*' && ParseHeader(r).ok
    ensures var h := ParseHeader(r); var read := ParseObjects(conv, 2, h.rest).value;
      var fits := h.len == 2 && NameTag(h.rest) && o != Null;
      && (ParseCmd(conv, r) == Get(o) <==> fits && read == [Str("GET"), o])
      && (ParseCmd(conv, r) == Del(o) <==> fits && read == [Str("DEL"), o])
      && (ParseCmd(conv, r) == Push(o) <==> fits && read == [Str("PUSH"), o])
      && (ParseCmd(conv, r) == Enque(o) <==> fits && read == [Str("ENQUE"), o])
      && (ParseCmd(conv, r) == ZSet(o) <==> fits && read == [Str("ZSET"), o])
      && (ParseCmd(conv, r) == ZHas(o) <==> fits && read == [Str("ZHAS"), o])
      && (ParseCmd(conv, r) == ZDel(o) <==> fits && read == [Str("ZDEL"), o])
      && (o.Int? ==> (ParseCmd(conv, r) == Select(o.num) <==> fits && read == [Str("SELECT"), o]))
  {
    hide ParseHeader, ParseCmd, ParseObjects, Name, WithOne, NameTag;
    if o == Null {
      NullRefused(conv, r);
    } else {
      OneNames(o);
      OneRead(conv, r, GetType, o);
      OneRead(conv, r, DelType, o);
      OneRead(conv, r, PushType, o);
      OneRead(conv, r, EnqueType, o);
      OneRead(conv, r, ZSetType, o);
      OneRead(conv, r, ZHasType, o);
      OneRead(conv, r, ZDelType, o);
      if o.Int? {
        OneRead(conv, r, SelectType, o);
      }
    }
  }

  /** HELP takes the name of a command, in an array of any length. */
  lemma HelpArgument(conv: string -> int64, r: string, c: CmdType)
    requires r != "" && r[0] == '*' && ParseHeader(r).ok && c != IllegalType
    ensures var h := ParseHeader(r); var first := ParseObject(conv, h.rest);
      ParseCmd(conv, r) == Help(c)
      <==> && h.len > 0 && NameTag(h.rest) && first.value == Str("HELP")
           && NameTag(first.rest) && ParseObject(conv, first.rest).value == Str(Name(c))
  {
    hide ParseHeader, ParseObject, ParseCmdType, Name;
    var y := ParseHeader(r).rest;
    NameRead(conv, y, HelpType);
    HelpName();
    NameRead(conv, ParseObject(conv, y).rest, c);
  }

  lemma HelpName()
    ensures Name(HelpType) == "HELP"
  {
  }

  /** Which command a name alone is; what it lacks is null or zero. */
  function Alone(name: string): Cmd {
    match name
    case "OK" => Okc
    case "SET" => Set(Null, Null)
    case "GET" => Get(Null)
    case "DEL" => Del(Null)
    case "POP" => Pop
    case "HELP" => Help(IllegalType)
    case "AUTH" => Auth(Null, Null)
    case "PING" => Ping
    case "INFO" => Infoc
    case "KEYS" => Keys
    case "PUSH" => Push(Null)
    case "ZSET" => ZSet(Null)
    case "ZHAS" => ZHas(Null)
    case "ZDEL" => ZDel(Null)
    case "ENQUE" => Enque(Null)
    case "DEQUE" => Deque
    case "SELECT" => Select(0)
    case _ => Illegal
  }

  lemma LookedUpAlone(name: string)
    ensures Bare(Lookup(name)) == Alone(name)
  {
  }

  /** A request that is no array is the string it starts with, alone. */
  lemma NameAlone(conv: string -> int64, r: string)
    requires NameTag(r)
    ensures var o := ParseObject(conv, r).value;
      ParseCmd(conv, r) == if o.Str? then Alone(o.text) else Illegal
  {
    hide ParseHeader, ParseLine, Taken, Lookup, Alone;
    var o := ParseObject(conv, r).value;
    if o.Str? {
      LookedUpAlone(o.text);
    }
  }

  /** Neither an array with a header nor a name is a command. */
  lemma NoCommand(conv: string -> int64, r: string)
    requires !NameTag(r) && (r == "" || r[0] != '*' || !ParseHeader(r).ok)
    ensures ParseCmd(conv, r) == Illegal
  {
  }
}
