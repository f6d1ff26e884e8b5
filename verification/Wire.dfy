/** The wire format: what builder.c writes and what parser.c reads, as functions
    on the unread bytes. A character stands for the octet with its code. */
module Wire {
  import opened Objects

  const CR: char := '\r'
  const LF: char := '\n'
  const CRLF: string := "\r\n"

  /** The result of reading a prefix: what was read and the bytes still unread.
      The first unread byte is the cursor's lookahead byte. */
  datatype Parsed<+T> = Parsed(value: T, rest: string)

  datatype Header = Header(ok: bool, len: nat, rest: string)

  // ---------------------------------------------------------------- decimals

  predicate IsDigit(c: char) {
    '0' <= c <= '9'
  }

  function DigitValue(c: char): nat
    requires IsDigit(c)
  {
    c as int - '0' as int
  }

  function Digit(d: nat): (c: char)
    requires d < 10
    ensures IsDigit(c) && DigitValue(c) == d
  {
    (d + '0' as int) as char
  }

  /** The text `%lu` prints. */
  function Decimal(n: nat): (s: string)
    ensures |s| > 0 && forall i :: 0 <= i < |s| ==> IsDigit(s[i])
  {
    if n < 10 then [Digit(n)] else Decimal(n / 10) + [Digit(n % 10)]
  }

  /** The text `%ld` prints. */
  function DecimalInt(n: int): string {
    if n < 0 then "-" + Decimal(-n) else Decimal(n)
  }

  /** `conv` stands for the conversion `strtold` applied to a text and cast to
      `int64_t`: arbitrary, but exact on the decimal text of every `int64_t`. */
  ghost predicate Exact(conv: string -> int64) {
    forall n: int64 :: conv(DecimalInt(n)) == n
  }

  /** Reads a sign and digits, as an exact conversion does. */
  function ReadDecimal(t: string): int64 {
    ToInt64(if Cur(t) == '-' then -(ParseLen(Adv(t), 0).value as int) else ParseLen(t, 0).value as int)
  }

  /** There are exact conversions. */
  lemma ExactExists()
    ensures Exact(ReadDecimal)
  {
    forall n: int64 ensures ReadDecimal(DecimalInt(n)) == n {
      var i: int := n;
      var m: nat := if i < 0 then -i else i;
      ParseDecimal(m, "");
      assert Decimal(m) + "" == Decimal(m);
      assert n < 0 ==> DecimalInt(n)[1..] == Decimal(m);
    }
  }

  // ----------------------------------------------------------------- encoder

  /** What `builder_add_object` can write: no empty array (its iterator would
      run past the buffer) and no non-empty table (its loop never advances). */
  predicate Encodable(o: Obj) {
    match o
    case Str(text) => |text| <= MAX_TEXT
    case Array(items) => 0 < |items| < UINT64 && EncodableAll(items)
    case Table(pairs) => pairs == []
    case _ => true
  }

  predicate EncodableAll(items: seq<Obj>) {
    forall i :: 0 <= i < |items| ==> Encodable(items[i])
  }

  function EncodeText(s: string): string {
    "$" + Decimal(|s|) + CRLF + s + CRLF
  }

  function EncodeInt(n: int): string {
    ":" + DecimalInt(n) + CRLF
  }

  function EncodeSimple(s: string): string {
    "+" + s + CRLF
  }

  function EncodeError(s: string): string {
    "-" + s + CRLF
  }

  function EncodeCount(tag: char, n: nat): string {
    [tag] + Decimal(n) + CRLF
  }

  function Encode(o: Obj): string {
    match o
    case Null => EncodeSimple("NONE")
    case Int(n) => EncodeInt(n)
    case Bool(b) => (if b != 0 then "#t" else "#f") + CRLF
    case Str(s) => EncodeText(s)
    case Array(items) => EncodeCount('*', |items|) + EncodeAll(items)
    case Table(pairs) => EncodeCount('%', |pairs|)
  }

  function EncodeAll(items: seq<Obj>): string {
    if items == [] then "" else Encode(items[0]) + EncodeAll(items[1..])
  }

  lemma {:induction false} EncodeAllConcat(a: seq<Obj>, b: seq<Obj>)
    ensures EncodeAll(a + b) == EncodeAll(a) + EncodeAll(b)
  {
    if a == [] {
      assert a + b == b;
      assert EncodeAll(a) + EncodeAll(b) == EncodeAll(b);
    } else {
      EncodeAllConcat(a[1..], b);
      var ab := a + b;
      assert ab[0] == a[0] && ab[1..] == a[1..] + b;
      Associative(Encode(a[0]), EncodeAll(a[1..]), EncodeAll(b));
    }
  }

  lemma Associative(a: string, b: string, c: string)
    ensures a + (b + c) == a + b + c
  {
  }

  /** Keys and values written one after the other, as the INFO reply does. */
  function EncodePairs(pairs: seq<Pair>): string {
    if pairs == [] then ""
    else Encode(pairs[0].key) + Encode(pairs[0].value) + EncodePairs(pairs[1..])
  }

  predicate EncodablePairs(pairs: seq<Pair>) {
    forall i :: 0 <= i < |pairs| ==> Encodable(pairs[i].key) && Encodable(pairs[i].value)
  }

  /** The tree a client reads back: null travels as the string NONE and every
      non-zero boolean as 1. */
  function Normal(o: Obj): Obj {
    match o
    case Null => Str("NONE")
    case Bool(b) => Bool(if b != 0 then 1 else 0)
    case Array(items) => Array(NormalAll(items))
    case _ => o
  }

  function NormalAll(items: seq<Obj>): (r: seq<Obj>)
    ensures |r| == |items|
  {
    if items == [] then [] else [Normal(items[0])] + NormalAll(items[1..])
  }

  function NormalPairs(pairs: seq<Pair>): (r: seq<Pair>)
    ensures |r| == |pairs|
  {
    if pairs == [] then []
    else [Pair(Normal(pairs[0].key), Normal(pairs[0].value))] + NormalPairs(pairs[1..])
  }

  // ----------------------------------------------------------------- decoder

  function Cur(r: string): char {
    if r == "" then '\0' else r[0]
  }

  function Peek(r: string): char {
    if |r| < 2 then '\0' else r[1]
  }

  function Adv(r: string): string {
    if r == "" then "" else r[1..]
  }

  /** `s` is what remains of `r` after reading some bytes. */
  predicate Suffix(s: string, r: string) {
    s == r || (r != "" && Suffix(s, r[1..]))
  }

  function ParseLen(r: string, acc: nat): (p: Parsed<nat>)
    ensures |p.rest| <= |r|
    ensures IsDigit(Cur(r)) ==> |p.rest| < |r|
    decreases |r|
  {
    if IsDigit(Cur(r)) then ParseLen(Adv(r), (acc * 10 + DigitValue(Cur(r))) % UINT64)
    else Parsed(acc, r)
  }

  /** The type byte, a decimal length and the line end that `$`, `*` and `%` share. */
  function ParseHeader(r: string): (h: Header)
    ensures |h.rest| <= |r|
    ensures h.ok ==> |h.rest| + 4 <= |r|
  {
    if !IsDigit(Peek(r)) then Header(false, 0, r)
    else
      var p := ParseLen(Adv(r), 0);
      if Cur(p.rest) != CR || Peek(p.rest) != LF then Header(false, 0, p.rest)
      else Header(true, p.value, Adv(Adv(p.rest)))
  }

  /** `n` lookahead bytes; past the end of input the lookahead reads as NUL. */
  function Taken(n: nat, r: string): (p: Parsed<string>)
    ensures |p.rest| <= |r|
  {
    if n <= |r| then Parsed(r[..n], r[n..])
    else Parsed(r + seq(n - |r|, _ => '\0'), "")
  }

  /** Everything up to the first CR or NUL byte. */
  function Until(r: string): (p: Parsed<string>)
    ensures |p.rest| <= |r|
    decreases |r|
  {
    if Cur(r) == CR || Cur(r) == '\0' then Parsed("", r)
    else
      var p := Until(Adv(r));
      Parsed([Cur(r)] + p.value, p.rest)
  }

  /** `parse_simple_string` and `parse_error`; the text is dropped when the line
      does not end in CR LF. The cursor is left on the LF. */
  function ParseLine(r: string): (p: Parsed<string>)
    ensures |p.rest| <= |r|
  {
    var p := Until(Adv(r));
    if Cur(p.rest) != CR || Peek(p.rest) != LF then Parsed("", p.rest)
    else Parsed(p.value, Adv(p.rest))
  }

  /** The CR LF that closes an object: `o` if it is there, null if not. */
  function Close(o: Obj, r: string): (p: Parsed<Obj>)
    ensures |p.rest| <= |r|
    ensures p.value == o || p.value == Null
  {
    if Cur(r) != CR || Peek(r) != LF then Parsed(Null, r) else Parsed(o, Adv(Adv(r)))
  }

  function ParseBool(r: string): (p: Parsed<Obj>)
    ensures |p.rest| <= |r|
  {
    var r1 := Adv(r);
    if Cur(r1) != 't' && Cur(r1) != 'f' then Parsed(Null, r1)
    else if Peek(r1) != CR then Parsed(Null, r1)
    else if Peek(Adv(r1)) != LF then Parsed(Null, Adv(r1))
    else Parsed(Bool(if Cur(r1) == 't' then 1 else 0), Adv(Adv(Adv(r1))))
  }

  function ParseObject(conv: string -> int64, r: string): (p: Parsed<Obj>)
    ensures |p.rest| <= |r|
    decreases |r|, 0
  {
    match Cur(r)
    case '$' =>
      var h := ParseHeader(r);
      if !h.ok then Parsed(Null, h.rest)
      else
        var t := Taken(h.len, h.rest);
        Close(Str(t.value), t.rest)
    case ':' =>
      var t := Until(Adv(r));
      Close(Int(conv(t.value)), t.rest)
    case '#' => ParseBool(r)
    case '+' =>
      var t := ParseLine(r);
      Parsed(Str(t.value), Adv(t.rest))
    case '-' =>
      var t := ParseLine(r);
      Parsed(Str(t.value), Adv(t.rest))
    case '*' =>
      var h := ParseHeader(r);
      if !h.ok then Parsed(Null, h.rest)
      else
        var p := ParseObjects(conv, h.len, h.rest);
        Parsed(Array(p.value), p.rest)
    case '%' =>
      var h := ParseHeader(r);
      if !h.ok then Parsed(Null, h.rest)
      else
        var p := ParsePairs(conv, h.len, h.rest);
        Parsed(Table(p.value), p.rest)
    case _ => Parsed(Null, r)
  }

  function ParseObjects(conv: string -> int64, n: nat, r: string): (p: Parsed<seq<Obj>>)
    ensures |p.rest| <= |r|
    ensures |p.value| == n
    decreases |r|, n
  {
    if n == 0 then Parsed([], r)
    else
      var first := ParseObject(conv, r);
      var others := ParseObjects(conv, n - 1, first.rest);
      Parsed([first.value] + others.value, others.rest)
  }

  function ParsePairs(conv: string -> int64, n: nat, r: string): (p: Parsed<seq<Pair>>)
    ensures |p.rest| <= |r|
    ensures |p.value| == n
    decreases |r|, n
  {
    if n == 0 then Parsed([], r)
    else
      var key := ParseObject(conv, r);
      var value := ParseObject(conv, key.rest);
      var others := ParsePairs(conv, n - 1, value.rest);
      Parsed([Pair(key.value, value.value)] + others.value, others.rest)
  }

  // -------------------------------------------------------------- round trip

  /** Reading back a printed length, whatever follows it. */
  lemma {:induction false} ParseDecimal(n: nat, t: string)
    requires n < UINT64
    ensures ParseLen(Decimal(n) + t, 0) == ParseLen(t, n)
  {
    if n < 10 {
      DigitStep(n, t, 0);
    } else {
      var last := [Digit(n % 10)] + t;
      assert Decimal(n) + t == Decimal(n / 10) + last;
      ParseDecimal(n / 10, last);
      DigitStep(n % 10, t, n / 10);
    }
  }

  lemma DigitStep(d: nat, t: string, acc: nat)
    requires d < 10 && acc * 10 + d < UINT64
    ensures ParseLen([Digit(d)] + t, acc) == ParseLen(t, acc * 10 + d)
  {
    assert ([Digit(d)] + t)[1..] == t;
  }

  lemma HeaderRoundTrip(tag: char, n: nat, t: string)
    requires n < UINT64
    ensures ParseHeader(EncodeCount(tag, n) + t) == Header(true, n, t)
  {
    var r := EncodeCount(tag, n) + t;
    var line := CRLF + t;
    assert r == [tag] + (Decimal(n) + line);
    assert Adv(r) == Decimal(n) + line;
    ParseDecimal(n, line);
    assert Adv(Adv(line)) == t;
  }

  /** A text free of CR and NUL is read up to the CR that follows it. */
  lemma {:induction false} UntilClean(s: string, t: string)
    requires forall i :: 0 <= i < |s| ==> s[i] != CR && s[i] != '\0'
    requires Cur(t) == CR
    ensures Until(s + t) == Parsed(s, t)
  {
    if s == "" {
      assert s + t == t;
    } else {
      assert (s + t)[1..] == s[1..] + t;
      UntilClean(s[1..], t);
      assert [s[0]] + s[1..] == s;
    }
  }

  lemma LineRoundTrip(tag: char, s: string, t: string)
    requires forall i :: 0 <= i < |s| ==> s[i] != CR && s[i] != '\0'
    ensures ParseLine([tag] + s + CRLF + t) == Parsed(s, [LF] + t)
  {
    hide Until;
    var line := CRLF + t;
    assert [tag] + s + CRLF + t == [tag] + (s + line);
    assert Adv([tag] + (s + line)) == s + line;
    UntilClean(s, line);
    assert Adv(line) == [LF] + t;
  }

  lemma DecimalIntClean(n: int)
    ensures var s := DecimalInt(n);
      |s| > 0 && forall i :: 0 <= i < |s| ==> s[i] != CR && s[i] != '\0'
  {
  }

  lemma CloseAfter(o: Obj, t: string)
    ensures Close(o, CRLF + t) == Parsed(o, t)
  {
    assert Adv(Adv(CRLF + t)) == t;
  }

  lemma SimpleRoundTrip(conv: string -> int64, s: string, t: string)
    requires forall i :: 0 <= i < |s| ==> s[i] != CR && s[i] != '\0'
    ensures ParseObject(conv, EncodeSimple(s) + t) == Parsed(Str(s), t)
    ensures ParseObject(conv, EncodeError(s) + t) == Parsed(Str(s), t)
  {
    LineRoundTrip('+', s, t);
    LineRoundTrip('-', s, t);
    assert EncodeSimple(s) + t == ['+'] + s + CRLF + t;
    assert EncodeError(s) + t == ['-'] + s + CRLF + t;
    assert Adv([LF] + t) == t;
  }

  lemma IntRoundTrip(conv: string -> int64, n: int64, t: string)
    requires Exact(conv)
    ensures ParseObject(conv, EncodeInt(n) + t) == Parsed(Int(n), t)
  {
    var line := CRLF + t;
    DecimalIntClean(n);
    assert EncodeInt(n) + t == [':'] + (DecimalInt(n) + line);
    assert Adv(EncodeInt(n) + t) == DecimalInt(n) + line;
    UntilClean(DecimalInt(n), line);
    CloseAfter(Int(n), t);
  }

  lemma TextRoundTrip(conv: string -> int64, s: string, t: string)
    requires |s| <= MAX_TEXT
    ensures ParseObject(conv, EncodeText(s) + t) == Parsed(Str(s), t)
  {
    var body := s + CRLF + t;
    assert EncodeText(s) + t == EncodeCount('$', |s|) + body;
    HeaderRoundTrip('$', |s|, body);
    assert body[..|s|] == s && body[|s|..] == CRLF + t;
    CloseAfter(Str(s), t);
  }

  lemma BoolRoundTrip(conv: string -> int64, b: int, t: string)
    ensures ParseObject(conv, Encode(Bool(b)) + t) == Parsed(Normal(Bool(b)), t)
  {
    var r := Encode(Bool(b)) + t;
    assert Adv(r) == [r[1]] + CRLF + t;
    assert Adv(Adv(r)) == CRLF + t;
    assert Adv(Adv(Adv(Adv(r)))) == t;
  }

  /** A container header hands the cursor to its elements. */
  lemma ArrayHeader(conv: string -> int64, n: nat, t: string)
    requires n < UINT64
    ensures var p := ParseObjects(conv, n, t);
      ParseObject(conv, EncodeCount('*', n) + t) == Parsed(Array(p.value), p.rest)
  {
    HeaderRoundTrip('*', n, t);
  }

  lemma TableHeader(conv: string -> int64, n: nat, t: string)
    requires n < UINT64
    ensures var p := ParsePairs(conv, n, t);
      ParseObject(conv, EncodeCount('%', n) + t) == Parsed(Table(p.value), p.rest)
  {
    HeaderRoundTrip('%', n, t);
  }

  /** Reading an encoded tree gives its normal form and stops exactly at the
      bytes that follow it. */
  lemma {:induction false} RoundTrip(conv: string -> int64, o: Obj, t: string)
    requires Exact(conv) && Encodable(o)
    ensures ParseObject(conv, Encode(o) + t) == Parsed(Normal(o), t)
    decreases o, 1
  {
    match o
    case Null => SimpleRoundTrip(conv, "NONE", t);
    case Int(n) => IntRoundTrip(conv, n, t);
    case Bool(b) => BoolRoundTrip(conv, b, t);
    case Str(s) => TextRoundTrip(conv, s, t);
    case Array(items) =>
      assert Encode(o) + t == EncodeCount('*', |items|) + (EncodeAll(items) + t);
      RoundTripAll(conv, items, t);
      ArrayHeader(conv, |items|, EncodeAll(items) + t);
    case Table(pairs) =>
      TableHeader(conv, 0, t);
  }

  /** A concatenation of encodings decodes to the sequence of its objects. */
  lemma {:induction false} RoundTripAll(conv: string -> int64, items: seq<Obj>, t: string)
    requires Exact(conv) && EncodableAll(items)
    ensures ParseObjects(conv, |items|, EncodeAll(items) + t) == Parsed(NormalAll(items), t)
    decreases items, 0
  {
    if items == [] {
      assert EncodeAll(items) + t == t;
    } else {
      var next := EncodeAll(items[1..]) + t;
      assert EncodeAll(items) + t == Encode(items[0]) + next;
      RoundTrip(conv, items[0], next);
      RoundTripAll(conv, items[1..], t);
    }
  }

  /** Keys and values written alternately decode to the same pairs. */
  lemma {:induction false} RoundTripPairs(conv: string -> int64, pairs: seq<Pair>, t: string)
    requires Exact(conv) && EncodablePairs(pairs)
    ensures ParsePairs(conv, |pairs|, EncodePairs(pairs) + t) == Parsed(NormalPairs(pairs), t)
  {
    if pairs == [] {
      assert EncodePairs(pairs) + t == t;
    } else {
      var next := EncodePairs(pairs[1..]) + t;
      var afterKey := Encode(pairs[0].value) + next;
      assert EncodePairs(pairs) + t == Encode(pairs[0].key) + afterKey;
      RoundTrip(conv, pairs[0].key, afterKey);
      RoundTrip(conv, pairs[0].value, next);
      RoundTripPairs(conv, pairs[1..], t);
    }
  }

  /** Encodings are self-delimiting: two streams that agree start with objects
      of the same normal form and leave the same bytes. */
  lemma SelfDelimiting(conv: string -> int64, a: Obj, b: Obj, t: string, u: string)
    requires Exact(conv) && Encodable(a) && Encodable(b)
    requires Encode(a) + t == Encode(b) + u
    ensures Normal(a) == Normal(b) && t == u
  {
    RoundTrip(conv, a, t);
    RoundTrip(conv, b, u);
  }

  // ---------------------------------------------------------------- totality

  lemma {:induction false} SuffixTransitive(a: string, b: string, c: string)
    requires Suffix(a, b) && Suffix(b, c)
    ensures Suffix(a, c)
  {
    if b != c {
      SuffixTransitive(a, b, c[1..]);
    }
  }

  lemma {:induction false} SuffixAdv(s: string, r: string)
    requires Suffix(s, r)
    ensures Suffix(Adv(s), r)
  {
    if s != r {
      SuffixAdv(s, r[1..]);
    }
  }

  /** What the cursor has passed followed by what is unread is the input. */
  lemma {:induction false} SuffixMeaning(s: string, r: string)
    requires Suffix(s, r)
    ensures |s| <= |r| && s == r[|r| - |s|..]
  {
    if s != r {
      SuffixMeaning(s, r[1..]);
    }
  }

  lemma {:induction false} DropSuffix(n: nat, r: string)
    requires n <= |r|
    ensures Suffix(r[n..], r)
  {
    if n > 0 {
      DropSuffix(n - 1, r[1..]);
      assert r[1..][n - 1..] == r[n..];
    }
  }

  lemma {:induction false} ParseLenSuffix(r: string, acc: nat)
    ensures Suffix(ParseLen(r, acc).rest, r)
    decreases |r|
  {
    if IsDigit(Cur(r)) {
      ParseLenSuffix(Adv(r), (acc * 10 + DigitValue(Cur(r))) % UINT64);
    }
  }

  lemma {:induction false} UntilSuffix(r: string)
    ensures Suffix(Until(r).rest, r)
    decreases |r|
  {
    if Cur(r) != CR && Cur(r) != '\0' {
      UntilSuffix(Adv(r));
    }
  }

  lemma HeaderSuffix(r: string)
    ensures Suffix(ParseHeader(r).rest, r)
  {
    var rest := ParseLen(Adv(r), 0).rest;
    ParseLenSuffix(Adv(r), 0);
    SuffixAdv(r, r);
    SuffixTransitive(rest, Adv(r), r);
    SuffixAdv(rest, r);
    SuffixAdv(Adv(rest), r);
  }

  lemma LineSuffix(r: string)
    ensures Suffix(Adv(ParseLine(r).rest), r)
  {
    var rest := Until(Adv(r)).rest;
    UntilSuffix(Adv(r));
    SuffixAdv(r, r);
    SuffixTransitive(rest, Adv(r), r);
    SuffixAdv(rest, r);
    SuffixAdv(Adv(rest), r);
  }

  lemma CloseSuffix(o: Obj, s: string, r: string)
    requires Suffix(s, r)
    ensures Suffix(Close(o, s).rest, r)
  {
    SuffixAdv(s, r);
    SuffixAdv(Adv(s), r);
  }

  lemma TextSuffix(r: string)
    ensures var h := ParseHeader(r); Suffix(h.rest, r) && (h.ok ==>
      var t := Taken(h.len, h.rest); Suffix(Close(Str(t.value), t.rest).rest, r))
  {
    HeaderSuffix(r);
    var h := ParseHeader(r);
    if h.ok {
      var t := Taken(h.len, h.rest);
      DropSuffix(if h.len <= |h.rest| then h.len else |h.rest|, h.rest);
      assert h.rest[|h.rest|..] == "";
      SuffixTransitive(t.rest, h.rest, r);
      CloseSuffix(Str(t.value), t.rest, r);
    }
  }

  lemma BoolSuffix(r: string)
    ensures Suffix(ParseBool(r).rest, r)
  {
    SuffixAdv(r, r);
    SuffixAdv(Adv(r), r);
    SuffixAdv(Adv(Adv(r)), r);
    SuffixAdv(Adv(Adv(Adv(r))), r);
  }

  /** The cursor only moves forward over the bytes it was given. */
  lemma {:induction false} ParseObjectSuffix(conv: string -> int64, r: string)
    ensures Suffix(ParseObject(conv, r).rest, r)
    decreases |r|, 0
  {
    match Cur(r)
    case '$' => TextSuffix(r);
    case ':' => UntilSuffix(Adv(r)); CloseSuffix(Int(conv(Until(Adv(r)).value)), Until(Adv(r)).rest, r);
    case '#' => BoolSuffix(r);
    case '+' => LineSuffix(r);
    case '-' => LineSuffix(r);
    case '*' =>
      HeaderSuffix(r);
      var h := ParseHeader(r);
      if h.ok {
        ParseObjectsSuffix(conv, h.len, h.rest);
        SuffixTransitive(ParseObjects(conv, h.len, h.rest).rest, h.rest, r);
      }
    case '%' =>
      HeaderSuffix(r);
      var h := ParseHeader(r);
      if h.ok {
        ParsePairsSuffix(conv, h.len, h.rest);
        SuffixTransitive(ParsePairs(conv, h.len, h.rest).rest, h.rest, r);
      }
    case _ =>
  }

  lemma {:induction false} ParseObjectsSuffix(conv: string -> int64, n: nat, r: string)
    ensures Suffix(ParseObjects(conv, n, r).rest, r)
    decreases |r|, n
  {
    if n > 0 {
      ParseObjectSuffix(conv, r);
      var rest := ParseObject(conv, r).rest;
      ParseObjectsSuffix(conv, n - 1, rest);
      SuffixTransitive(ParseObjects(conv, n - 1, rest).rest, rest, r);
    }
  }

  lemma {:induction false} ParsePairsSuffix(conv: string -> int64, n: nat, r: string)
    ensures Suffix(ParsePairs(conv, n, r).rest, r)
    decreases |r|, n
  {
    if n > 0 {
      ParseObjectSuffix(conv, r);
      var afterKey := ParseObject(conv, r).rest;
      ParseObjectSuffix(conv, afterKey);
      var rest := ParseObject(conv, afterKey).rest;
      SuffixTransitive(rest, afterKey, r);
      ParsePairsSuffix(conv, n - 1, rest);
      SuffixTransitive(ParsePairs(conv, n - 1, rest).rest, rest, r);
    }
  }

  /** Each level of nesting costs four bytes, although elements that fail to
      parse may cost none: the recursion is no deeper than a quarter of the input. */
  lemma {:induction false} DepthBound(conv: string -> int64, r: string)
    ensures 4 * Depth(ParseObject(conv, r).value) <= |r|
    decreases |r|, 0
  {
    var h := ParseHeader(r);
    if h.ok {
      DepthBoundAll(conv, h.len, h.rest);
      DepthBoundPairs(conv, h.len, h.rest);
    }
  }

  lemma {:induction false} DepthBoundAll(conv: string -> int64, n: nat, r: string)
    ensures 4 * DepthAll(ParseObjects(conv, n, r).value) <= |r|
    decreases |r|, n
  {
    if n > 0 {
      DepthBound(conv, r);
      DepthBoundAll(conv, n - 1, ParseObject(conv, r).rest);
    }
  }

  lemma {:induction false} DepthBoundPairs(conv: string -> int64, n: nat, r: string)
    ensures 4 * DepthPairs(ParsePairs(conv, n, r).value) <= |r|
    decreases |r|, n
  {
    if n > 0 {
      DepthBound(conv, r);
      var key := ParseObject(conv, r);
      DepthBound(conv, key.rest);
      DepthBoundPairs(conv, n - 1, ParseObject(conv, key.rest).rest);
    }
  }

  function Nulls(n: nat): seq<Obj> {
    if n == 0 then [] else [Null] + Nulls(n - 1)
  }

  /** At the end of input every further element reads as null. */
  lemma {:induction false} ObjectsAtEnd(conv: string -> int64, n: nat)
    ensures ParseObjects(conv, n, "") == Parsed(Nulls(n), "")
  {
    if n > 0 {
      ObjectsAtEnd(conv, n - 1);
    }
  }
}
