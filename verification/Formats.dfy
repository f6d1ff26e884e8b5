/** The wire format and the requests, letter by letter. */
module Formats {
  import opened Objects
  import opened Wire
  import opened Commands

  lemma Counts()
    ensures EncodeCount('*', 2) == "*2\r\n" && EncodeCount('*', 3) == "*3\r\n" && EncodeCount('*', 6) == "*6\r\n"
    ensures EncodeCount('%', 0) == "%0\r\n"
  {
    assert Decimal(2) == "2" && Decimal(3) == "3" && Decimal(6) == "6" && Decimal(0) == "0";
  }

  lemma Lengths()
    ensures Decimal(2) == "2" && Decimal(3) == "3" && Decimal(4) == "4" && Decimal(5) == "5" && Decimal(6) == "6"
  {
  }

  lemma Pieces()
    ensures Encode(Int(-5)) == ":-5\r\n" && Encode(Str("ab")) == "$2\r\nab\r\n" && Encode(Null) == "+NONE\r\n"
    ensures Encode(Bool(1)) == "#t\r\n" && Encode(Bool(0)) == "#f\r\n" && Encode(Table([])) == "%0\r\n"
  {
    assert Decimal(5) == "5" && Decimal(2) == "2" && Decimal(0) == "0";
  }

  /** One of each kind. */
  lemma Example()
    ensures Encode(Array([Int(-5), Str("ab"), Null, Bool(1), Bool(0), Table([])])) ==
      "*6\r\n" + ":-5\r\n" + "$2\r\nab\r\n" + "+NONE\r\n" + "#t\r\n" + "#f\r\n" + "%0\r\n"
  {
    hide EncodeCount, Encode;
    Counts();
    Pieces();
    var items := [Int(-5), Str("ab"), Null, Bool(1), Bool(0), Table([])];
    ArrayIs(items);
    assert items[1..] == [Str("ab"), Null, Bool(1), Bool(0), Table([])];
    assert items[1..][1..] == [Null, Bool(1), Bool(0), Table([])];
    assert items[1..][1..][1..] == [Bool(1), Bool(0), Table([])];
    assert items[1..][1..][1..][1..] == [Bool(0), Table([])];
    assert items[1..][1..][1..][1..][1..] == [Table([])];
    assert items[1..][1..][1..][1..][1..][1..] == [];
  }

  lemma ArrayIs(items: seq<Obj>)
    ensures Encode(Array(items)) == EncodeCount('*', |items|) + EncodeAll(items)
  {
  }

  lemma Names()
    ensures EncodeText("GET") == "$3\r\nGET\r\n" && EncodeText("DEL") == "$3\r\nDEL\r\n"
    ensures EncodeText("SET") == "$3\r\nSET\r\n" && EncodeText("POP") == "$3\r\nPOP\r\n"
  {
    hide Decimal;
    Lengths();
  }

  lemma LongerNames()
    ensures EncodeText("AUTH") == "$4\r\nAUTH\r\n" && EncodeText("PUSH") == "$4\r\nPUSH\r\n"
    ensures EncodeText("ZSET") == "$4\r\nZSET\r\n" && EncodeText("ZHAS") == "$4\r\nZHAS\r\n"
    ensures EncodeText("ZDEL") == "$4\r\nZDEL\r\n"
  {
    hide Decimal;
    Lengths();
  }

  lemma LongestNames()
    ensures EncodeText("INFO") == "$4\r\nINFO\r\n" && EncodeText("KEYS") == "$4\r\nKEYS\r\n"
    ensures EncodeText("ENQUE") == "$5\r\nENQUE\r\n" && EncodeText("DEQUE") == "$5\r\nDEQUE\r\n"
    ensures EncodeText("SELECT") == "$6\r\nSELECT\r\n"
  {
    hide Decimal;
    Lengths();
  }

  /** The requests of the client library: those without arguments, */
  lemma BareTexts()
    ensures Request(Ping) == "+PING\r\n" && Request(Infoc) == "$4\r\nINFO\r\n" && Request(Keys) == "$4\r\nKEYS\r\n"
    ensures Request(Pop) == "$3\r\nPOP\r\n" && Request(Deque) == "$5\r\nDEQUE\r\n"
  {
    hide EncodeText;
    Names();
    LongestNames();
    assert EncodeSimple("PING") == "+PING\r\n";
  }

  /** ... with two, */
  lemma TwoTexts(k: Obj, v: Obj)
    ensures Request(Auth(k, v)) == "*3\r\n" + EncodeText("AUTH") + Encode(k) + Encode(v)
    ensures Request(Set(k, v)) == "*3\r\n" + EncodeText("SET") + Encode(k) + Encode(v)
  {
    hide EncodeCount, EncodeText, Encode;
    Counts();
  }

  lemma OneArgument(t: CmdType, o: Obj)
    ensures Array1(t, o) == "*2\r\n" + EncodeText(Name(t)) + Encode(o)
  {
    hide EncodeCount, EncodeText, Encode;
    Counts();
  }

  /** ... and with one. */
  lemma OneTexts(o: Obj)
    ensures Request(Get(o)) == "*2\r\n" + EncodeText("GET") + Encode(o)
    ensures Request(Del(o)) == "*2\r\n" + EncodeText("DEL") + Encode(o)
    ensures Request(Push(o)) == "*2\r\n" + EncodeText("PUSH") + Encode(o)
    ensures Request(Enque(o)) == "*2\r\n" + EncodeText("ENQUE") + Encode(o)
  {
    hide Array1, EncodeText, Encode;
    OneArgument(GetType, o);
    OneArgument(DelType, o);
    OneArgument(PushType, o);
    OneArgument(EnqueType, o);
  }

  lemma MoreOneTexts(o: Obj, n: int64)
    ensures Request(ZSet(o)) == "*2\r\n" + EncodeText("ZSET") + Encode(o)
    ensures Request(ZHas(o)) == "*2\r\n" + EncodeText("ZHAS") + Encode(o)
    ensures Request(ZDel(o)) == "*2\r\n" + EncodeText("ZDEL") + Encode(o)
    ensures Request(Select(n)) == "*2\r\n" + EncodeText("SELECT") + Encode(Int(n))
  {
    hide Array1, EncodeText, Encode;
    OneArgument(ZSetType, o);
    OneArgument(ZHasType, o);
    OneArgument(ZDelType, o);
    OneArgument(SelectType, Int(n));
  }

  /** The commands that the client library can send are those it has bytes for. */
  lemma SentExactly(c: Cmd)
    ensures ServerBound(c) <==> Request(c) != ""
  {
    hide Encode, Decimal;
  }

  // ------------------------------------------------------------ how many arguments

  /** An array is a request only if its length fits its command: two for those with one
      argument, three for AUTH and SET, anything for HELP. Nothing else is read from an
      array. */
  lemma LengthFits(conv: string -> int64, r: string)
    requires Cur(r) == '*' && !ParseCmd(conv, r).Illegal?
    ensures var h := ParseHeader(r); var c := ParseCmd(conv, r);
      h.ok && match c
        case Auth(_, _) => h.len == 3
        case Set(_, _) => h.len == 3
        case Help(_) => h.len > 0
        case Select(_) => h.len == 2
        case Get(_) => h.len == 2
        case Del(_) => h.len == 2
        case Push(_) => h.len == 2
        case Enque(_) => h.len == 2
        case ZSet(_) => h.len == 2
        case ZHas(_) => h.len == 2
        case ZDel(_) => h.len == 2
        case _ => false
  {
    hide ParseHeader, ParseObject, ParseCmdType;
  }

  /** Without an array a name is a command, and its arguments are nulls and zeroes. */
  lemma BareCommands(conv: string -> int64, rest: string)
    ensures ParseCmd(conv, EncodeText("SET") + rest) == Set(Null, Null)
    ensures ParseCmd(conv, EncodeText("GET") + rest) == Get(Null)
    ensures ParseCmd(conv, EncodeText("DEL") + rest) == Del(Null)
    ensures ParseCmd(conv, EncodeText("AUTH") + rest) == Auth(Null, Null)
    ensures ParseCmd(conv, EncodeText("SELECT") + rest) == Select(0)
    ensures ParseCmd(conv, EncodeText("PING") + rest) == Ping
    ensures ParseCmd(conv, EncodeText("OK") + rest) == Okc
  {
    hide ParseCmd, EncodeText;
    BareRoundTrip(conv, SetType, rest);
    BareRoundTrip(conv, GetType, rest);
    BareRoundTrip(conv, DelType, rest);
    BareRoundTrip(conv, AuthType, rest);
    BareRoundTrip(conv, SelectType, rest);
    BareRoundTrip(conv, PingType, rest);
    BareRoundTrip(conv, OkType, rest);
  }

  /** What is no name of a command is none. */
  lemma UnknownName(s: string)
    requires s !in ["OK", "SET", "GET", "DEL", "POP", "HELP", "AUTH", "PING", "INFO", "KEYS", "PUSH", "ZSET", "ZHAS",
                    "ZDEL", "ENQUE", "DEQUE", "SELECT"]
    ensures Lookup(s) == IllegalType
  {
  }
}
