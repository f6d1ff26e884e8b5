/** Commands: how the server reads one from its input (parser.c) and how the
    client library writes one (hilexi.c). */
module Commands {
  import opened Objects
  import opened Wire

  datatype CmdType =
    | IllegalType | OkType | AuthType | PingType | InfoType | SelectType
    | HelpType | KeysType | SetType | GetType | DelType | PushType | PopType
    | EnqueType | DequeType | ZSetType | ZHasType | ZDelType

  datatype Cmd =
    | Illegal
    | Okc
    | Auth(username: Obj, password: Obj)
    | Ping
    | Infoc
    | Select(db: int64)
    | Help(topic: CmdType)
    | Keys
    | Set(key: Obj, value: Obj)
    | Get(key: Obj)
    | Del(key: Obj)
    | Push(value: Obj)
    | Pop
    | Enque(value: Obj)
    | Deque
    | ZSet(value: Obj)
    | ZHas(value: Obj)
    | ZDel(value: Obj)

  /** The server's command table: case-sensitive. */
  function Lookup(s: string): CmdType {
    match s
    case "OK" => OkType
    case "SET" => SetType
    case "GET" => GetType
    case "DEL" => DelType
    case "POP" => PopType
    case "HELP" => HelpType
    case "AUTH" => AuthType
    case "PING" => PingType
    case "INFO" => InfoType
    case "KEYS" => KeysType
    case "PUSH" => PushType
    case "ZSET" => ZSetType
    case "ZHAS" => ZHasType
    case "ZDEL" => ZDelType
    case "ENQUE" => EnqueType
    case "DEQUE" => DequeType
    case "SELECT" => SelectType
    case _ => IllegalType
  }

  /** A command whose type alone is known: every argument is all zero bytes. */
  function Bare(t: CmdType): Cmd {
    match t
    case IllegalType => Illegal
    case OkType => Okc
    case AuthType => Auth(Null, Null)
    case PingType => Ping
    case InfoType => Infoc
    case SelectType => Select(0)
    case HelpType => Help(IllegalType)
    case KeysType => Keys
    case SetType => Set(Null, Null)
    case GetType => Get(Null)
    case DelType => Del(Null)
    case PushType => Push(Null)
    case PopType => Pop
    case EnqueType => Enque(Null)
    case DequeType => Deque
    case ZSetType => ZSet(Null)
    case ZHasType => ZHas(Null)
    case ZDelType => ZDel(Null)
  }

  function ParseSimpleType(r: string): Parsed<CmdType> {
    var line := ParseLine(r);
    Parsed(Lookup(line.value), Adv(line.rest))
  }

  function ParseCmdType(conv: string -> int64, r: string): Parsed<CmdType> {
    match Cur(r)
    case '$' =>
      var p := ParseObject(conv, r);
      Parsed(if p.value.Str? then Lookup(p.value.text) else IllegalType, p.rest)
    case '+' => ParseSimpleType(r)
    case _ => Parsed(IllegalType, r)
  }

  /** The commands with exactly one argument, which may not be null. */
  function WithOne(t: CmdType, o: Obj): Cmd {
    if o == Null then Illegal
    else
      match t
      case GetType => Get(o)
      case DelType => Del(o)
      case PushType => Push(o)
      case EnqueType => Enque(o)
      case ZSetType => ZSet(o)
      case ZHasType => ZHas(o)
      case ZDelType => ZDel(o)
      case SelectType => if o.Int? then Select(o.num) else Illegal
      case _ => Illegal
  }

  /** The commands with exactly two arguments, neither null. */
  function WithTwo(t: CmdType, a: Obj, b: Obj): Cmd {
    if a == Null || b == Null then Illegal
    else
      match t
      case AuthType => Auth(a, b)
      case SetType => Set(a, b)
      case _ => Illegal
  }

  predicate TakesTwo(t: CmdType) {
    t == AuthType || t == SetType
  }

  predicate TakesOne(t: CmdType) {
    t == GetType || t == DelType || t == PushType || t == EnqueType || t == ZSetType
    || t == ZHasType || t == ZDelType || t == SelectType
  }

  /** The arguments of an array of `len` elements whose first one named `t`. */
  function ParseArgs(conv: string -> int64, len: nat, t: CmdType, r: string): Cmd {
    if t == HelpType then
      var topic := ParseCmdType(conv, r).value;
      if topic == IllegalType then Illegal else Help(topic)
    else if TakesTwo(t) && len == 3 then
      var a := ParseObject(conv, r);
      WithTwo(t, a.value, ParseObject(conv, a.rest).value)
    else if TakesOne(t) && len == 2 then
      WithOne(t, ParseObject(conv, r).value)
    else Illegal
  }

  function ParseArrayCmd(conv: string -> int64, r: string): Cmd {
    var h := ParseHeader(r);
    if !h.ok || h.len == 0 then Illegal
    else
      var t := ParseCmdType(conv, h.rest);
      ParseArgs(conv, h.len, t.value, t.rest)
  }

  function ParseCmd(conv: string -> int64, r: string): Cmd {
    match Cur(r)
    case '*' => ParseArrayCmd(conv, r)
    case '+' => Bare(ParseSimpleType(r).value)
    case '$' => Bare(ParseCmdType(conv, r).value)
    case _ => Illegal
  }

  // ------------------------------------------------------------------ client

  /** The name under which a command is sent. */
  function Name(t: CmdType): string {
    match t
    case IllegalType => ""
    case OkType => "OK"
    case AuthType => "AUTH"
    case PingType => "PING"
    case InfoType => "INFO"
    case SelectType => "SELECT"
    case HelpType => "HELP"
    case KeysType => "KEYS"
    case SetType => "SET"
    case GetType => "GET"
    case DelType => "DEL"
    case PushType => "PUSH"
    case PopType => "POP"
    case EnqueType => "ENQUE"
    case DequeType => "DEQUE"
    case ZSetType => "ZSET"
    case ZHasType => "ZHAS"
    case ZDelType => "ZDEL"
  }

  function Array1(t: CmdType, o: Obj): string {
    EncodeCount('*', 2) + EncodeText(Name(t)) + Encode(o)
  }

  function Array2(t: CmdType, a: Obj, b: Obj): string {
    EncodeCount('*', 3) + EncodeText(Name(t)) + Encode(a) + Encode(b)
  }

  /** The commands the client library can send. */
  predicate ServerBound(c: Cmd) {
    !c.Illegal? && !c.Okc? && !c.Help?
  }

  /** The bytes the client library sends for a command. */
  function Request(c: Cmd): string {
    match c
    case Ping => EncodeSimple(Name(PingType))
    case Infoc => EncodeText(Name(InfoType))
    case Keys => EncodeText(Name(KeysType))
    case Pop => EncodeText(Name(PopType))
    case Deque => EncodeText(Name(DequeType))
    case Auth(u, p) => Array2(AuthType, u, p)
    case Set(k, v) => Array2(SetType, k, v)
    case Select(n) => Array1(SelectType, Int(n))
    case Get(k) => Array1(GetType, k)
    case Del(k) => Array1(DelType, k)
    case Push(v) => Array1(PushType, v)
    case Enque(v) => Array1(EnqueType, v)
    case ZSet(v) => Array1(ZSetType, v)
    case ZHas(v) => Array1(ZHasType, v)
    case ZDel(v) => Array1(ZDelType, v)
    case _ => ""
  }

  /** A command with each argument in the form the codec delivers. */
  function NormalCmd(c: Cmd): Cmd {
    match c
    case Auth(u, p) => Auth(Normal(u), Normal(p))
    case Set(k, v) => Set(Normal(k), Normal(v))
    case Get(k) => Get(Normal(k))
    case Del(k) => Del(Normal(k))
    case Push(v) => Push(Normal(v))
    case Enque(v) => Enque(Normal(v))
    case ZSet(v) => ZSet(Normal(v))
    case ZHas(v) => ZHas(Normal(v))
    case ZDel(v) => ZDel(Normal(v))
    case _ => c
  }

  predicate EncodableCmd(c: Cmd) {
    match c
    case Auth(u, p) => Encodable(u) && Encodable(p)
    case Set(k, v) => Encodable(k) && Encodable(v)
    case Get(k) => Encodable(k)
    case Del(k) => Encodable(k)
    case Push(v) => Encodable(v)
    case Enque(v) => Encodable(v)
    case ZSet(v) => Encodable(v)
    case ZHas(v) => Encodable(v)
    case ZDel(v) => Encodable(v)
    case _ => true
  }

  /** The table is the inverse of the names. */
  lemma LookupName(t: CmdType)
    ensures Lookup(Name(t)) == t
    ensures |Name(t)| <= 6 && forall i :: 0 <= i < |Name(t)| ==> Name(t)[i] != CR && Name(t)[i] != '\0'
  {
  }

  lemma TypeRoundTrip(conv: string -> int64, t: CmdType, rest: string)
    ensures ParseCmdType(conv, EncodeText(Name(t)) + rest) == Parsed(t, rest)
  {
    LookupName(t);
    TextRoundTrip(conv, Name(t), rest);
  }

  lemma ArrayRoundTrip(conv: string -> int64, len: nat, t: CmdType, args: string)
    requires 0 < len < UINT64
    ensures ParseCmd(conv, EncodeCount('*', len) + (EncodeText(Name(t)) + args))
         == ParseArgs(conv, len, t, args)
  {
    HeaderRoundTrip('*', len, EncodeText(Name(t)) + args);
    TypeRoundTrip(conv, t, args);
  }

  lemma ArgsOne(conv: string -> int64, t: CmdType, o: Obj, rest: string)
    requires Exact(conv) && Encodable(o) && TakesOne(t)
    ensures ParseArgs(conv, 2, t, Encode(o) + rest) == WithOne(t, Normal(o))
  {
    RoundTrip(conv, o, rest);
  }

  lemma ArgsTwo(conv: string -> int64, t: CmdType, a: Obj, b: Obj, rest: string)
    requires Exact(conv) && Encodable(a) && Encodable(b) && TakesTwo(t)
    ensures ParseArgs(conv, 3, t, Encode(a) + (Encode(b) + rest)) == WithTwo(t, Normal(a), Normal(b))
  {
    RoundTrip(conv, a, Encode(b) + rest);
    RoundTrip(conv, b, rest);
  }

  lemma Associate(a: string, b: string, c: string, d: string, rest: string)
    ensures a + b + c + rest == a + (b + (c + rest))
    ensures a + b + c + d + rest == a + (b + (c + (d + rest)))
  {
  }

  lemma Array1RoundTrip(conv: string -> int64, t: CmdType, o: Obj, rest: string)
    requires Exact(conv) && Encodable(o) && TakesOne(t)
    ensures ParseCmd(conv, Array1(t, o) + rest) == WithOne(t, Normal(o))
  {
    Associate(EncodeCount('*', 2), EncodeText(Name(t)), Encode(o), "", rest);
    ArrayRoundTrip(conv, 2, t, Encode(o) + rest);
    ArgsOne(conv, t, o, rest);
  }

  lemma Array2RoundTrip(conv: string -> int64, t: CmdType, a: Obj, b: Obj, rest: string)
    requires Exact(conv) && Encodable(a) && Encodable(b) && TakesTwo(t)
    ensures ParseCmd(conv, Array2(t, a, b) + rest) == WithTwo(t, Normal(a), Normal(b))
  {
    Associate(EncodeCount('*', 3), EncodeText(Name(t)), Encode(a), Encode(b), rest);
    ArrayRoundTrip(conv, 3, t, Encode(a) + (Encode(b) + rest));
    ArgsTwo(conv, t, a, b, rest);
  }

  lemma BareRoundTrip(conv: string -> int64, t: CmdType, rest: string)
    ensures ParseCmd(conv, EncodeText(Name(t)) + rest) == Bare(t)
    ensures ParseCmd(conv, EncodeSimple(Name(t)) + rest) == Bare(t)
  {
    TypeRoundTrip(conv, t, rest);
    LookupName(t);
    LineRoundTrip('+', Name(t), rest);
    assert EncodeSimple(Name(t)) + rest == ['+'] + Name(t) + CRLF + rest;
  }

  function TypeOf(c: Cmd): CmdType {
    match c
    case Illegal => IllegalType
    case Okc => OkType
    case Auth(_, _) => AuthType
    case Ping => PingType
    case Infoc => InfoType
    case Select(_) => SelectType
    case Help(_) => HelpType
    case Keys => KeysType
    case Set(_, _) => SetType
    case Get(_) => GetType
    case Del(_) => DelType
    case Push(_) => PushType
    case Pop => PopType
    case Enque(_) => EnqueType
    case Deque => DequeType
    case ZSet(_) => ZSetType
    case ZHas(_) => ZHasType
    case ZDel(_) => ZDelType
  }

  /** The one argument of a command that takes one. */
  function Argument(c: Cmd): Obj
    requires TakesOne(TypeOf(c))
  {
    match c
    case Select(n) => Int(n)
    case Get(k) => k
    case Del(k) => k
    case Push(v) => v
    case Enque(v) => v
    case ZSet(v) => v
    case ZHas(v) => v
    case ZDel(v) => v
  }

  lemma ShapeBare(c: Cmd)
    requires ServerBound(c) && !TakesOne(TypeOf(c)) && !TakesTwo(TypeOf(c))
    ensures Request(c) == EncodeText(Name(TypeOf(c))) || Request(c) == EncodeSimple(Name(TypeOf(c)))
    ensures NormalCmd(c) == Bare(TypeOf(c))
  {
  }

  lemma ShapeOne(c: Cmd)
    requires TakesOne(TypeOf(c)) && EncodableCmd(c)
    ensures Request(c) == Array1(TypeOf(c), Argument(c)) && Encodable(Argument(c))
    ensures NormalCmd(c) == WithOne(TypeOf(c), Normal(Argument(c)))
  {
  }

  /** Every request of the client library reaches the server as the same command
      with the same arguments, whatever bytes follow it. */
  lemma RequestDelivered(conv: string -> int64, c: Cmd, rest: string)
    requires Exact(conv) && ServerBound(c) && EncodableCmd(c)
    ensures ParseCmd(conv, Request(c) + rest) == NormalCmd(c)
  {
    var t := TypeOf(c);
    if TakesTwo(t) {
      match c
      case Auth(u, p) => Array2RoundTrip(conv, t, u, p, rest);
      case Set(k, v) => Array2RoundTrip(conv, t, k, v, rest);
    } else if TakesOne(t) {
      ShapeOne(c);
      Array1RoundTrip(conv, t, Argument(c), rest);
    } else {
      ShapeBare(c);
      BareRoundTrip(conv, t, rest);
    }
  }
}
