/** The command-line front end (line_parser.c): one typed line to one command. */
module Line {
  import opened Objects
  import opened Wire
  import opened Commands

  predicate IsBlank(c: char) {
    c == ' ' || c == '\t'
  }

  predicate IsLetter(c: char) {
    'a' <= c <= 'z' || 'A' <= c <= 'Z'
  }

  /** The table of the command line: all lower or all upper case, no AUTH. */
  function LookupLine(s: string): CmdType {
    match s
    case "set" => SetType
    case "SET" => SetType
    case "get" => GetType
    case "GET" => GetType
    case "del" => DelType
    case "DEL" => DelType
    case "pop" => PopType
    case "POP" => PopType
    case "ping" => PingType
    case "PING" => PingType
    case "info" => InfoType
    case "INFO" => InfoType
    case "HELP" => HelpType
    case "help" => HelpType
    case "keys" => KeysType
    case "KEYS" => KeysType
    case "push" => PushType
    case "PUSH" => PushType
    case "zset" => ZSetType
    case "ZSET" => ZSetType
    case "zhas" => ZHasType
    case "ZHAS" => ZHasType
    case "zdel" => ZDelType
    case "ZDEL" => ZDelType
    case "enque" => EnqueType
    case "ENQUE" => EnqueType
    case "deque" => DequeType
    case "DEQUE" => DequeType
    case "select" => SelectType
    case "SELECT" => SelectType
    case _ => IllegalType
  }

  function SkipBlank(r: string): (s: string)
    ensures |s| <= |r|
    ensures !IsBlank(Cur(s))
    decreases |r|
  {
    if IsBlank(Cur(r)) then SkipBlank(Adv(r)) else r
  }

  /** Everything up to the first space or NUL. */
  function Word(r: string): (p: Parsed<string>)
    ensures |p.value| + |p.rest| == |r|
    decreases |r|
  {
    if Cur(r) == ' ' || Cur(r) == '\0' then Parsed("", r)
    else
      var p := Word(Adv(r));
      Parsed([Cur(r)] + p.value, p.rest)
  }

  /** The characters of the escapes `\n`, `\r`, `\t` and `\"`. */
  function Unescaped(c: char): (e: string)
    ensures |e| <= 1
  {
    match c
    case 'n' => "\n"
    case 'r' => "\r"
    case 't' => "\t"
    case '"' => "\""
    case _ => ""
  }

  /** The text after an opening quote, up to the closing quote or a NUL. A
      backslash that starts no escape stands for itself. */
  function Quoted(r: string): (p: Parsed<string>)
    ensures |p.value| + |p.rest| <= |r|
    decreases |r|
  {
    if Cur(r) == '"' || Cur(r) == '\0' then Parsed("", Adv(r))
    else if Cur(r) == '\\' && Unescaped(Peek(r)) != "" then
      var p := Quoted(Adv(Adv(r)));
      Parsed(Unescaped(Peek(r)) + p.value, p.rest)
    else
      var p := Quoted(Adv(r));
      Parsed([Cur(r)] + p.value, p.rest)
  }

  predicate StartsNumber(r: string) {
    IsDigit(Cur(r)) || (Cur(r) == '-' && IsDigit(Peek(r)))
  }

  function Digits(r: string, acc: int64): (p: Parsed<int64>)
    ensures |p.rest| <= |r|
    decreases |r|
  {
    if IsDigit(Cur(r)) then Digits(Adv(r), ToInt64(acc * 10 + DigitValue(Cur(r))))
    else Parsed(acc, r)
  }

  function Number(r: string): (p: Parsed<int64>)
    ensures |p.rest| <= |r|
  {
    if Cur(r) == '-' then
      var p := Digits(Adv(r), 0);
      var n: int := p.value;
      Parsed(ToInt64(-n), p.rest)
    else Digits(r, 0)
  }

  function LineObject(r0: string): (p: Parsed<Obj>)
    ensures |p.rest| <= |r0|
    ensures p.value.Null? || p.value.Int? || (p.value.Str? && |p.value.text| <= |r0|)
  {
    var r := SkipBlank(r0);
    if IsLetter(Cur(r)) then
      var p := Word(r);
      Parsed(Str(p.value), p.rest)
    else if Cur(r) == '"' then
      var p := Quoted(Adv(r));
      Parsed(Str(p.value), p.rest)
    else if StartsNumber(r) then
      var p := Number(r);
      Parsed(Int(p.value), p.rest)
    else Parsed(Null, r)
  }

  /** The command a whole line stands for. */
  function LineCmd(line: string): Cmd {
    var word := Word(SkipBlank(line));
    var t := LookupLine(word.value);
    var first := LineObject(SkipBlank(word.rest));
    match t
    case PingType => Ping
    case InfoType => Infoc
    case HelpType => Help(IllegalType)
    case KeysType => Keys
    case PopType => Pop
    case DequeType => Deque
    case SetType => Set(first.value, LineObject(first.rest).value)
    case GetType => Get(first.value)
    case DelType => Del(first.value)
    case PushType => Push(first.value)
    case EnqueType => Enque(first.value)
    case ZSetType => ZSet(first.value)
    case ZHasType => ZHas(first.value)
    case ZDelType => ZDel(first.value)
    case SelectType => if first.value.Int? then Select(first.value.num) else Illegal
    case _ => Illegal
  }

  lemma LineEncodable(line: string)
    requires |line| <= MAX_TEXT
    ensures EncodableCmd(LineCmd(line))
  {
    var afterWord := SkipBlank(Word(SkipBlank(line)).rest);
    var first := LineObject(afterWord);
    var second := LineObject(first.rest);
    assert Encodable(first.value) && Encodable(second.value);
  }

  /** What a user types for the server arrives at the server: the command the
      line stands for, written by the client library and read by the server, is
      that command again with its arguments in codec form. */
  lemma LineDelivered(conv: string -> int64, line: string, rest: string)
    requires Exact(conv) && |line| <= MAX_TEXT && ServerBound(LineCmd(line))
    ensures ParseCmd(conv, Request(LineCmd(line)) + rest) == NormalCmd(LineCmd(line))
  {
    hide LineCmd, EncodableCmd, ParseCmd, Request, ServerBound, NormalCmd;
    LineEncodable(line);
    RequestDelivered(conv, LineCmd(line), rest);
  }

  // ------------------------------------------------------------------ quoting

  /** How a character is written between quotes. */
  function EscapeChar(c: char): string {
    match c
    case '\n' => "\\n"
    case '\r' => "\\r"
    case '\t' => "\\t"
    case '"' => "\\\""
    case _ => [c]
  }

  /** `s` escaped, the closing quote, and then `t`. */
  function QuoteThen(s: string, t: string): string {
    if s == "" then "\"" + t else EscapeChar(s[0]) + QuoteThen(s[1..], t)
  }

  /** No NUL, and no backslash that ends the text or stands before n, r or t. */
  predicate Quotable(s: string) {
    s == "" ||
    (s[0] != '\0'
    && (s[0] == '\\' ==> |s| > 1 && s[1] != 'n' && s[1] != 'r' && s[1] != 't')
    && Quotable(s[1..]))
  }

  /** What the reader finds where a character was written. */
  lemma EscapeSeen(c: char, r: string)
    ensures var w := EscapeChar(c) + r;
      if EscapeChar(c) == [c]
      then w != "" && Cur(w) == c && Adv(w) == r && Peek(w) == Cur(r) && c != '"'
      else Cur(w) == '\\' && Unescaped(Peek(w)) == [c] && Adv(Adv(w)) == r && c != '\\' && c != '\0'
  {
    var w := EscapeChar(c) + r;
    assert Adv([c] + r) == r;
    assert |EscapeChar(c)| == 2 ==> w == [w[0]] + ([w[1]] + r);
  }

  /** A backslash followed by what was written starts an escape exactly at the end
      of the text and before a plain n, r or t. */
  lemma EscapeStarts(s: string, t: string)
    ensures Unescaped(Cur(QuoteThen(s, t))) != "" <==>
      s == "" || s[0] == 'n' || s[0] == 'r' || s[0] == 't'
  {
    if s != "" {
      EscapeSeen(s[0], QuoteThen(s[1..], t));
    }
  }

  lemma ConsEqual(a: char, s: string, t: string, p: Parsed<string>)
    requires s != ""
    ensures Parsed([a] + p.value, p.rest) == Parsed(s, t) <==> a == s[0] && p == Parsed(s[1..], t)
  {
    assert ([a] + p.value)[1..] == p.value;
    assert [s[0]] + s[1..] == s;
  }

  /** A quoted text is read back exactly when it is quotable. */
  lemma {:induction false} QuotedRoundTrip(s: string, t: string)
    ensures Quotable(s) <==> Quoted(QuoteThen(s, t)) == Parsed(s, t)
  {
    var r := QuoteThen(s, t);
    if s == "" {
      assert Adv(r) == t;
    } else {
      var r' := QuoteThen(s[1..], t);
      EscapeSeen(s[0], r');
      EscapeStarts(s[1..], t);
      QuotedRoundTrip(s[1..], t);
      ConsEqual(s[0], s, t, Quoted(r'));
      if s[0] == '\\' && Unescaped(Peek(r)) != "" {
        assert Quoted(r).value[0] != s[0];
      }
    }
  }

  /** A text that cannot be typed: its backslash and `n` are read back as a line feed. */
  lemma SomeUnquotable()
    ensures !Quotable("\\n") && Quoted(QuoteThen("\\n", "")).value == "\n"
  {
  }
}
