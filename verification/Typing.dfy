/** What a user types for a command: names, blanks, and arguments as words, quoted texts
    or numbers. */
module Typing {
  import opened Objects
  import opened Wire
  import opened Commands
  import opened Line
  import Grammar

  predicate AllBlank(b: string) {
    forall i :: 0 <= i < |b| ==> b[i] == ' ' || b[i] == '\t'
  }

  /** What may stand between words: a word goes on until a space. */
  predicate Gap(b: string) {
    b != "" && b[0] == ' ' && AllBlank(b)
  }

  /** What may follow the last word. */
  predicate Ends(rest: string) {
    rest == "" || rest[0] == ' '
  }

  /** The name of a command, in lower or in upper case. */
  predicate Names(name: string, c: Cmd) {
    match c
    case Help(t) => t == IllegalType && (name == "help" || name == "HELP")
    case Ping => name == "ping" || name == "PING"
    case Infoc => name == "info" || name == "INFO"
    case Keys => name == "keys" || name == "KEYS"
    case Set(_, _) => name == "set" || name == "SET"
    case Get(_) => name == "get" || name == "GET"
    case Del(_) => name == "del" || name == "DEL"
    case Push(_) => name == "push" || name == "PUSH"
    case Pop => name == "pop" || name == "POP"
    case Enque(_) => name == "enque" || name == "ENQUE"
    case Deque => name == "deque" || name == "DEQUE"
    case ZSet(_) => name == "zset" || name == "ZSET"
    case ZHas(_) => name == "zhas" || name == "ZHAS"
    case ZDel(_) => name == "zdel" || name == "ZDEL"
    case Select(_) => name == "select" || name == "SELECT"
    case _ => false
  }

  predicate IsWord(s: string) {
    s != "" && IsLetter(s[0]) && forall i :: 0 <= i < |s| ==> s[i] != ' ' && s[i] != '\0'
  }

  /** How an argument may be typed. */
  predicate Shows(text: string, o: Obj) {
    match o
    case Str(s) => (IsWord(s) && text == s) || (Quotable(s) && text == "\"" + QuoteThen(s, ""))
    case Int(n) => text == DecimalInt(n)
    case _ => false
  }

  /** An argument as it is typed, and the blanks before it. */
  datatype Part = Part(gap: string, text: string)

  predicate Argument(p: Part, o: Obj) {
    Gap(p.gap) && Shows(p.text, o)
  }

  function Glued(parts: seq<Part>, rest: string): string {
    if parts == [] then rest else parts[0].gap + (parts[0].text + Glued(parts[1..], rest))
  }

  /** These parts are the arguments of the command. */
  predicate Arguments(parts: seq<Part>, c: Cmd) {
    match c
    case Set(k, v) => |parts| == 2 && Argument(parts[0], k) && Argument(parts[1], v)
    case Get(k) => |parts| == 1 && Argument(parts[0], k)
    case Del(k) => |parts| == 1 && Argument(parts[0], k)
    case Push(v) => |parts| == 1 && Argument(parts[0], v)
    case Enque(v) => |parts| == 1 && Argument(parts[0], v)
    case ZSet(v) => |parts| == 1 && Argument(parts[0], v)
    case ZHas(v) => |parts| == 1 && Argument(parts[0], v)
    case ZDel(v) => |parts| == 1 && Argument(parts[0], v)
    case Select(n) => |parts| == 1 && Argument(parts[0], Int(n))
    case _ => parts == []
  }

  // --------------------------------------------------------------------- reading

  lemma {:induction false} Blanks(b: string, r: string)
    requires AllBlank(b)
    ensures SkipBlank(b + r) == SkipBlank(r)
  {
    if b == "" {
      assert b + r == r;
    } else {
      assert (b + r)[1..] == b[1..] + r;
      Blanks(b[1..], r);
    }
  }

  lemma BlanksBefore(b: string, r: string)
    requires AllBlank(b) && !IsBlank(Cur(r))
    ensures SkipBlank(b + r) == r
  {
    Blanks(b, r);
  }

  lemma {:induction false} WordRead(s: string, rest: string)
    requires (forall i :: 0 <= i < |s| ==> s[i] != ' ' && s[i] != '\0') && Ends(rest)
    ensures Word(s + rest) == Parsed(s, rest)
  {
    if s == "" {
      assert s + rest == rest;
    } else {
      assert (s + rest)[1..] == s[1..] + rest;
      WordRead(s[1..], rest);
      assert [s[0]] + s[1..] == s;
    }
  }

  lemma {:induction false} QuoteThenRest(s: string, rest: string)
    ensures QuoteThen(s, "") + rest == QuoteThen(s, rest)
  {
    if s == "" {
      assert "\"" + "" == "\"";
    } else {
      QuoteThenRest(s[1..], rest);
      assert EscapeChar(s[0]) + QuoteThen(s[1..], "") + rest == EscapeChar(s[0]) + (QuoteThen(s[1..], "") + rest);
    }
  }

  lemma {:induction false} DigitsRead(m: nat, t: string)
    requires m <= -INT64_MIN
    ensures Digits(Decimal(m) + t, 0) == Digits(t, ToInt64(m))
  {
    if m < 10 {
      assert (Decimal(m) + t)[1..] == t;
    } else {
      var d := [Digit(m % 10)] + t;
      assert Decimal(m) + t == Decimal(m / 10) + d;
      DigitsRead(m / 10, d);
      assert d[1..] == t;
    }
  }

  lemma DigitsEnd(rest: string, acc: int64)
    requires Ends(rest)
    ensures Digits(rest, acc) == Parsed(acc, rest)
  {
  }

  lemma NaturalRead(m: nat, rest: string)
    requires m <= -INT64_MIN && Ends(rest)
    ensures var t := Decimal(m) + rest; Digits(t, 0) == Parsed(ToInt64(m), rest) && t != "" && IsDigit(t[0])
  {
    hide Digits, Decimal, ToInt64;
    DigitsRead(m, rest);
    DigitsEnd(rest, ToInt64(m));
    assert (Decimal(m) + rest)[0] == Decimal(m)[0];
  }

  lemma NumberRead(n: int64, rest: string)
    requires Ends(rest)
    ensures Number(DecimalInt(n) + rest) == Parsed(n, rest)
    ensures StartsNumber(DecimalInt(n) + rest)
  {
    hide Digits, Decimal;
    var i: int := n;
    NaturalRead(if i < 0 then -i else i, rest);
    if i < 0 {
      var t := Decimal(-i) + rest;
      assert DecimalInt(n) + rest == "-" + t && ("-" + t)[1..] == t;
    }
  }

  /** An argument is read as what it shows, up to what follows it. */
  lemma ShownRead(text: string, o: Obj, rest: string)
    requires Shows(text, o) && Ends(rest)
    ensures !IsBlank(Cur(text + rest)) && LineObject(text + rest) == Parsed(o, rest)
  {
    hide Word, Quoted, Number, QuoteThen, Quotable, DecimalInt, Decimal, StartsNumber;
    match o
    case Str(s) =>
      if IsWord(s) && text == s {
        WordRead(s, rest);
        assert (s + rest)[0] == s[0];
      } else {
        QuoteThenRest(s, rest);
        QuotedRoundTrip(s, rest);
        assert text + rest == "\"" + QuoteThen(s, rest);
        assert ("\"" + QuoteThen(s, rest))[1..] == QuoteThen(s, rest);
      }
    case Int(n) =>
      NumberRead(n, rest);
      NumberStarts(n, rest);
    case _ =>
  }

  lemma NumberStarts(n: int64, rest: string)
    ensures var c := Cur(DecimalInt(n) + rest); c == '-' || IsDigit(c)
  {
    var i: int := n;
    if i < 0 {
      assert (DecimalInt(n) + rest)[0] == '-';
    } else {
      assert (Decimal(i) + rest)[0] == Decimal(i)[0];
    }
  }

  lemma PartRead(p: Part, o: Obj, rest: string)
    requires Argument(p, o) && Ends(rest)
    ensures LineObject(p.gap + (p.text + rest)) == Parsed(o, rest)
    ensures LineObject(SkipBlank(p.gap + (p.text + rest))) == Parsed(o, rest)
    ensures Ends(p.gap + (p.text + rest))
  {
    hide Word, Quoted, Number, Shows, StartsNumber;
    var r := p.text + rest;
    ShownRead(p.text, o, rest);
    BlanksBefore(p.gap, r);
    BlanksBefore("", r);
    assert "" + r == r;
  }

  lemma NameWord(name: string, c: Cmd)
    requires Names(name, c)
    ensures IsWord(name)
  {
  }

  lemma NameFound(name: string, c: Cmd)
    requires Names(name, c)
    ensures LookupLine(name) == TypeOf(c)
  {
  }

  lemma FirstWord(lead: string, name: string, c: Cmd, after: string)
    requires AllBlank(lead) && Names(name, c) && Ends(after)
    ensures Word(SkipBlank(lead + (name + after))) == Parsed(name, after) && LookupLine(name) == TypeOf(c)
  {
    hide Names, LookupLine, TypeOf, Word;
    NameWord(name, c);
    NameFound(name, c);
    assert (name + after)[0] == name[0];
    BlanksBefore(lead, name + after);
    WordRead(name, after);
  }

  /** A line stands for the command it names, with the arguments it shows, whatever
      blanks are between them and whatever stands behind a space after them. */
  lemma TypedIs(c: Cmd, lead: string, name: string, parts: seq<Part>, rest: string)
    requires AllBlank(lead) && Names(name, c) && Arguments(parts, c) && Ends(rest)
    ensures LineCmd(lead + (name + Glued(parts, rest))) == c
  {
    hide Names, LookupLine, Word, SkipBlank, LineObject, Argument;
    if parts == [] {
      BareTyped(c, lead, name, rest);
    } else if |parts| == 1 {
      assert parts[1..] == [];
      OneTyped(c, lead, name, parts[0], rest);
    } else {
      var p, q := parts[0], parts[1];
      assert parts == [p, q] && parts[1..] == [q] && [q][1..] == [];
      assert Glued([q], rest) == q.gap + (q.text + rest);
      TwoTyped(c, lead, name, parts[0], parts[1], rest);
    }
  }

  lemma BareTyped(c: Cmd, lead: string, name: string, rest: string)
    requires AllBlank(lead) && Names(name, c) && Arguments([], c) && Ends(rest)
    ensures LineCmd(lead + (name + rest)) == c
  {
    hide LookupLine, Word, SkipBlank, LineObject, Argument;
    FirstWord(lead, name, c, rest);
  }

  lemma OneTyped(c: Cmd, lead: string, name: string, p: Part, rest: string)
    requires AllBlank(lead) && Names(name, c) && Arguments([p], c) && Ends(rest) && !c.Set?
    ensures LineCmd(lead + (name + (p.gap + (p.text + rest)))) == c
  {
    hide Names, LookupLine, Word, SkipBlank, LineObject, Argument;
    var o := match c
      case Select(n) => Int(n)
      case Get(k) => k
      case Del(k) => k
      case Push(v) => v
      case Enque(v) => v
      case ZSet(v) => v
      case ZHas(v) => v
      case ZDel(v) => v
      case _ => Null;
    if TakesOne(TypeOf(c)) {
      PartRead(p, o, rest);
      FirstWord(lead, name, c, p.gap + (p.text + rest));
    }
  }

  lemma TwoTyped(c: Cmd, lead: string, name: string, p: Part, q: Part, rest: string)
    requires AllBlank(lead) && Names(name, c) && Arguments([p, q], c) && Ends(rest)
    ensures LineCmd(lead + (name + (p.gap + (p.text + (q.gap + (q.text + rest)))))) == c
  {
    hide Names, LookupLine, Word, SkipBlank, LineObject, Argument;
    PartRead(q, c.value, rest);
    PartRead(p, c.key, q.gap + (q.text + rest));
    FirstWord(lead, name, c, p.gap + (p.text + (q.gap + (q.text + rest))));
  }

  lemma GetTyped()
    ensures LineCmd("get a") == Get(Str("a"))
  {
    hide LineCmd, QuoteThen, Quotable, Decimal;
    var a := Part(" ", "a");
    TypedIs(Get(Str("a")), "", "get", [a], "");
    assert [a][1..] == [];
    assert "" + ("get" + Glued([a], "")) == "get a";
  }

  lemma SetTyped()
    ensures LineCmd("\tSET \"a b\"  -5 ") == Set(Str("a b"), Int(-5))
  {
    hide LineCmd, Glued, Arguments, Names;
    SetNamed();
    SetGlued();
    TypedIs(Set(Str("a b"), Int(-5)), "\t", "SET", [Part(" ", "\"a b\""), Part("  ", "-5")], " ");
  }

  lemma SetNamed()
    ensures Names("SET", Set(Str("a b"), Int(-5)))
    ensures Arguments([Part(" ", "\"a b\""), Part("  ", "-5")], Set(Str("a b"), Int(-5)))
  {
    hide QuoteThen, Quotable;
    QuotedAb();
    assert Decimal(5) == "5";
  }

  lemma SetGlued()
    ensures "\t" + ("SET" + Glued([Part(" ", "\"a b\""), Part("  ", "-5")], " ")) == "\tSET \"a b\"  -5 "
  {
    var p, q := Part(" ", "\"a b\""), Part("  ", "-5");
    assert [p, q][1..] == [q] && [q][1..] == [];
    assert Glued([q], " ") == "  -5 ";
    assert Glued([p, q], " ") == " \"a b\"  -5 ";
  }

  lemma QuotedAb()
    ensures Quotable("a b") && "\"" + QuoteThen("a b", "") == "\"a b\""
  {
  }

  /** The four escapes. */
  lemma EscapesRead()
    ensures Quoted("\\n\\r\\t\\\"\"") == Parsed("\n\r\t\"", "")
  {
    hide Quoted, QuoteThen, Quotable;
    EscapesQuotable();
    EscapesWritten();
    QuotedRoundTrip("\n\r\t\"", "");
  }

  lemma EscapesQuotable()
    ensures Quotable("\n\r\t\"")
  {
    var s := "\n\r\t\"";
    assert Quotable(s[4..]) && Quotable(s[3..]) && Quotable(s[2..]) && Quotable(s[1..]);
  }

  lemma EscapesWritten()
    ensures QuoteThen("\n\r\t\"", "") == "\\n\\r\\t\\\"\""
  {
    var s := "\n\r\t\"";
    assert s[1..] == "\r\t\"" && "\r\t\""[1..] == "\t\"" && "\t\""[1..] == "\"" && "\""[1..] == "";
    assert QuoteThen("", "") == "\"";
    assert QuoteThen("\"", "") == "\\\"\"";
    assert QuoteThen("\t\"", "") == "\\t\\\"\"";
    assert QuoteThen("\r\t\"", "") == "\\r\\t\\\"\"";
  }

  /** The words that name a command; AUTH is none. */
  predicate IsName(s: string) {
    s in ["set", "SET", "get", "GET", "del", "DEL", "pop", "POP", "ping", "PING", "info", "INFO", "help", "HELP",
          "keys", "KEYS", "push", "PUSH", "zset", "ZSET", "zhas", "ZHAS", "zdel", "ZDEL", "enque", "ENQUE",
          "deque", "DEQUE", "select", "SELECT"]
  }

  lemma UnknownTyped(s: string)
    requires !IsName(s)
    ensures LookupLine(s) == IllegalType
  {
  }

  // ----------------------------------------------------------------- mistyping

  lemma SkipToNothing(b: string)
    requires AllBlank(b)
    ensures SkipBlank(b) == ""
  {
    Blanks(b, "");
    assert b + "" == b;
  }

  /** A name with nothing behind it: what is missing is null, and SELECT is no command. */
  lemma ArgumentMissing(c: Cmd, lead: string, name: string, b: string)
    requires AllBlank(lead) && Names(name, c) && (b == "" || Gap(b))
    ensures LineCmd(lead + (name + b)) == match c
      case Set(_, _) => Set(Null, Null)
      case Get(_) => Get(Null)
      case Del(_) => Del(Null)
      case Push(_) => Push(Null)
      case Enque(_) => Enque(Null)
      case ZSet(_) => ZSet(Null)
      case ZHas(_) => ZHas(Null)
      case ZDel(_) => ZDel(Null)
      case Select(_) => Illegal
      case _ => c
  {
    hide LookupLine, Word, SkipBlank, LineObject;
    FirstWord(lead, name, c, b);
    SkipToNothing(b);
    NothingRead("", "");
    assert "" + "" == "";
  }

  /** SELECT takes a number. */
  lemma SelectText(lead: string, name: string, p: Part, s: string, rest: string)
    requires AllBlank(lead) && (name == "select" || name == "SELECT") && Argument(p, Str(s)) && Ends(rest)
    ensures LineCmd(lead + (name + (p.gap + (p.text + rest)))) == Illegal
  {
    hide LookupLine, Word, SkipBlank, LineObject, Argument;
    PartRead(p, Str(s), rest);
    FirstWord(lead, name, Select(0), p.gap + (p.text + rest));
  }

  /** What is no name is no command, whatever follows it. */
  lemma UnknownLine(lead: string, word: string, rest: string)
    requires AllBlank(lead) && Ends(rest) && !IsBlank(Cur(word + rest))
    requires forall i :: 0 <= i < |word| ==> word[i] != ' ' && word[i] != '\0'
    requires !IsName(word)
    ensures LineCmd(lead + (word + rest)) == Illegal
  {
    hide Word, SkipBlank, LineObject, LookupLine, IsName;
    BlanksBefore(lead, word + rest);
    WordRead(word, rest);
    UnknownTyped(word);
  }

  /** Where no argument starts none is read. */
  lemma NothingRead(b: string, x: string)
    requires AllBlank(b)
    requires x == "" || !(IsBlank(x[0]) || IsLetter(x[0]) || '0' <= x[0] <= '9' || x[0] == '"' || x[0] == '-')
    ensures LineObject(b + x) == Parsed(Null, x)
  {
    BlanksBefore(b, x);
  }

  /** A quoted text may lack its closing quote. */
  lemma {:induction false} QuoteUnclosed(s: string)
    requires forall i :: 0 <= i < |s| ==> s[i] != '"' && s[i] != '\\' && s[i] != '\0'
    ensures Quoted(s) == Parsed(s, "")
  {
    if s != "" {
      QuoteUnclosed(s[1..]);
      assert [s[0]] + s[1..] == s;
    }
  }

  lemma Wraps(a: int, b: int)
    requires (a - b) % UINT64 == 0
    ensures ToInt64(a) == ToInt64(b)
  {
    assert a % UINT64 == b % UINT64;
  }

  lemma DigitWraps(v: int, c: int)
    ensures ToInt64((ToInt64(v) as int) * 10 + c) == ToInt64(10 * v + c)
  {
    var w: int := ToInt64(v);
    var k := (w - v) / UINT64;
    assert w - v == k * UINT64;
    assert (w * 10 + c) - (10 * v + c) == (10 * k) * UINT64;
    Turns(10 * k);
    Wraps(w * 10 + c, 10 * v + c);
  }

  lemma Turns(k: int)
    ensures (k * UINT64) % UINT64 == 0
  {
  }

  /** Any digits are their value as a 64-bit integer. */
  lemma {:induction false} DigitsValue(d: string, x: string)
    requires Grammar.Digits(d)
    ensures Digits(d + x, 0) == Digits(x, ToInt64(Grammar.Value(d)))
  {
    hide ToInt64;
    if d == "" {
      assert d + x == x;
      ZeroStays();
    } else {
      var n := |d| - 1;
      var y := [d[n]] + x;
      assert d + x == d[..n] + y;
      DigitsValue(d[..n], y);
      assert y[1..] == x;
      DigitWraps(Grammar.Value(d[..n]), DigitValue(d[n]));
    }
  }

  lemma ZeroStays()
    ensures ToInt64(0) == 0
  {
  }

  /** A number of any length, and its negative, are taken as 64-bit integers. */
  lemma LongNumber(b: string, d: string, x: string)
    requires AllBlank(b) && d != "" && Grammar.Digits(d) && Grammar.AfterDigits(x)
    ensures LineObject(b + (d + x)) == Parsed(Int(ToInt64(Grammar.Value(d))), x)
    ensures LineObject(b + ("-" + (d + x))) == Parsed(Int(ToInt64(-(Grammar.Value(d) as int))), x)
  {
    hide Digits, ToInt64, Word, Quoted, SkipBlank, Grammar.Value;
    var t := d + x;
    assert t[0] == d[0];
    assert ("-" + t)[1..] == t;
    BlanksBefore(b, t);
    BlanksBefore(b, "-" + t);
    DigitsValue(d, x);
    DigitsStop(x, ToInt64(Grammar.Value(d)));
    NegativeWraps(Grammar.Value(d));
  }

  lemma DigitsStop(x: string, acc: int64)
    requires Grammar.AfterDigits(x)
    ensures Digits(x, acc) == Parsed(acc, x)
  {
  }

  lemma NegativeWraps(v: int)
    ensures ToInt64(-(ToInt64(v) as int)) == ToInt64(-v)
  {
    var w: int := ToInt64(v);
    var k := (w - v) / UINT64;
    assert w - v == k * UINT64;
    Turns(-k);
    Wraps(-w, -v);
  }
}
