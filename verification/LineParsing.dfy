/** The cursor of line_parser.c, updated in place, proved against the functions
    of module Line. */
module LineParsing {
  import opened Objects
  import opened Wire
  import opened Commands
  import opened Line

  // One turn of each collecting loop, as a fact about the function it computes.

  lemma WordStep(s: string, r: string)
    requires Cur(r) != ' ' && Cur(r) != '\0'
    ensures s + Word(r).value == s + [Cur(r)] + Word(Adv(r)).value
    ensures Word(r).rest == Word(Adv(r)).rest
  {
    assert s + ([Cur(r)] + Word(Adv(r)).value) == s + [Cur(r)] + Word(Adv(r)).value;
  }

  lemma QuotedStep(s: string, r: string)
    requires Cur(r) != '"' && Cur(r) != '\0'
    ensures Cur(r) == '\\' && Unescaped(Peek(r)) != "" ==>
      s + Quoted(r).value == s + Unescaped(Peek(r)) + Quoted(Adv(Adv(r))).value
      && Quoted(r).rest == Quoted(Adv(Adv(r))).rest
    ensures !(Cur(r) == '\\' && Unescaped(Peek(r)) != "") ==>
      s + Quoted(r).value == s + [Cur(r)] + Quoted(Adv(r)).value
      && Quoted(r).rest == Quoted(Adv(r)).rest
  {
    var first := if Cur(r) == '\\' && Unescaped(Peek(r)) != "" then Unescaped(Peek(r)) else [Cur(r)];
    var others := if Cur(r) == '\\' && Unescaped(Peek(r)) != "" then Quoted(Adv(Adv(r))) else Quoted(Adv(r));
    assert s + (first + others.value) == s + first + others.value;
  }

  class LineParser {
    const line: string
    var pos: nat
    var ch: char
    /** The lookahead character and everything after it. */
    ghost var unread: string

    ghost predicate Valid()
      reads this
    {
      Suffix(unread, line) && ch == Cur(unread) && |unread| <= |line| &&
      pos == if unread == "" then |line| else |line| - |unread| + 1
    }

    constructor (line: string)
      ensures Valid() && this.line == line && unread == line
    {
      this.line := line;
      pos, ch, unread := 0, '\0', line;
      new;
      if pos < |line| {
        ch := line[pos];
        pos := pos + 1;
      }
    }

    method ReadChar()
      requires Valid()
      modifies this
      ensures Valid() && unread == Adv(old(unread))
    {
      SuffixMeaning(unread, line);
      SuffixAdv(unread, line);
      unread := Adv(unread);
      if pos >= |line| {
        ch := '\0';
        return;
      }
      ch := line[pos];
      pos := pos + 1;
    }

    method PeekChar() returns (c: char)
      requires Valid()
      ensures c == Peek(unread)
    {
      SuffixMeaning(unread, line);
      if pos >= |line| {
        return '\0';
      }
      return line[pos];
    }

    method SkipWhitespace()
      requires Valid()
      modifies this
      ensures Valid() && unread == SkipBlank(old(unread))
    {
      while ch == ' ' || ch == '\t'
        invariant Valid() && SkipBlank(unread) == SkipBlank(old(unread))
        decreases |unread|
      {
        ReadChar();
      }
    }

    /** The loop of `parse_cmd_type` and of `parse_string`. */
    method ReadWord() returns (s: string)
      requires Valid()
      modifies this
      ensures Valid() && Parsed(s, unread) == Word(old(unread))
    {
      s := "";
      ghost var r0 := unread;
      while ch != ' ' && ch != '\0'
        invariant Valid()
        invariant Word(r0).value == s + Word(unread).value && Word(r0).rest == Word(unread).rest
        decreases |unread|
      {
        WordStep(s, unread);
        s := s + [ch];
        ReadChar();
      }
      assert s + "" == s;
    }

    method ReadQuoted() returns (s: string)
      requires Valid()
      modifies this
      ensures Valid() && Parsed(s, unread) == Quoted(Adv(old(unread)))
    {
      s := "";
      ReadChar();
      ghost var r0 := unread;
      while ch != '"' && ch != '\0'
        invariant Valid()
        invariant Quoted(r0).value == s + Quoted(unread).value && Quoted(r0).rest == Quoted(unread).rest
        decreases |unread|
      {
        QuotedStep(s, unread);
        if ch == '\\' {
          var peek := PeekChar();
          var e := Unescaped(peek);
          if e != "" {
            s := s + e;
            ReadChar();
          } else {
            s := s + "\\";
          }
          ReadChar();
          continue;
        }
        s := s + [ch];
        ReadChar();
      }
      assert s + "" == s;
      ReadChar();
    }

    method ReadNumber() returns (num: int64)
      requires Valid()
      modifies this
      ensures Valid() && Parsed(num, unread) == Number(old(unread))
    {
      num := 0;
      var isNegative := ch == '-';
      if isNegative {
        ReadChar();
      }
      ghost var r0 := unread;
      while IsDigit(ch)
        invariant Valid() && Digits(unread, num) == Digits(r0, 0)
        decreases |unread|
      {
        num := ToInt64(num * 10 + DigitValue(ch));
        ReadChar();
      }
      if isNegative {
        var n: int := num;
        num := ToInt64(-n);
      }
    }

    method IsStartOfNumber() returns (b: bool)
      requires Valid()
      ensures b == StartsNumber(unread)
    {
      if IsDigit(ch) {
        return true;
      }
      if ch == '-' {
        var peek := PeekChar();
        return IsDigit(peek);
      }
      return false;
    }

    method ReadArgument() returns (o: Obj)
      requires Valid()
      modifies this
      ensures Valid() && Parsed(o, unread) == LineObject(old(unread))
    {
      SkipWhitespace();
      if IsLetter(ch) {
        var s := ReadWord();
        return Str(s);
      }
      if ch == '"' {
        var s := ReadQuoted();
        return Str(s);
      }
      var isNumber := IsStartOfNumber();
      if isNumber {
        var num := ReadNumber();
        return Int(num);
      }
      return Null;
    }

    method ReadCommand() returns (c: Cmd)
      requires Valid() && unread == line
      modifies this
      ensures c == LineCmd(line)
    {
      SkipWhitespace();
      var word := ReadWord();
      var t := LookupLine(word);
      SkipWhitespace();
      c := Illegal;
      if t == PingType || t == InfoType || t == HelpType || t == KeysType || t == PopType || t == DequeType {
        c := Bare(t);
      } else if t != IllegalType {
        var first := ReadArgument();
        match t
        case SetType =>
          var second := ReadArgument();
          c := Set(first, second);
        case GetType => c := Get(first);
        case DelType => c := Del(first);
        case PushType => c := Push(first);
        case EnqueType => c := Enque(first);
        case ZSetType => c := ZSet(first);
        case ZHasType => c := ZHas(first);
        case ZDelType => c := ZDel(first);
        case SelectType =>
          if first.Int? {
            c := Select(first.num);
          }
        case _ =>
      }
    }
  }

  /** `parse_line`: the command a typed line stands for. */
  method ParseLineCommand(line: string) returns (c: Cmd)
    ensures c == LineCmd(line)
  {
    var p := new LineParser(line);
    c := p.ReadCommand();
  }
}
