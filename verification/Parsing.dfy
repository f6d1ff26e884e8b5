/** The one-byte-lookahead cursor of parser.c, updated in place. Each method is
    proved to compute the function of the same name on the unread bytes. */
module Parsing {
  import opened Objects
  import opened Wire
  import opened Commands
  import opened Buckets
  import opened Keys
  import opened RequestKeys

  // One turn of each loop below, as facts about the functions they compute.

  lemma TakenStep(i: nat, r: string)
    ensures var p := Taken(i, r);
      Taken(i + 1, r) == Parsed(p.value + [Cur(p.rest)], Adv(p.rest))
  {
    if i < |r| {
      assert r[i..][1..] == r[i + 1..] && r[..i + 1] == r[..i] + [r[i]];
    } else {
      assert Taken(i + 1, r).value == Taken(i, r).value + ['\0'];
    }
  }

  lemma UntilStep(s: string, r: string)
    requires Cur(r) != CR && Cur(r) != '\0'
    ensures s + Until(r).value == s + [Cur(r)] + Until(Adv(r)).value
    ensures Until(r).rest == Until(Adv(r)).rest
  {
    assert s + ([Cur(r)] + Until(Adv(r)).value) == s + [Cur(r)] + Until(Adv(r)).value;
  }

  lemma ObjectsStep(conv: string -> int64, items: seq<Obj>, n: nat, r: string)
    requires n > 0
    ensures var o := ParseObject(conv, r); var others := ParseObjects(conv, n - 1, o.rest);
      items + ParseObjects(conv, n, r).value == items + [o.value] + others.value
      && ParseObjects(conv, n, r).rest == others.rest
  {
    var o := ParseObject(conv, r);
    var others := ParseObjects(conv, n - 1, o.rest);
    assert items + ([o.value] + others.value) == items + [o.value] + others.value;
  }

  lemma PairsStep(conv: string -> int64, pairs: seq<Pair>, n: nat, r: string)
    requires n > 0
    ensures var key := ParseObject(conv, r); var value := ParseObject(conv, key.rest);
      var others := ParsePairs(conv, n - 1, value.rest);
      pairs + ParsePairs(conv, n, r).value == pairs + [Pair(key.value, value.value)] + others.value
      && ParsePairs(conv, n, r).rest == others.rest
  {
    var key := ParseObject(conv, r);
    var value := ParseObject(conv, key.rest);
    var first := [Pair(key.value, value.value)];
    var others := ParsePairs(conv, n - 1, value.rest);
    assert pairs + (first + others.value) == pairs + first + others.value;
  }

  class Parser {
    const input: string
    const conv: string -> int64
    var pos: nat
    var ch: char
    /** The lookahead byte and everything after it; empty at the end of input. */
    ghost var unread: string

    ghost predicate Valid()
      reads this
    {
      Suffix(unread, input) && ch == Cur(unread) && |unread| <= |input| &&
      pos == if unread == "" then |input| else |input| - |unread| + 1
    }

    constructor (input: string, conv: string -> int64)
      ensures Valid() && this.input == input && this.conv == conv
      ensures unread == input
    {
      this.input := input;
      this.conv := conv;
      pos, ch, unread := 0, '\0', input;
      new;
      if pos < |input| {
        ch := input[pos];
        pos := pos + 1;
      }
    }

    method ReadChar()
      requires Valid()
      modifies this
      ensures Valid() && unread == Adv(old(unread)) && pos >= old(pos)
    {
      SuffixMeaning(unread, input);
      SuffixAdv(unread, input);
      unread := Adv(unread);
      if pos >= |input| {
        ch := '\0';
        return;
      }
      ch := input[pos];
      pos := pos + 1;
    }

    method PeekByte() returns (b: char)
      requires Valid()
      ensures b == Peek(unread)
    {
      SuffixMeaning(unread, input);
      if pos >= |input| {
        return '\0';
      }
      return input[pos];
    }

    method ExpectPeekByte(b: char) returns (ok: bool)
      requires Valid()
      modifies this
      ensures Valid() && pos >= old(pos)
      ensures ok == (Peek(old(unread)) == b)
      ensures unread == if ok then Adv(old(unread)) else old(unread)
    {
      var peek := PeekByte();
      ok := peek == b;
      if ok {
        ReadChar();
      }
    }

    method ReadLen() returns (len: nat)
      requires Valid()
      modifies this
      ensures Valid() && pos >= old(pos)
      ensures Parsed(len, unread) == ParseLen(old(unread), 0)
    {
      len := 0;
      while IsDigit(ch)
        invariant Valid() && pos >= old(pos)
        invariant ParseLen(unread, len) == ParseLen(old(unread), 0)
        decreases |unread|
      {
        len := (len * 10 + DigitValue(ch)) % UINT64;
        ReadChar();
      }
    }

    /** The steps `$`, `*` and `%` objects and array commands have in common. */
    method ReadHeader() returns (ok: bool, len: nat)
      requires Valid()
      modifies this
      ensures Valid() && pos >= old(pos)
      ensures Header(ok, len, unread) == ParseHeader(old(unread))
    {
      ok, len := false, 0;
      var peek := PeekByte();
      if !IsDigit(peek) {
        return;
      }
      ReadChar();
      var n := ReadLen();
      if ch != CR {
        return;
      }
      var atLf := ExpectPeekByte(LF);
      if !atLf {
        return;
      }
      ReadChar();
      ok, len := true, n;
    }

    method ReadString(len: nat) returns (s: string)
      requires Valid()
      modifies this
      ensures Valid() && pos >= old(pos)
      ensures Parsed(s, unread) == Taken(len, old(unread))
    {
      s := "";
      for i := 0 to len
        invariant Valid() && pos >= old(pos)
        invariant s == Taken(i, old(unread)).value && unread == Taken(i, old(unread)).rest
      {
        TakenStep(i, old(unread));
        s := s + [ch];
        ReadChar();
      }
    }

    /** The loop that collects a line, shared by texts, errors and integers. */
    method ReadUntil() returns (s: string)
      requires Valid()
      modifies this
      ensures Valid() && pos >= old(pos)
      ensures Parsed(s, unread) == Until(old(unread))
    {
      s := "";
      ghost var r0 := unread;
      while ch != CR && ch != '\0'
        invariant Valid() && pos >= old(pos)
        invariant Until(r0).value == s + Until(unread).value
        invariant Until(r0).rest == Until(unread).rest
        decreases |unread|
      {
        UntilStep(s, unread);
        s := s + [ch];
        ReadChar();
      }
      assert s + "" == s;
    }

    /** A line, and the bytes of an object that its text is put into. */
    method ReadLine() returns (s: string, bytes: Option<string>)
      requires Valid()
      modifies this
      ensures Valid() && pos >= old(pos)
      ensures Parsed(s, unread) == ParseLine(old(unread)) && bytes == LineBytes(old(unread))
    {
      ReadChar();
      var text := ReadUntil();
      if ch != CR {
        return "", HeldBytes(text, true);
      }
      var atLf := ExpectPeekByte(LF);
      if !atLf {
        return "", HeldBytes(text, true);
      }
      return text, HeldBytes(text, false);
    }

    method ReadClose(value: Obj) returns (o: Obj)
      requires Valid()
      modifies this
      ensures Valid() && pos >= old(pos)
      ensures Parsed(o, unread) == Close(value, old(unread))
    {
      if ch != CR {
        return Null;
      }
      var atLf := ExpectPeekByte(LF);
      if !atLf {
        return Null;
      }
      ReadChar();
      return value;
    }

    method ReadBool() returns (o: Obj)
      requires Valid()
      modifies this
      ensures Valid() && pos >= old(pos)
      ensures Parsed(o, unread) == ParseBool(old(unread))
    {
      ReadChar();
      if ch != 't' && ch != 'f' {
        return Null;
      }
      var value := if ch == 't' then 1 else 0;
      var atCr := ExpectPeekByte(CR);
      if !atCr {
        return Null;
      }
      var atLf := ExpectPeekByte(LF);
      if !atLf {
        return Null;
      }
      ReadChar();
      return Bool(value);
    }

    method ReadText() returns (o: Obj)
      requires Valid() && ch == '$'
      modifies this
      ensures Valid() && pos >= old(pos)
      ensures Parsed(o, unread) == ParseObject(conv, old(unread))
    {
      var ok, len := ReadHeader();
      if !ok {
        return Null;
      }
      var s := ReadString(len);
      o := ReadClose(Str(s));
    }

    method ReadItems(n: nat) returns (items: seq<Obj>)
      requires Valid()
      modifies this
      ensures Valid() && pos >= old(pos)
      ensures Parsed(items, unread) == ParseObjects(conv, n, old(unread))
      decreases |unread|, 1
    {
      items := [];
      ghost var r0 := unread;
      for i := 0 to n
        invariant Valid() && pos >= old(pos) && |unread| <= |r0|
        invariant ParseObjects(conv, n, r0).value == items + ParseObjects(conv, n - i, unread).value
        invariant ParseObjects(conv, n, r0).rest == ParseObjects(conv, n - i, unread).rest
      {
        ObjectsStep(conv, items, n - i, unread);
        var o, _ := ReadObject();
        items := items + [o];
      }
      assert items + [] == items;
    }

    method ReadPair() returns (p: Pair)
      requires Valid()
      modifies this
      ensures Valid() && pos >= old(pos)
      ensures var key := ParseObject(conv, old(unread)); var value := ParseObject(conv, key.rest);
        p == Pair(key.value, value.value) && unread == value.rest
      decreases |unread|, 1
    {
      var key, _ := ReadObject();
      var value, _ := ReadObject();
      p := Pair(key, value);
    }

    method ReadPairs(n: nat) returns (pairs: seq<Pair>)
      requires Valid()
      modifies this
      ensures Valid() && pos >= old(pos)
      ensures Parsed(pairs, unread) == ParsePairs(conv, n, old(unread))
      decreases |unread|, 2
    {
      pairs := [];
      ghost var r0 := unread;
      for i := 0 to n
        invariant Valid() && pos >= old(pos) && |unread| <= |r0|
        invariant ParsePairs(conv, n, r0).value == pairs + ParsePairs(conv, n - i, unread).value
        invariant ParsePairs(conv, n, r0).rest == ParsePairs(conv, n - i, unread).rest
      {
        PairsStep(conv, pairs, n - i, unread);
        var p := ReadPair();
        pairs := pairs + [p];
      }
      assert pairs + [] == pairs;
    }

    /** Reads one object and the bytes it consists of, in place of the recursion of
        `parse_object`. It ends on every input: each recursive call has fewer unread
        bytes. */
    method ReadObject() returns (o: Obj, bytes: Option<string>)
      requires Valid()
      modifies this
      ensures Valid() && pos >= old(pos)
      ensures Parsed(o, unread) == ParseObject(conv, old(unread)) && bytes == ReadBytes(conv, old(unread))
      decreases |unread|, 0
    {
      match ch {
        case '$' => o := ReadText();
        case ':' =>
          ReadChar();
          var s := ReadUntil();
          o := ReadClose(Int(conv(s)));
        case '#' => o := ReadBool();
        case '+' =>
          var s, held := ReadLine();
          ReadChar();
          return Str(s), held;
        case '-' =>
          var s, held := ReadLine();
          ReadChar();
          return Str(s), held;
        case '*' =>
          var ok, len := ReadHeader();
          if !ok {
            return Null, ValueBytes(Null);
          }
          var items := ReadItems(len);
          o := Array(items);
        case '%' =>
          var ok, len := ReadHeader();
          if !ok {
            return Null, ValueBytes(Null);
          }
          var pairs := ReadPairs(len);
          o := Table(pairs);
        case _ => o := Null;
      }
      bytes := ValueBytes(o);
    }

    method ReadSimpleType() returns (t: CmdType)
      requires Valid()
      modifies this
      ensures Valid() && pos >= old(pos)
      ensures Parsed(t, unread) == ParseSimpleType(old(unread))
    {
      var s, _ := ReadLine();
      ReadChar();
      t := Lookup(s);
    }

    method ReadCmdType() returns (t: CmdType)
      requires Valid()
      modifies this
      ensures Valid() && pos >= old(pos)
      ensures Parsed(t, unread) == ParseCmdType(conv, old(unread))
    {
      match ch
      case '$' =>
        var o, _ := ReadObject();
        t := if o.Str? then Lookup(o.text) else IllegalType;
      case '+' => t := ReadSimpleType();
      case _ => t := IllegalType;
    }

    /** The arguments, and the bytes of the one that is a key. */
    method ReadArgs(len: nat, t: CmdType) returns (c: Cmd, bytes: Option<string>)
      requires Valid()
      modifies this
      ensures Valid() && pos >= old(pos)
      ensures c == ParseArgs(conv, len, t, old(unread))
      ensures KeyOf(c).Some? ==> bytes == ReadBytes(conv, old(unread))
    {
      bytes := None;
      if t == HelpType {
        var topic := ReadCmdType();
        return if topic == IllegalType then Illegal else Help(topic), bytes;
      }
      if TakesTwo(t) && len == 3 {
        var a;
        a, bytes := ReadObject();
        if a == Null {
          return Illegal, bytes;
        }
        var b, _ := ReadObject();
        return WithTwo(t, a, b), bytes;
      }
      if TakesOne(t) && len == 2 {
        var o;
        o, bytes := ReadObject();
        return WithOne(t, o), bytes;
      }
      return Illegal, bytes;
    }

    method ReadArrayCmd() returns (c: Cmd, bytes: Option<string>)
      requires Valid() && ch == '*'
      modifies this
      ensures Valid() && pos >= old(pos)
      ensures c == ParseArrayCmd(conv, old(unread))
      ensures KeyOf(c).Some? ==> bytes == ReadBytes(conv, KeyPlace(conv, old(unread)))
    {
      hide ParseObject, ReadBytes, ParseArgs, ParseCmdType, ParseHeader;
      var ok, len := ReadHeader();
      if !ok || len == 0 {
        return Illegal, None;
      }
      var t := ReadCmdType();
      c, bytes := ReadArgs(len, t);
    }

    /** A command, and the bytes of its key. */
    method ReadCmd() returns (c: Cmd, bytes: Option<string>)
      requires Valid()
      modifies this
      ensures Valid() && pos >= old(pos)
      ensures c == ParseCmd(conv, old(unread)) && bytes == KeyBytes(conv, old(unread))
    {
      hide ParseObject, ReadBytes, ParseArrayCmd, ParseSimpleType, ParseCmdType;
      bytes := Some(Image(Null));
      match ch {
        case '*' => c, bytes := ReadArrayCmd();
        case '+' =>
          var t := ReadSimpleType();
          c := Bare(t);
        case '$' =>
          var t := ReadCmdType();
          c := Bare(t);
        case _ => c := Illegal;
      }
      if KeyOf(c).None? {
        bytes := Some("");
      }
    }
  }

  /** `parse`: the command in a buffer, and the bytes of its key. */
  method ParseCommand(input: string, conv: string -> int64) returns (c: Cmd, bytes: Option<string>)
    ensures c == ParseCmd(conv, input) && bytes == KeyBytes(conv, input)
  {
    var p := new Parser(input, conv);
    c, bytes := p.ReadCmd();
  }

  /** `parse_from_server`: the reply in a buffer. */
  method ParseReply(input: string, conv: string -> int64) returns (o: Obj)
    ensures o == ParseObject(conv, input).value
  {
    var p := new Parser(input, conv);
    var bytes;
    o, bytes := p.ReadObject();
  }
}
