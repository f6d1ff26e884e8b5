/** The encoder of builder.c: each method appends one construct to a buffer and
    stops at the first push the buffer refuses. */
module Builder {
  import opened Objects
  import opened Wire
  import opened Vstrs

  /** `res` and the new contents after appending `enc` piece by piece: all of it
      and 0 if it fits, otherwise -1 and some part of it at most. */
  ghost predicate Appended(before: string, after: string, enc: string, res: int) {
    (res == 0 || res == -1)
    && (res == 0 <==> |before| + |enc| <= MAX_TEXT)
    && (res == 0 ==> after == before + enc)
    && before <= after
    && |after| <= MAX_TEXT
  }

  lemma AppendedThen(a: string, b: string, c: string, e1: string, e2: string, res: int)
    requires Appended(a, b, e1, 0) && Appended(b, c, e2, res)
    ensures Appended(a, c, e1 + e2, res)
  {
    assert a + (e1 + e2) == (a + e1) + e2;
  }

  lemma AppendedStop(a: string, b: string, e1: string, e2: string)
    requires Appended(a, b, e1, -1)
    ensures Appended(a, b, e1 + e2, -1)
  {
  }

  method AddEnd(b: Vstr) returns (res: int)
    requires b.Valid()
    modifies b, b.small, b.data
    ensures b.Valid() && (b.data == old(b.data) || fresh(b.data))
    ensures Appended(old(b.Contents()), b.Contents(), CRLF, res)
  {
    ghost var c0 := b.Contents();
    res := b.PushChar(CR);
    ghost var c1 := b.Contents();
    if res == -1 {
      AppendedStop(c0, c1, [CR], [LF]);
      return;
    }
    res := b.PushChar(LF);
    AppendedThen(c0, c1, b.Contents(), [CR], [LF], res);
  }

  method AddSimple(b: Vstr, name: string) returns (res: int)
    requires b.Valid()
    modifies b, b.small, b.data
    ensures b.Valid() && (b.data == old(b.data) || fresh(b.data))
    ensures Appended(old(b.Contents()), b.Contents(), EncodeSimple(name), res)
  {
    res := b.PushString(EncodeSimple(name));
  }

  /** A type byte, a text and a line end. */
  method AddLine(b: Vstr, tag: char, text: string) returns (res: int)
    requires b.Valid()
    modifies b, b.small, b.data
    ensures b.Valid() && (b.data == old(b.data) || fresh(b.data))
    ensures Appended(old(b.Contents()), b.Contents(), [tag] + text + CRLF, res)
  {
    ghost var c0 := b.Contents();
    res := b.PushChar(tag);
    ghost var c1 := b.Contents();
    if res == -1 {
      AppendedStop(c0, c1, [tag], text);
      AppendedStop(c0, c1, [tag] + text, CRLF);
      return;
    }
    res := b.PushString(text);
    ghost var c2 := b.Contents();
    AppendedThen(c0, c1, c2, [tag], text, res);
    if res == -1 {
      AppendedStop(c0, c2, [tag] + text, CRLF);
      return;
    }
    res := AddEnd(b);
    AppendedThen(c0, c2, b.Contents(), [tag] + text, CRLF, res);
  }

  method AddArray(b: Vstr, n: nat) returns (res: int)
    requires b.Valid()
    modifies b, b.small, b.data
    ensures b.Valid() && (b.data == old(b.data) || fresh(b.data))
    ensures Appended(old(b.Contents()), b.Contents(), EncodeCount('*', n), res)
  {
    res := AddLine(b, '*', Decimal(n));
  }

  method AddHt(b: Vstr, n: nat) returns (res: int)
    requires b.Valid()
    modifies b, b.small, b.data
    ensures b.Valid() && (b.data == old(b.data) || fresh(b.data))
    ensures Appended(old(b.Contents()), b.Contents(), EncodeCount('%', n), res)
  {
    res := AddLine(b, '%', Decimal(n));
  }

  method AddErr(b: Vstr, text: string) returns (res: int)
    requires b.Valid()
    modifies b, b.small, b.data
    ensures b.Valid() && (b.data == old(b.data) || fresh(b.data))
    ensures Appended(old(b.Contents()), b.Contents(), EncodeError(text), res)
  {
    res := AddLine(b, '-', text);
  }

  method AddInt(b: Vstr, n: int64) returns (res: int)
    requires b.Valid()
    modifies b, b.small, b.data
    ensures b.Valid() && (b.data == old(b.data) || fresh(b.data))
    ensures Appended(old(b.Contents()), b.Contents(), EncodeInt(n), res)
  {
    res := AddLine(b, ':', DecimalInt(n));
  }

  method AddBoolean(b: Vstr, boolean: int) returns (res: int)
    requires b.Valid()
    modifies b, b.small, b.data
    ensures b.Valid() && (b.data == old(b.data) || fresh(b.data))
    ensures Appended(old(b.Contents()), b.Contents(), Encode(Bool(boolean)), res)
  {
    var letter := if boolean != 0 then "t" else "f";
    res := AddLine(b, '#', letter);
    assert ['#'] + letter == if boolean != 0 then "#t" else "#f";
  }

  method AddString(b: Vstr, text: string) returns (res: int)
    requires b.Valid()
    modifies b, b.small, b.data
    ensures b.Valid() && (b.data == old(b.data) || fresh(b.data))
    ensures Appended(old(b.Contents()), b.Contents(), EncodeText(text), res)
  {
    ghost var c0 := b.Contents();
    res := AddLine(b, '$', Decimal(|text|));
    ghost var c1 := b.Contents();
    if res == -1 {
      AppendedStop(c0, c1, EncodeCount('$', |text|), text);
      AppendedStop(c0, c1, EncodeCount('$', |text|) + text, CRLF);
      return;
    }
    res := b.PushString(text);
    ghost var c2 := b.Contents();
    AppendedThen(c0, c1, c2, EncodeCount('$', |text|), text, res);
    if res == -1 {
      AppendedStop(c0, c2, EncodeCount('$', |text|) + text, CRLF);
      return;
    }
    res := AddEnd(b);
    AppendedThen(c0, c2, b.Contents(), EncodeCount('$', |text|) + text, CRLF, res);
  }

  lemma EncodeAllPrefix(items: seq<Obj>, i: nat)
    requires i < |items|
    ensures EncodeAll(items[..i + 1]) == EncodeAll(items[..i]) + Encode(items[i])
  {
    var last := [items[i]];
    EncodeAllConcat(items[..i], last);
    assert items[..i + 1] == items[..i] + last;
    assert EncodeAll(last) == Encode(items[i]) + EncodeAll([]);
    assert Encode(items[i]) + "" == Encode(items[i]);
  }

  method AddItems(b: Vstr, items: seq<Obj>) returns (res: int)
    requires b.Valid() && EncodableAll(items)
    modifies b, b.small, b.data
    ensures b.Valid() && (b.data == old(b.data) || fresh(b.data))
    ensures Appended(old(b.Contents()), b.Contents(), EncodeAll(items), res)
    decreases items, 0
  {
    ghost var c0 := b.Contents();
    res := 0;
    for i := 0 to |items|
      invariant b.Valid() && (b.data == old(b.data) || fresh(b.data))
      invariant EncodableAll(items[i..])
      invariant res == 0 && Appended(c0, b.Contents(), EncodeAll(items[..i]), 0)
    {
      ghost var c1 := b.Contents();
      assert items[i..][1..] == items[i + 1..];
      EncodeAllPrefix(items, i);
      res := AddObject(b, items[i]);
      if res == -1 {
        AppendedRest(c0, c1, b.Contents(), items, i);
        return;
      }
      AppendedThen(c0, c1, b.Contents(), EncodeAll(items[..i]), Encode(items[i]), 0);
    }
    assert items[..|items|] == items;
  }

  /** Once one item is refused the whole array does not fit. */
  lemma AppendedRest(c0: string, c1: string, c2: string, items: seq<Obj>, i: nat)
    requires i < |items|
    requires Appended(c0, c1, EncodeAll(items[..i]), 0) && Appended(c1, c2, Encode(items[i]), -1)
    ensures Appended(c0, c2, EncodeAll(items), -1)
  {
    hide *;
    var upTo, after := items[..i + 1], items[i + 1..];
    AppendedThen(c0, c1, c2, EncodeAll(items[..i]), Encode(items[i]), -1);
    EncodeAllPrefix(items, i);
    EncodeAllConcat(upTo, after);
    assert upTo + after == items;
    AppendedStop(c0, c2, EncodeAll(upTo), EncodeAll(after));
  }

  /** `builder_add_object`: appends exactly the encoding, or reports that it does
      not fit. */
  method AddObject(b: Vstr, o: Obj) returns (res: int)
    requires b.Valid() && Encodable(o)
    modifies b, b.small, b.data
    ensures b.Valid() && (b.data == old(b.data) || fresh(b.data))
    ensures Appended(old(b.Contents()), b.Contents(), Encode(o), res)
    decreases o, 1
  {
    match o
    case Null => res := AddSimple(b, "NONE");
    case Int(n) => res := AddInt(b, n);
    case Bool(v) => res := AddBoolean(b, v);
    case Str(s) => res := AddString(b, s);
    case Array(items) =>
      ghost var c0 := b.Contents();
      res := AddArray(b, |items|);
      ghost var c1 := b.Contents();
      if res == -1 {
        AppendedStop(c0, c1, EncodeCount('*', |items|), EncodeAll(items));
        return;
      }
      res := AddItems(b, items);
      AppendedThen(c0, c1, b.Contents(), EncodeCount('*', |items|), EncodeAll(items), res);
    case Table(pairs) => res := AddHt(b, 0);
  }
}
