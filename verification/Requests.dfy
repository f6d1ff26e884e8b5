/** The byte-building half of the client library's requests (hilexi.c): each appends
    its pieces to the builder one by one and gives up at the first that does not fit. */
module Requests {
  import opened Objects
  import opened Wire
  import opened Commands
  import opened Vstrs
  import opened Builder

  /** The start of an array request: its length and its name. */
  method AddHead(b: Vstr, n: nat, t: CmdType) returns (res: int)
    requires b.Valid()
    modifies b, b.small, b.data
    ensures b.Valid() && (b.data == old(b.data) || fresh(b.data))
    ensures Appended(old(b.Contents()), b.Contents(), EncodeCount('*', n) + EncodeText(Name(t)), res)
  {
    ghost var c0 := b.Contents();
    res := AddArray(b, n);
    ghost var c1 := b.Contents();
    if res == -1 {
      AppendedStop(c0, c1, EncodeCount('*', n), EncodeText(Name(t)));
      return;
    }
    res := AddString(b, Name(t));
    AppendedThen(c0, c1, b.Contents(), EncodeCount('*', n), EncodeText(Name(t)), res);
  }

  /** A request with one argument, as `hilexi_get` and its like build it. */
  method AddOne(b: Vstr, t: CmdType, o: Obj) returns (res: int)
    requires b.Valid() && Encodable(o)
    modifies b, b.small, b.data
    ensures b.Valid() && (b.data == old(b.data) || fresh(b.data))
    ensures Appended(old(b.Contents()), b.Contents(), Array1(t, o), res)
  {
    hide Appended, Encode, EncodeCount, EncodeText, Vstr.Valid, Vstr.Contents;
    ghost var c0 := b.Contents();
    ghost var head := EncodeCount('*', 2) + EncodeText(Name(t));
    res := AddHead(b, 2, t);
    ghost var c1 := b.Contents();
    if res == -1 {
      AppendedStop(c0, c1, head, Encode(o));
      return;
    }
    res := AddObject(b, o);
    AppendedThen(c0, c1, b.Contents(), head, Encode(o), res);
  }

  /** A request with two arguments, as `hilexi_set` builds it. */
  method AddTwo(b: Vstr, t: CmdType, o: Obj, p: Obj) returns (res: int)
    requires b.Valid() && Encodable(o) && Encodable(p)
    modifies b, b.small, b.data
    ensures b.Valid() && (b.data == old(b.data) || fresh(b.data))
    ensures Appended(old(b.Contents()), b.Contents(), Array2(t, o, p), res)
  {
    hide Appended, Encode, EncodeCount, EncodeText, Vstr.Valid, Vstr.Contents;
    ghost var c0 := b.Contents();
    ghost var head := EncodeCount('*', 3) + EncodeText(Name(t));
    res := AddHead(b, 3, t);
    ghost var c1 := b.Contents();
    if res == -1 {
      AppendedStop(c0, c1, head, Encode(o));
      AppendedStop(c0, c1, head + Encode(o), Encode(p));
      return;
    }
    res := AddObject(b, o);
    ghost var c2 := b.Contents();
    AppendedThen(c0, c1, c2, head, Encode(o), res);
    if res == -1 {
      AppendedStop(c0, c2, head + Encode(o), Encode(p));
      return;
    }
    res := AddObject(b, p);
    AppendedThen(c0, c2, b.Contents(), head + Encode(o), Encode(p), res);
  }

  /** `hilexi_authenticate` does not look at whether the array header fitted; a name
      that does not fit either stops it all the same. */
  method AddAuth(b: Vstr, username: Obj, password: Obj) returns (res: int)
    requires b.Valid() && Encodable(username) && Encodable(password)
    modifies b, b.small, b.data
    ensures b.Valid() && (b.data == old(b.data) || fresh(b.data))
    ensures Appended(old(b.Contents()), b.Contents(), Array2(AuthType, username, password), res)
  {
    hide Encode, EncodeCount, EncodeText, Vstr.Valid, Vstr.Contents;
    HeadLengths();
    ghost var c0 := b.Contents();
    ghost var count, name := EncodeCount('*', 3), EncodeText(Name(AuthType));
    var header := AddArray(b, 3);
    ghost var c1 := b.Contents();
    res := AddString(b, Name(AuthType));
    ghost var c2 := b.Contents();
    assert Appended(c0, c2, count + name, res) by {
      if header == 0 {
        AppendedThen(c0, c1, c2, count, name, res);
      }
    }
    if res == -1 {
      AppendedStop(c0, c2, count + name, Encode(username));
      AppendedStop(c0, c2, count + name + Encode(username), Encode(password));
      return;
    }
    res := AddObject(b, username);
    ghost var c3 := b.Contents();
    AppendedThen(c0, c2, c3, count + name, Encode(username), res);
    if res == -1 {
      AppendedStop(c0, c3, count + name + Encode(username), Encode(password));
      return;
    }
    res := AddObject(b, password);
    AppendedThen(c0, c3, b.Contents(), count + name + Encode(username), Encode(password), res);
  }

  /** The name takes more room than the header before it. */
  lemma HeadLengths()
    ensures |EncodeCount('*', 3)| <= |EncodeText(Name(AuthType))|
  {
    assert Decimal(3) == [Digit(3)];
  }

  /** A request without arguments: PING goes as a simple text, the others as strings. */
  method AddBare(b: Vstr, t: CmdType) returns (res: int)
    requires b.Valid()
    modifies b, b.small, b.data
    ensures b.Valid() && (b.data == old(b.data) || fresh(b.data))
    ensures Appended(old(b.Contents()), b.Contents(),
                     if t == PingType then EncodeSimple(Name(t)) else EncodeText(Name(t)), res)
  {
    if t == PingType {
      res := AddSimple(b, Name(t));
    } else {
      res := AddString(b, Name(t));
    }
  }

  /** The requests together: exactly `Request(c)` is appended, or it does not fit. */
  method AddRequest(b: Vstr, c: Cmd) returns (res: int)
    requires b.Valid() && ServerBound(c) && EncodableCmd(c)
    modifies b, b.small, b.data
    ensures b.Valid() && (b.data == old(b.data) || fresh(b.data))
    ensures Appended(old(b.Contents()), b.Contents(), Request(c), res)
  {
    hide Appended, Encode, Array1, Array2, Vstr.Valid, Vstr.Contents;
    match c
    case Auth(u, p) => res := AddAuth(b, u, p);
    case Set(k, v) => res := AddTwo(b, SetType, k, v);
    case Select(n) => res := AddOne(b, SelectType, Int(n));
    case Get(k) => res := AddOne(b, GetType, k);
    case Del(k) => res := AddOne(b, DelType, k);
    case Push(v) => res := AddOne(b, PushType, v);
    case Enque(v) => res := AddOne(b, EnqueType, v);
    case ZSet(v) => res := AddOne(b, ZSetType, v);
    case ZHas(v) => res := AddOne(b, ZHasType, v);
    case ZDel(v) => res := AddOne(b, ZDelType, v);
    case Ping => res := AddBare(b, PingType);
    case Infoc => res := AddBare(b, InfoType);
    case Keys => res := AddBare(b, KeysType);
    case Pop => res := AddBare(b, PopType);
    case Deque => res := AddBare(b, DequeType);
  }
}
