/** The bytes of the keys of requests: what the parser leaves in the key object that a
    table hashes, as a function of the request. */
module RequestKeys {
  import opened Objects
  import opened Wire
  import opened Commands
  import opened Buckets
  import opened Vstrs
  import opened Keys

  predicate IsLine(r: string) {
    Cur(r) == '+' || Cur(r) == '-'
  }

  /** The line does not end in CR LF, so its text is freed. */
  predicate Broken(r: string) {
    var p := Until(Adv(r));
    Cur(p.rest) != CR || Peek(p.rest) != LF
  }

  /** The bytes of an object with the text of a line, as `Keys.BuildLine` leaves them. */
  function HeldBytes(text: string, broken: bool): Option<string> {
    if |text| > MAX_SMALL then None
    else Some(ObjectBytes(STR_TAG, if broken then Leftover(text) else InlineText(text)))
  }

  function LineBytes(r: string): Option<string> {
    HeldBytes(Until(Adv(r)).value, Broken(r))
  }

  /** The bytes of the object that is read from `r`, if they hold no pointer and nothing
      left of one. */
  function ReadBytes(conv: string -> int64, r: string): Option<string> {
    if IsLine(r) then LineBytes(r) else ValueBytes(ParseObject(conv, r).value)
  }

  /** A broken line whose text stays behind in the object. */
  predicate Smeared(r: string) {
    IsLine(r) && Broken(r) && Until(Adv(r)).value != ""
  }

  lemma UntilNulFree(r: string)
    ensures var s := Until(r).value; s != "" ==> s[0] != '\0'
  {
  }

  /** A canonical value has the bytes of its content exactly when it was not read from
      a broken line with a text. */
  lemma BytesOfContent(conv: string -> int64, r: string)
    requires Canonical(ParseObject(conv, r).value)
    ensures ReadBytes(conv, r) == Some(Image(ParseObject(conv, r).value)) <==> !Smeared(r)
  {
    if IsLine(r) {
      var text := Until(Adv(r)).value;
      UntilNulFree(Adv(r));
      if Broken(r) && |text| <= MAX_SMALL {
        if text == "" {
          assert Leftover(text) == InlineText("");
        } else {
          assert ObjectBytes(STR_TAG, Leftover(text))[8] == text[0];
          assert ObjectBytes(STR_TAG, InlineText(""))[8] == '\0';
        }
      }
    }
  }

  // ------------------------------------------------------------ keys of requests

  /** The argument that a command uses as a key. */
  function KeyOf(c: Cmd): Option<Obj> {
    match c
    case Set(k, _) => Some(k)
    case Get(k) => Some(k)
    case Del(k) => Some(k)
    case ZSet(v) => Some(v)
    case ZHas(v) => Some(v)
    case ZDel(v) => Some(v)
    case _ => None
  }

  /** Where the first argument of an array request starts. */
  function KeyPlace(conv: string -> int64, r: string): string {
    ParseCmdType(conv, ParseHeader(r).rest).rest
  }

  /** The bytes of a request's key; those of a bare command are all zero. */
  function KeyBytes(conv: string -> int64, r: string): Option<string> {
    if KeyOf(ParseCmd(conv, r)).None? then Some("")
    else if Cur(r) == '*' then ReadBytes(conv, KeyPlace(conv, r))
    else Some(Image(Null))
  }

  /** ... with the bytes that hold pointers supplied. */
  function KeyImage(conv: string -> int64, r: string, heapImage: string): string {
    Supplied(KeyBytes(conv, r), heapImage)
  }

  function Supplied(bytes: Option<string>, heapImage: string): string {
    if bytes.Some? then bytes.value else heapImage
  }

  /** The request's key, if it has one, is canonical and has the bytes of its content. */
  predicate KeyFits(conv: string -> int64, r: string) {
    var k := KeyOf(ParseCmd(conv, r));
    k.Some? ==> Canonical(k.value) && KeyBytes(conv, r) == Some(Image(k.value))
  }

  lemma KeyRead(conv: string -> int64, r: string)
    requires KeyOf(ParseCmd(conv, r)).Some?
    ensures KeyOf(ParseCmd(conv, r)).value ==
      if Cur(r) == '*' then ParseObject(conv, KeyPlace(conv, r)).value else Null
  {
    hide ParseObject, ParseCmdType, ParseHeader, ParseSimpleType;
  }

  /** Exactly the canonical keys that were not read from a broken line fit. */
  lemma KeyFitsExactly(conv: string -> int64, r: string)
    ensures var k := KeyOf(ParseCmd(conv, r));
      KeyFits(conv, r) <==>
        (k.Some? ==> Canonical(k.value) && !(Cur(r) == '*' && Smeared(KeyPlace(conv, r))))
  {
    hide ParseCmd, KeyPlace, Smeared, ReadBytes, Image, Canonical;
    var k := KeyOf(ParseCmd(conv, r));
    if k.Some? {
      KeyRead(conv, r);
      if Cur(r) == '*' && Canonical(k.value) {
        BytesOfContent(conv, KeyPlace(conv, r));
      }
    }
  }

  // ------------------------------------------------------------ the client's keys

  lemma ClientKeyPlace(conv: string -> int64, n: nat, t: CmdType, args: string)
    requires 0 < n < UINT64
    ensures KeyPlace(conv, EncodeCount('*', n) + (EncodeText(Name(t)) + args)) == args
  {
    HeaderRoundTrip('*', n, EncodeText(Name(t)) + args);
    TypeRoundTrip(conv, t, args);
  }

  /** An encoding starts a line only for null, and then it is a whole one. */
  lemma EncodedNotSmeared(o: Obj, t: string)
    ensures !Smeared(Encode(o) + t)
  {
    if o.Null? {
      LineRoundTrip('+', "NONE", t);
      assert Encode(o) + t == ['+'] + "NONE" + CRLF + t;
      var r := Encode(o) + t;
      assert ParseLine(r).value == "NONE";
    }
  }

  lemma ClientKeyStart(conv: string -> int64, c: Cmd, rest: string)
    requires ServerBound(c) && KeyOf(c).Some?
    ensures exists t :: KeyPlace(conv, Request(c) + rest) == Encode(KeyOf(c).value) + t
  {
    hide Encode, EncodeCount, EncodeText, KeyPlace, Name;
    var t, k := TypeOf(c), Encode(KeyOf(c).value);
    if c.Set? {
      Associate(EncodeCount('*', 3), EncodeText(Name(t)), k, Encode(c.value), rest);
      ClientKeyPlace(conv, 3, t, k + (Encode(c.value) + rest));
    } else {
      Associate(EncodeCount('*', 2), EncodeText(Name(t)), k, "", rest);
      ClientKeyPlace(conv, 2, t, k + rest);
    }
  }

  /** The keys of the client library's requests fit exactly when they are canonical as
      they arrive. */
  lemma ClientKeyFits(conv: string -> int64, c: Cmd, rest: string)
    requires Exact(conv) && ServerBound(c) && EncodableCmd(c)
    ensures var k := KeyOf(c);
      KeyFits(conv, Request(c) + rest) <==> (k.Some? ==> Canonical(Normal(k.value)))
  {
    hide Encode, KeyPlace, Smeared, KeyFits, Canonical, ParseCmd, Request, Normal;
    KeyFitsExactly(conv, Request(c) + rest);
    RequestDelivered(conv, c, rest);
    if KeyOf(c).Some? {
      ClientKeyStart(conv, c, rest);
      var t :| KeyPlace(conv, Request(c) + rest) == Encode(KeyOf(c).value) + t;
      EncodedNotSmeared(KeyOf(c).value, t);
    }
  }
}
