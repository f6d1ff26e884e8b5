/** What becomes of a key that is read from a broken line: it compares as an empty text
    and is hashed by the text that was dropped. */
module SmearedKeys {
  import opened Objects
  import opened Wire
  import opened Commands
  import opened Buckets
  import opened Vstrs
  import opened Keys
  import opened RequestKeys
  import opened DatabaseArrays
  import opened ServerSpec
  import opened ServerRuns

  /** A key that compares equal to the only one of a new table is found exactly when the
      hash puts the two into one slot. */
  lemma FoundInSlot<V>(hash: string -> nat, a: Key, b: Key, v: V)
    requires ObjectSame(b.obj, a.obj)
    ensures var p := KeyPolicy(hash);
      Buckets.Get(p, Insert(p, Empty(INITIAL_CAP), a, v), b) ==
        if hash(a.raw) % INITIAL_CAP == hash(b.raw) % INITIAL_CAP then Some(v) else None
  {
    hide ObjectSame;
    var p, t: Table<Key, V> := KeyPolicy(hash), Empty(INITIAL_CAP);
    EmptyFlat(t, 0);
    assert Grown(p, t) == t;
    assert t[Slot(p, a, |t|)] == [] && [Entry(a, v)] + [] == [Entry(a, v)];
    assert Insert(p, t, a, v) == t[Slot(p, a, |t|) := [Entry(a, v)]];
  }

  /** ... and whatever the hash is, exactly when the two consist of the same bytes. */
  lemma FoundByEveryHash<V>(a: Key, b: Key, v: V)
    requires ObjectSame(b.obj, a.obj)
    ensures (forall hash: string -> nat ::
      Buckets.Get(KeyPolicy(hash), Insert(KeyPolicy(hash), Empty(INITIAL_CAP), a, v), b) == Some(v)) <==> a.raw == b.raw
  {
    hide ObjectSame, KeyPolicy, Insert, Buckets.Get;
    forall hash: string -> nat {
      FoundInSlot(hash, a, b, v);
    }
    if a.raw != b.raw {
      var hash: string -> nat := (s: string) => if s == a.raw then 1 else 0;
      FoundInSlot(hash, a, b, v);
      assert Buckets.Get(KeyPolicy(hash), Insert(KeyPolicy(hash), Empty(INITIAL_CAP), a, v), b) == None;
    }
  }

  // --------------------------------------------------------------- such requests

  /** SET whose key is a line without its LF. */
  function SmearedSet(text: string, value: string): string {
    EncodeCount('*', 3) + (EncodeText(Name(SetType)) + ("+" + (text + ([CR] + Encode(Str(value))))))
  }

  /** A text that a line can hold and a vstr inline. */
  predicate LineText(s: string) {
    s != "" && |s| <= MAX_SMALL && forall i :: 0 <= i < |s| ==> s[i] != CR && s[i] != '\0'
  }

  lemma BrokenLine(text: string, value: string)
    requires LineText(text)
    ensures var r := "+" + (text + ([CR] + Encode(Str(value))));
      Until(Adv(r)) == Parsed(text, [CR] + Encode(Str(value))) && Smeared(r)
      && ParseLine(r) == Parsed("", [CR] + Encode(Str(value)))
  {
    var after := [CR] + Encode(Str(value));
    var r := "+" + (text + after);
    assert Adv(r) == text + after;
    UntilClean(text, after);
    EncodedTextStart(value);
    assert after[1] == Encode(Str(value))[0];
  }

  lemma EncodedTextStart(s: string)
    ensures Encode(Str(s)) != "" && Encode(Str(s))[0] == '$'
  {
  }

  /** The server reads it as SET of the empty text, with the dropped text in its bytes. */
  lemma SmearedSetRead(conv: string -> int64, text: string, value: string)
    requires LineText(text) && |value| <= MAX_TEXT
    ensures ParseCmd(conv, SmearedSet(text, value)) == Set(Str(""), Str(value))
    ensures KeyBytes(conv, SmearedSet(text, value)) == Some(ObjectBytes(STR_TAG, Leftover(text)))
    ensures !KeyFits(conv, SmearedSet(text, value))
  {
    hide ParseObject, ParseArgs, ParseCmd, EncodeCount, EncodeText, KeyPlace, ReadBytes, Encode, Leftover, ObjectBytes;
    hide LineText, Image, Smeared, KeyFits;
    var key := "+" + (text + ([CR] + Encode(Str(value))));
    HeaderStart(3, EncodeText(Name(SetType)) + key);
    ArrayRoundTrip(conv, 3, SetType, key);
    SmearedArgs(conv, text, value);
    ClientKeyPlace(conv, 3, SetType, key);
    KeyFitsExactly(conv, SmearedSet(text, value));
    BrokenLine(text, value);
  }

  lemma SmearedArgs(conv: string -> int64, text: string, value: string)
    requires LineText(text) && |value| <= MAX_TEXT
    ensures var key := "+" + (text + ([CR] + Encode(Str(value))));
      ParseArgs(conv, 3, SetType, key) == Set(Str(""), Str(value))
      && ReadBytes(conv, key) == Some(ObjectBytes(STR_TAG, Leftover(text)))
  {
    hide ParseObject, ReadBytes, Encode, Leftover, ObjectBytes;
    ReadSmeared(conv, text, value);
    TextRoundTrip(conv, value, "");
    EncodedText(value);
  }

  lemma EncodedText(s: string)
    ensures Encode(Str(s)) == EncodeText(s) + ""
  {
  }

  lemma HeaderStart(n: nat, t: string)
    ensures Cur(EncodeCount('*', n) + t) == '*'
  {
  }

  lemma ReadSmeared(conv: string -> int64, text: string, value: string)
    requires LineText(text)
    ensures var r := "+" + (text + ([CR] + Encode(Str(value))));
      ParseObject(conv, r) == Parsed(Str(""), Encode(Str(value)))
      && ReadBytes(conv, r) == Some(ObjectBytes(STR_TAG, Leftover(text)))
  {
    hide Encode;
    BrokenLine(text, value);
    assert Adv([CR] + Encode(Str(value))) == Encode(Str(value));
  }

  // ---------------------------------------------------------------- what is lost

  lemma CleanGetRead(conv: string -> int64)
    requires Exact(conv)
    ensures ParseCmd(conv, Commands.Request(Get(Str("")))) == Get(Str(""))
    ensures KeyBytes(conv, Commands.Request(Get(Str("")))) == Some(Image(Str("")))
  {
    hide ParseCmd, KeyBytes, Commands.Request, Image, Exact;
    var get := Commands.Request(Get(Str("")));
    assert get + "" == get;
    RequestDelivered(conv, Get(Str("")), "");
    ClientKeyFits(conv, Get(Str("")), "");
  }

  /** After such a SET a plain map finds the value under the empty text. The server finds
      it exactly when the hash puts the dropped text into the slot of the empty one. */
  lemma ValueLost(conv: string -> int64, seeds: Seeds, text: string, value: string, h: string)
    requires Exact(conv) && LineText(text) && |value| <= MAX_TEXT
    ensures ParseCmd(conv, SmearedSet(text, value)) == Set(Str(""), Str(value))
    ensures ParseCmd(conv, Commands.Request(Get(Str("")))) == Get(Str(""))
    ensures var put, get := SmearedSet(text, value), Commands.Request(Get(Str("")));
      var d := DbExec(EmptyDb(seeds), KeyImage(conv, put, h), ParseCmd(conv, put)).0;
      var answer := DbExec(d, KeyImage(conv, get, h), ParseCmd(conv, get)).1;
      var plain := AbsDbExec(AbsDbExec(EMPTY, ParseCmd(conv, put)).0, ParseCmd(conv, get)).1;
      plain == Value(Str(value)) &&
      (answer == plain <==>
        seeds.dict(ObjectBytes(STR_TAG, Leftover(text))) % INITIAL_CAP == seeds.dict(Image(Str(""))) % INITIAL_CAP)
  {
    hide ParseCmd, KeyBytes, SmearedSet, Commands.Request, Image, Exact, ObjectBytes, Leftover, Buckets.Get, Insert;
    hide KeyPolicy, ObjectSame, KeyFits;
    SmearedSetRead(conv, text, value);
    CleanGetRead(conv);
    EmptySame();
    var smeared, clean := Key(Str(""), ObjectBytes(STR_TAG, Leftover(text))), Key(Str(""), Image(Str("")));
    FoundInSlot(seeds.dict, smeared, clean, Str(value));
  }

  lemma EmptySame()
    ensures ObjectSame(Str(""), Str(""))
  {
  }

  lemma ExamplePieces()
    ensures EncodeCount('*', 3) == "*3\r\n" && EncodeText("SET") == "$3\r\nSET\r\n"
    ensures Encode(Str("v")) == "$1\r\nv\r\n"
  {
    assert Decimal(3) == "3" && Decimal(1) == "1";
  }

  /** One such request, byte by byte. */
  lemma SmearedExample()
    ensures LineText("abc") && SmearedSet("abc", "v") == "*3\r\n$3\r\nSET\r\n+abc\r$1\r\nv\r\n"
  {
    hide EncodeCount, EncodeText, Encode;
    ExamplePieces();
  }
}
