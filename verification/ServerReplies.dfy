/** Every reply is one object a client can read back. */
module ServerReplies {
  import opened Objects
  import opened Wire
  import opened Commands
  import opened Buckets
  import opened Keys
  import opened ServerSpec
  import opened Auths

  // --------------------------------------------- what is stored can be encoded

  predicate EncodableEntry(e: Entry<Key, Obj>) {
    Encodable(e.key.obj) && Encodable(e.value)
  }

  ghost predicate EncodableChain(c: Chain<Key, Obj>) {
    forall j :: 0 <= j < |c| ==> EncodableEntry(c[j])
  }

  ghost predicate EncodableTable(t: Table<Key, Obj>) {
    forall i :: 0 <= i < |t| ==> EncodableChain(t[i])
  }

  lemma {:induction false} FlatEncodable(t: Table<Key, Obj>, i: nat)
    requires EncodableTable(t) && i <= |t|
    ensures EncodableChain(FlatFrom(t, i))
    decreases |t| - i
  {
    if i < |t| {
      FlatEncodable(t, i + 1);
    }
  }

  lemma PutEncodable(p: Policy<Key>, t: Table<Key, Obj>, k: Key, v: Obj)
    requires |t| > 0 && EncodableTable(t) && EncodableEntry(Entry(k, v))
    ensures EncodableTable(Put(p, t, k, v))
  {
    var c := t[Slot(p, k, |t|)];
    assert EncodableChain(ChainPut(p, c, k, v));
  }

  lemma DeleteEncodable(p: Policy<Key>, t: Table<Key, Obj>, k: Key)
    requires |t| > 0 && EncodableTable(t)
    ensures EncodableTable(Delete(p, t, k))
  {
    var c := t[Slot(p, k, |t|)];
    assert EncodableChain(ChainDelete(p, c, k));
  }

  lemma {:induction false} RehashEncodable(p: Policy<Key>, es: Chain<Key, Obj>, acc: Table<Key, Obj>)
    requires |acc| > 0 && EncodableTable(acc) && EncodableChain(es)
    ensures EncodableTable(Rehash(p, es, acc))
    decreases |es|
  {
    if es != [] {
      var slot := Slot(p, es[0].key, |acc|);
      assert EncodableChain([es[0]] + acc[slot]);
      RehashEncodable(p, es[1..], PushFront(p, acc, es[0]));
    }
  }

  lemma InsertEncodable(p: Policy<Key>, t: Table<Key, Obj>, k: Key, v: Obj)
    requires |t| > 0 && EncodableTable(t) && EncodableEntry(Entry(k, v))
    ensures EncodableTable(Insert(p, t, k, v))
  {
    FlatEncodable(t, 0);
    RehashEncodable(p, Flat(t), Empty(2 * |t|));
    PutEncodable(p, Grown(p, t), k, v);
  }

  ghost predicate EncodableDb(d: Db) {
    EncodableTable(d.dict) && EncodableAll(d.queue) && EncodableAll(d.stack)
  }

  ghost predicate EncodableStore(s: Store) {
    forall i :: 0 <= i < |s.dbs| ==> EncodableDb(s.dbs[i])
  }

  lemma DbExecEncodable(d: Db, image: string, cmd: Cmd)
    requires ValidDb(d) && IsData(cmd) && EncodableDb(d) && EncodableCmd(cmd)
    ensures EncodableDb(DbExec(d, image, cmd).0)
    ensures Sendable(DbExec(d, image, cmd).1) && !DbExec(d, image, cmd).1.Silent? && !DbExec(d, image, cmd).1.Listing?
  {
    FixedTextsClean();
    hide CleanText;
    match cmd
    case Set(k, v) => InsertEncodable(d.dictPolicy, d.dict, Key(k, image), v);
    case Del(k) => DeleteEncodable(d.dictPolicy, d.dict, Key(k, image));
    case _ =>
  }

  // ------------------------------------------------------------ one reply each

  function Pow10(k: nat): nat {
    if k == 0 then 1 else 10 * Pow10(k - 1)
  }

  lemma {:induction false} DecimalLength(n: nat, k: nat)
    requires k > 0 && n < Pow10(k)
    ensures |Decimal(n)| <= k
  {
    if n >= 10 {
      assert k > 1;
      DecimalLength(n / 10, k - 1);
    }
  }

  /** The strings INFO reports are of representable length. */
  predicate Reportable(cfg: Config, env: Env) {
    |cfg.executable| <= MAX_TEXT && |cfg.configFile| <= MAX_TEXT && |cfg.os| <= MAX_TEXT
    && |cfg.api| <= MAX_TEXT && |cfg.host| <= MAX_TEXT && env.uptime < UINT64
  }

  lemma InfoSendable(cfg: Config, env: Env, executed: nat, databases: nat)
    requires Reportable(cfg, env)
    ensures EncodablePairs(InfoPairs(cfg, env, executed, databases))
  {
    assert Pow10(4) == 10000;
    assert Pow10(8) == 1_0000_0000;
    assert Pow10(12) == 1_0000_0000_0000;
    assert Pow10(16) == 1_0000_0000_0000_0000;
    assert Pow10(20) == 1_0000_0000_0000_0000_0000;
    DecimalLength(env.uptime, 20);
  }

  lemma KeysSendable(s: Store, db: nat)
    requires EncodableStore(s) && db < |s.dbs| && Count(s.dbs[db].dict) < UINT64
    ensures Sendable(KeysAnswer(s.dbs, db))
  {
    FlatEncodable(s.dbs[0].dict, 0);
  }

  /** The client lists keys of a non-empty database with another number of entries
      than the first one. */
  predicate Mislisted(s: Store, c: Session, cmd: Cmd)
    requires ValidStore(s) && c.db < |s.dbs|
  {
    cmd.Keys? && c.authed && Count(s.dbs[c.db].dict) != 0
    && Count(s.dbs[c.db].dict) != Count(s.dbs[0].dict)
  }

  /** What holds of the outcome of every command. */
  ghost predicate Proper(o: Outcome, cmd: Cmd) {
    EncodableStore(o.store) && Sendable(o.answer)
    && (o.answer.Silent? <==> cmd.Okc?) && (o.answer.Listing? ==> cmd.Keys?)
  }

  lemma DataProper(cfg: Config, env: Env, s: Store, c: Session, cmd: Cmd)
    requires ValidStore(s) && c.db < |s.dbs| && EncodableStore(s) && EncodableCmd(cmd) && IsData(cmd)
    ensures Proper(Dispatch(cfg, env, s, c, cmd), cmd)
  {
    DbExecEncodable(s.dbs[c.db], env.image, cmd);
    var (d, a) := DbExec(s.dbs[c.db], env.image, cmd);
    assert Dispatch(cfg, env, s, c, cmd) == Outcome(s.(dbs := s.dbs[c.db := d]), c, a);
    hide DbExec, Dispatch, EncodableDb, Sendable;
  }

  lemma InfoProper(cfg: Config, env: Env, s: Store, c: Session)
    requires ValidStore(s) && c.db < |s.dbs| && EncodableStore(s) && Reportable(cfg, env)
    ensures Proper(Dispatch(cfg, env, s, c, Infoc), Infoc)
  {
    InfoSendable(cfg, env, s.executed, |s.dbs|);
    hide InfoPairs, EncodablePairs, EncodableStore, DbExec;
  }

  lemma KeysProper(cfg: Config, env: Env, s: Store, c: Session)
    requires ValidStore(s) && c.db < |s.dbs| && EncodableStore(s) && Count(s.dbs[c.db].dict) < UINT64
    ensures Proper(Dispatch(cfg, env, s, c, Keys), Keys)
  {
    KeysSendable(s, c.db);
    hide Sendable, EncodableStore, DbExec;
  }

  lemma FixedTextsClean()
    ensures CleanText("PONG") && CleanText("OK") && CleanText("NONE") && CleanText("EINVCMD") && CleanText("EINVKEY")
    ensures CleanText("EDBRANGE") && CleanText("EUNAUTHED") && CleanText("failed to authenticate")
  {
  }

  lemma PlainProper(cfg: Config, env: Env, s: Store, c: Session, cmd: Cmd)
    requires ValidStore(s) && c.db < |s.dbs| && EncodableStore(s)
    requires !IsData(cmd) && !cmd.Infoc? && !cmd.Keys?
    ensures Proper(Dispatch(cfg, env, s, c, cmd), cmd)
  {
    FixedTextsClean();
    hide EncodableStore, DbExec, InfoPairs, KeysAnswer, CleanText, Accepts;
  }

  lemma DispatchProper(cfg: Config, env: Env, s: Store, c: Session, cmd: Cmd)
    requires ValidStore(s) && c.db < |s.dbs| && EncodableStore(s) && EncodableCmd(cmd)
    requires Reportable(cfg, env) && Count(s.dbs[c.db].dict) < UINT64
    ensures Proper(Dispatch(cfg, env, s, c, cmd), cmd)
  {
    hide *;
    if IsData(cmd) {
      DataProper(cfg, env, s, c, cmd);
    } else if cmd.Infoc? {
      InfoProper(cfg, env, s, c);
    } else if cmd.Keys? {
      KeysProper(cfg, env, s, c);
    } else {
      PlainProper(cfg, env, s, c, cmd);
    }
  }

  /** Each command but an authenticated client's OK adds exactly one object to the
      reply, which reads back with nothing left over whatever follows it: always,
      except exactly when KEYS declares another length than it lists. Storing only
      encodable values is kept up. */
  lemma OneReply(conv: string -> int64, cfg: Config, env: Env, s: Store, c: Session, cmd: Cmd, t: string)
    requires Exact(conv) && ValidStore(s) && c.db < |s.dbs| && EncodableStore(s) && EncodableCmd(cmd)
    requires Reportable(cfg, env) && Count(s.dbs[c.db].dict) < UINT64
    ensures var o := Exec(cfg, env, s, c, cmd); EncodableStore(o.store)
    ensures var a := Exec(cfg, env, s, c, cmd).answer;
      (a.Silent? <==> cmd.Okc? && c.authed)
      && (!a.Silent? ==>
        (ParseObject(conv, Bytes(a) + t) == Parsed(Meaning(a), t) <==> !Mislisted(s, c, cmd)))
  {
    DispatchProper(cfg, env, s, c, cmd);
    FixedTextsClean();
    hide Dispatch, EncodableDb, CleanText;
    var a := Exec(cfg, env, s, c, cmd).answer;
    if !a.Silent? {
      ExactlyUnlessMislisted(cfg, env, s, c, cmd);
      AnswerDecodes(conv, a, t);
    }
  }

  lemma ExactlyUnlessMislisted(cfg: Config, env: Env, s: Store, c: Session, cmd: Cmd)
    requires ValidStore(s) && c.db < |s.dbs|
    ensures Exactly(Exec(cfg, env, s, c, cmd).answer) <==> !Mislisted(s, c, cmd)
  {
  }

  /** What a mislisted KEYS reply reads as: missing keys become nulls at the end of
      input, extra ones are left over. */
  lemma MislistedReply(conv: string -> int64, n: nat, items: seq<Obj>)
    requires Exact(conv) && EncodableAll(items) && |items| <= n < UINT64
    ensures ParseObject(conv, Bytes(Listing(n, items))) == Parsed(Array(NormalAll(items) + Nulls(n - |items|)), "")
  {
    ArrayHeader(conv, n, EncodeAll(items));
    ShortListing(conv, n, items);
  }

  lemma {:induction false} ShortListing(conv: string -> int64, n: nat, items: seq<Obj>)
    requires Exact(conv) && EncodableAll(items) && |items| <= n
    ensures ParseObjects(conv, n, EncodeAll(items)) == Parsed(NormalAll(items) + Nulls(n - |items|), "")
  {
    hide Exact, ParseObject, Encode, Normal, Encodable;
    if items == [] {
      ObjectsAtEnd(conv, n);
      assert [] + Nulls(n) == Nulls(n);
    } else {
      var rest := EncodeAll(items[1..]);
      RoundTrip(conv, items[0], rest);
      ShortListing(conv, n - 1, items[1..]);
      var tail := Nulls(n - |items|);
      assert [Normal(items[0])] + (NormalAll(items[1..]) + tail) == NormalAll(items) + tail;
    }
  }

  lemma EncodedNotEmpty(items: seq<Obj>)
    requires items != []
    ensures EncodeAll(items) != ""
  {
    assert |Encode(items[0])| > 0;
  }

  lemma LongListing(conv: string -> int64, n: nat, items: seq<Obj>)
    requires Exact(conv) && EncodableAll(items) && n < |items| && n < UINT64
    ensures ParseObject(conv, Bytes(Listing(n, items))) ==
      Parsed(Array(NormalAll(items[..n])), EncodeAll(items[n..]))
    ensures EncodeAll(items[n..]) != ""
  {
    hide Exact, ParseObjects, ParseHeader, Encode, Normal, Encodable;
    assert items == items[..n] + items[n..];
    EncodeAllConcat(items[..n], items[n..]);
    ArrayHeader(conv, n, EncodeAll(items));
    RoundTripAll(conv, items[..n], EncodeAll(items[n..]));
    EncodedNotEmpty(items[n..]);
  }
}
