/** The command state machine of server.c as functions on values. */
module ServerSpec {
  import opened Objects
  import opened Wire
  import opened Commands
  import opened Buckets
  import opened Keys
  import opened Auths

  // ------------------------------------------------------------------ answers

  /** What one command contributes to the reply buffer. */
  datatype Answer =
    | Silent
    | Simple(text: string)
    | Fault(text: string)
    | Value(value: Obj)
    | Listing(declared: nat, items: seq<Obj>)
    | Report(pairs: seq<Pair>)

  const OK: Answer := Simple("OK")
  const NONE: Answer := Simple("NONE")
  const EINVCMD: Answer := Fault("EINVCMD")
  const EINVKEY: Answer := Fault("EINVKEY")

  function Bytes(a: Answer): string {
    match a
    case Silent => ""
    case Simple(s) => EncodeSimple(s)
    case Fault(s) => EncodeError(s)
    case Value(o) => Encode(o)
    case Listing(n, items) => EncodeCount('*', n) + EncodeAll(items)
    case Report(pairs) => EncodeCount('%', |pairs|) + EncodePairs(pairs)
  }

  /** The object a client reads from those bytes. */
  function Meaning(a: Answer): Obj
    requires !a.Silent?
  {
    match a
    case Simple(s) => Str(s)
    case Fault(s) => Str(s)
    case Value(o) => Normal(o)
    case Listing(_, items) => Array(NormalAll(items))
    case Report(pairs) => Table(NormalPairs(pairs))
  }

  predicate CleanText(s: string) {
    forall i :: 0 <= i < |s| ==> s[i] != CR && s[i] != '\0'
  }

  predicate Sendable(a: Answer) {
    match a
    case Silent => true
    case Simple(s) => CleanText(s)
    case Fault(s) => CleanText(s)
    case Value(o) => Encodable(o)
    case Listing(n, items) => 0 < n < UINT64 && EncodableAll(items)
    case Report(pairs) => |pairs| < UINT64 && EncodablePairs(pairs)
  }

  /** The declared length of a listing is the number of its elements. */
  predicate Exactly(a: Answer) {
    a.Listing? ==> a.declared == |a.items|
  }

  /** Every answer but silence is read back as one object, the right one, with
      nothing left over: exactly when a listing declares its true length. */
  lemma AnswerDecodes(conv: string -> int64, a: Answer, t: string)
    requires Exact(conv) && Sendable(a) && !a.Silent?
    ensures ParseObject(conv, Bytes(a) + t) == Parsed(Meaning(a), t) <==> Exactly(a)
    ensures ParseObject(conv, Bytes(a) + t).value == Meaning(a) <==> Exactly(a)
  {
    match a
    case Simple(s) => SimpleRoundTrip(conv, s, t);
    case Fault(s) => SimpleRoundTrip(conv, s, t);
    case Value(o) => RoundTrip(conv, o, t);
    case Listing(n, items) =>
      Associative(EncodeCount('*', n), EncodeAll(items), t);
      ArrayHeader(conv, n, EncodeAll(items) + t);
      RoundTripAll(conv, items, t);
      var read := ParseObjects(conv, n, EncodeAll(items) + t);
      assert |read.value| == n && |NormalAll(items)| == |items|;
    case Report(pairs) =>
      Associative(EncodeCount('%', |pairs|), EncodePairs(pairs), t);
      TableHeader(conv, |pairs|, EncodePairs(pairs) + t);
      RoundTripPairs(conv, pairs, t);
  }

  // -------------------------------------------------------------------- state

  /** One database; each table carries its comparison and seeded hash. */
  datatype Db = Db(
    dictPolicy: Policy<Key>, dict: Table<Key, Obj>,
    setPolicy: Policy<Key>, zset: Table<Key, ()>,
    queue: seq<Obj>, stack: seq<Obj>)

  /** What the server shares: databases and the count of executed commands. */
  datatype Store = Store(dbs: seq<Db>, executed: nat)

  /** What a client carries: its AUTHENTICATED flag and selected database. */
  datatype Session = Session(authed: bool, db: nat)

  const NEW_SESSION: Session := Session(false, 0)

  /** Facts of the running server that replies mention, and its users. */
  datatype Config = Config(
    users: seq<User>, pid: int, executable: string, configFile: string, os: string,
    api: string, host: string, port: nat)

  /** What surrounds one command: the raw bytes of its key object, the number of
      connected clients, and the seconds since the start. */
  datatype Env = Env(image: string, clients: nat, uptime: nat)

  /** More databases could not be allocated; a negative number cast to `size_t` is
      never below this. */
  const MAX_DATABASES: nat := 0x7fff_ffff_ffff_ffff

  predicate ValidDb(d: Db) {
    |d.dict| > 0 && |d.zset| > 0
  }

  predicate ValidStore(s: Store) {
    0 < |s.dbs| <= MAX_DATABASES && forall i :: 0 <= i < |s.dbs| ==> ValidDb(s.dbs[i])
  }

  function KeysListed(d: Db): (r: seq<Obj>)
    ensures |r| == Count(d.dict)
  {
    ObjectsOf(Flat(d.dict))
  }

  function ObjectsOf(es: Chain<Key, Obj>): (r: seq<Obj>)
    ensures |r| == |es| && forall i :: 0 <= i < |es| ==> r[i] == es[i].key.obj
  {
    seq(|es|, i requires 0 <= i < |es| => es[i].key.obj)
  }

  /** The commands that work on one database. */
  predicate IsData(cmd: Cmd) {
    cmd.Set? || cmd.Get? || cmd.Del? || cmd.Push? || cmd.Pop? || cmd.Enque? || cmd.Deque?
    || cmd.ZSet? || cmd.ZHas? || cmd.ZDel?
  }

  /** A data command on its database. */
  function DbExec(d: Db, image: string, cmd: Cmd): (r: (Db, Answer))
    requires ValidDb(d) && IsData(cmd)
    ensures ValidDb(r.0)
  {
    match cmd
    case Set(k, v) => (d.(dict := Insert(d.dictPolicy, d.dict, Key(k, image), v)), OK)
    case Get(k) =>
      var found := Buckets.Get(d.dictPolicy, d.dict, Key(k, image));
      (d, if found.Some? then Value(found.value) else NONE)
    case Del(k) =>
      var found := Buckets.Get(d.dictPolicy, d.dict, Key(k, image));
      (d.(dict := Delete(d.dictPolicy, d.dict, Key(k, image))), if found.Some? then OK else EINVKEY)
    case Push(v) => (d.(stack := d.stack + [v]), OK)
    case Pop =>
      if d.stack == [] then (d, NONE)
      else (d.(stack := d.stack[..|d.stack| - 1]), Value(d.stack[|d.stack| - 1]))
    case Enque(v) => (d.(queue := d.queue + [v]), OK)
    case Deque =>
      if d.queue == [] then (d, NONE) else (d.(queue := d.queue[1..]), Value(d.queue[0]))
    case ZSet(v) => (d.(zset := TryInsert(d.setPolicy, d.zset, Key(v, image), ())), OK)
    case ZHas(v) =>
      (d, if Buckets.Get(d.setPolicy, d.zset, Key(v, image)).Some? then Value(Int(1)) else NONE)
    case ZDel(v) =>
      var found := Buckets.Get(d.setPolicy, d.zset, Key(v, image));
      (d.(zset := Delete(d.setPolicy, d.zset, Key(v, image))), if found.Some? then OK else EINVKEY)
  }

  function InfoPairs(cfg: Config, env: Env, executed: nat, databases: nat): (r: seq<Pair>)
    ensures |r| == 11
  {
    [Pair(Str("process id"), Int(ToInt64(cfg.pid))),
     Pair(Str("executable"), Str(cfg.executable)),
     Pair(Str("config file"), Str(cfg.configFile)),
     Pair(Str("OS"), Str(cfg.os)),
     Pair(Str("multiplexing api"), Str(cfg.api)),
     Pair(Str("host"), Str(cfg.host)),
     Pair(Str("port"), Int(ToInt64(cfg.port))),
     Pair(Str("commands processes"), Int(ToInt64(executed))),
     Pair(Str("num connections"), Int(ToInt64(env.clients))),
     Pair(Str("num databases"), Int(ToInt64(databases))),
     Pair(Str("uptime"), Str(Decimal(env.uptime) + " secs"))]
  }

  /** KEYS counts the client's database but lists the first one. */
  function KeysAnswer(dbs: seq<Db>, db: nat): Answer
    requires db < |dbs|
  {
    var n := Count(dbs[db].dict);
    if n == 0 then NONE else Listing(n, KeysListed(dbs[0]))
  }

  /** Which commands the `cmd_executed` counter takes note of. */
  predicate Counted(cmd: Cmd, a: Answer) {
    !a.Fault? && !cmd.Okc? && !cmd.Auth? && !cmd.Select?
    && !((cmd.Get? || cmd.Pop? || cmd.Deque? || cmd.ZHas?) && a == NONE)
  }

  datatype Outcome = Outcome(store: Store, session: Session, answer: Answer)

  /** What a command answers and how it changes session and databases, leaving the
      counter to `Exec`. */
  function Dispatch(cfg: Config, env: Env, s: Store, c: Session, cmd: Cmd): Outcome
    requires ValidStore(s) && c.db < |s.dbs|
  {
    match cmd
    case Okc => Outcome(s, c, Silent)
    case Ping => Outcome(s, c, Simple("PONG"))
    case Auth(u, p) =>
      if Accepts(cfg.users, u, p) then Outcome(s, c.(authed := true), OK)
      else Outcome(s, c, Fault("failed to authenticate"))
    case Infoc => Outcome(s, c, Report(InfoPairs(cfg, env, s.executed, |s.dbs|)))
    case Select(n) =>
      if n % UINT64 >= |s.dbs| then Outcome(s, c, Fault("EDBRANGE"))
      else Outcome(s, c.(db := n % UINT64), OK)
    case Keys => Outcome(s, c, KeysAnswer(s.dbs, c.db))
    case Illegal => Outcome(s, c, EINVCMD)
    case Help(_) => Outcome(s, c, EINVCMD)
    case _ =>
      var (d, a) := DbExec(s.dbs[c.db], env.image, cmd);
      Outcome(s.(dbs := s.dbs[c.db := d]), c, a)
  }

  /** `cmd_executed++`, an unsigned 64-bit counter. */
  function Next(executed: nat): nat {
    (executed + 1) % UINT64
  }

  /** The outcome with the counter moved on if the command counts. */
  function Tally(cmd: Cmd, o: Outcome): Outcome {
    if Counted(cmd, o.answer) then o.(store := o.store.(executed := Next(o.store.executed))) else o
  }

  /** `execute_cmd` after parsing. */
  function Exec(cfg: Config, env: Env, s: Store, c: Session, cmd: Cmd): (o: Outcome)
    requires ValidStore(s) && c.db < |s.dbs|
    ensures ValidStore(o.store) && |o.store.dbs| == |s.dbs| && o.session.db < |s.dbs|
  {
    if cmd.Illegal? then Outcome(s, c, EINVCMD)
    else if !c.authed && !cmd.Auth? then Outcome(s, c, Fault("EUNAUTHED"))
    else Tally(cmd, Dispatch(cfg, env, s, c, cmd))
  }
}
