/** Runs of the server: any number of clients, any interleaving of their commands,
    against an array of plain maps, sets, queues and stacks. */
module ServerRuns {
  import opened Objects
  import opened Commands
  import opened Buckets
  import opened TableRuns
  import opened Keys
  import opened RequestKeys
  import opened Auths
  import opened ServerSpec

  // ----------------------------------------------------------- the abstraction

  datatype AbsDb = AbsDb(dict: map<Obj, Obj>, zset: set<Obj>, queue: seq<Obj>, stack: seq<Obj>)

  const EMPTY: AbsDb := AbsDb(map[], {}, [], [])

  datatype AbsStore = AbsStore(dbs: seq<AbsDb>, executed: nat)

  /** An answer as the abstraction fixes it: KEYS may list the keys in any order. */
  datatype AbsAnswer = Plain(answer: Answer) | KeySet(declared: nat, keys: set<Obj>)

  /** A data command on plain maps, sets and sequences. */
  ghost function AbsDbExec(d: AbsDb, cmd: Cmd): (AbsDb, Answer)
    requires IsData(cmd)
  {
    match cmd
    case Set(k, v) => (d.(dict := d.dict[k := v]), OK)
    case Get(k) => (d, if k in d.dict then Value(d.dict[k]) else NONE)
    case Del(k) => (d.(dict := d.dict - {k}), if k in d.dict then OK else EINVKEY)
    case Push(v) => (d.(stack := d.stack + [v]), OK)
    case Pop =>
      if d.stack == [] then (d, NONE)
      else (d.(stack := d.stack[..|d.stack| - 1]), Value(d.stack[|d.stack| - 1]))
    case Enque(v) => (d.(queue := d.queue + [v]), OK)
    case Deque =>
      if d.queue == [] then (d, NONE) else (d.(queue := d.queue[1..]), Value(d.queue[0]))
    case ZSet(v) => (d.(zset := d.zset + {v}), OK)
    case ZHas(v) => (d, if v in d.zset then Value(Int(1)) else NONE)
    case ZDel(v) => (d.(zset := d.zset - {v}), if v in d.zset then OK else EINVKEY)
  }

  /** On canonical keys the policy compares by equality and hashes accordingly. */
  ghost predicate KeyLike(p: Policy<Key>) {
    Lawful(p, CanonicalKey) &&
    forall a, b :: CanonicalKey(a) && CanonicalKey(b) ==> (p.same(a, b) <==> a == b)
  }

  ghost predicate GoodDb(d: Db) {
    ValidDb(d) && KeyLike(d.dictPolicy) && KeyLike(d.setPolicy)
    && WellFormed(d.dictPolicy, CanonicalKey, d.dict)
    && WellFormed(d.setPolicy, CanonicalKey, d.zset)
  }

  ghost function Contents(keys: set<Key>): set<Obj> {
    set k | k in keys :: k.obj
  }

  /** What a table holds, by the contents of its keys. */
  ghost function Content<V>(p: Policy<Key>, t: Table<Key, V>): map<Obj, V>
    requires KeyLike(p) && WellFormed(p, CanonicalKey, t)
  {
    ByContent(Abs(p, CanonicalKey, t))
  }

  ghost function ByContent<V>(m: map<Key, V>): (r: map<Obj, V>)
    ensures r.Keys == Contents(m.Keys)
  {
    map o | o in Contents(m.Keys) :: var k :| k in m && k.obj == o; m[k]
  }

  ghost function AbsOf(d: Db): AbsDb
    requires GoodDb(d)
  {
    AbsDb(Content(d.dictPolicy, d.dict), Content(d.setPolicy, d.zset).Keys, d.queue, d.stack)
  }

  /** The key object of a command, if it has one, is of the canonical class and has the
      bytes of its content. */
  predicate KeyOk(cmd: Cmd, image: string) {
    KeyOf(cmd).Some? ==> CanonicalKey(Key(KeyOf(cmd).value, image))
  }

  lemma RepOfCanonical<V>(p: Policy<Key>, m: map<Key, V>, k: Key)
    requires KeyLike(p) && CanonicalKey(k) && forall s :: s in m ==> CanonicalKey(s)
    ensures Rep(p, m, k) == if k in m then Some(k) else None
  {
  }

  /** Among canonical keys a key is known by its content. */
  lemma SameByContent<V>(m: map<Key, V>, k: Key)
    requires CanonicalKey(k) && forall s :: s in m ==> CanonicalKey(s)
    ensures k in m <==> k.obj in ByContent(m)
    ensures k in m ==> ByContent(m)[k.obj] == m[k]
  {
    hide Image, Canonical;
  }

  lemma ContentPut<V>(m: map<Key, V>, k: Key, v: V)
    requires CanonicalKey(k) && forall s :: s in m ==> CanonicalKey(s)
    ensures ByContent(m[k := v]) == ByContent(m)[k.obj := v]
  {
    hide Image, Canonical;
    assert Contents(m[k := v].Keys) == Contents(m.Keys) + {k.obj};
  }

  lemma ContentRemove<V>(m: map<Key, V>, k: Key)
    requires CanonicalKey(k) && forall s :: s in m ==> CanonicalKey(s)
    ensures ByContent(m - {k}) == ByContent(m) - {k.obj}
  {
    hide Image, Canonical;
    forall s | s in m ensures s.obj == k.obj <==> s == k {
    }
    assert Contents((m - {k}).Keys) == Contents(m.Keys) - {k.obj};
  }

  /** Table operations under a key-like policy are the plain map operations. */
  lemma MapGet<V>(p: Policy<Key>, t: Table<Key, V>, k: Key)
    requires KeyLike(p) && WellFormed(p, CanonicalKey, t) && CanonicalKey(k)
    ensures var m := Abs(p, CanonicalKey, t); Buckets.Get(p, t, k) == if k in m then Some(m[k]) else None
  {
    AbsGet(p, CanonicalKey, t, k);
    RepOfCanonical(p, Abs(p, CanonicalKey, t), k);
  }

  lemma MapInsert<V>(p: Policy<Key>, t: Table<Key, V>, k: Key, v: V)
    requires KeyLike(p) && WellFormed(p, CanonicalKey, t) && CanonicalKey(k)
    ensures WellFormed(p, CanonicalKey, Insert(p, t, k, v))
    ensures Abs(p, CanonicalKey, Insert(p, t, k, v)) == Abs(p, CanonicalKey, t)[k := v]
  {
    AbsGrown(p, CanonicalKey, t);
    AbsPut(p, CanonicalKey, Grown(p, t), k, v);
    RepOfCanonical(p, Abs(p, CanonicalKey, t), k);
  }

  lemma MapTryInsert(p: Policy<Key>, t: Table<Key, ()>, k: Key)
    requires KeyLike(p) && WellFormed(p, CanonicalKey, t) && CanonicalKey(k)
    ensures WellFormed(p, CanonicalKey, TryInsert(p, t, k, ()))
    ensures Abs(p, CanonicalKey, TryInsert(p, t, k, ())).Keys == Abs(p, CanonicalKey, t).Keys + {k}
  {
    AbsGrown(p, CanonicalKey, t);
    MapGet(p, Grown(p, t), k);
    AbsPut(p, CanonicalKey, Grown(p, t), k, ());
    RepOfCanonical(p, Abs(p, CanonicalKey, t), k);
  }

  lemma MapDelete<V>(p: Policy<Key>, t: Table<Key, V>, k: Key)
    requires KeyLike(p) && WellFormed(p, CanonicalKey, t) && CanonicalKey(k)
    ensures WellFormed(p, CanonicalKey, Delete(p, t, k))
    ensures Abs(p, CanonicalKey, Delete(p, t, k)) == Abs(p, CanonicalKey, t) - {k}
  {
    AbsDelete(p, CanonicalKey, t, k);
    RepOfCanonical(p, Abs(p, CanonicalKey, t), k);
  }

  // ... and, by the contents of the keys:

  lemma PlainGet<V>(p: Policy<Key>, t: Table<Key, V>, k: Key)
    requires KeyLike(p) && WellFormed(p, CanonicalKey, t) && CanonicalKey(k)
    ensures var m := Content(p, t); Buckets.Get(p, t, k) == if k.obj in m then Some(m[k.obj]) else None
  {
    hide CanonicalKey, WellFormed, Buckets.Get, Abs, Lawful, ByContent;
    MapGet(p, t, k);
    SameByContent(Abs(p, CanonicalKey, t), k);
  }

  lemma PlainInsert<V>(p: Policy<Key>, t: Table<Key, V>, k: Key, v: V)
    requires KeyLike(p) && WellFormed(p, CanonicalKey, t) && CanonicalKey(k)
    ensures WellFormed(p, CanonicalKey, Insert(p, t, k, v))
    ensures Content(p, Insert(p, t, k, v)) == Content(p, t)[k.obj := v]
  {
    hide CanonicalKey, WellFormed, Insert, Abs, Lawful, ByContent;
    MapInsert(p, t, k, v);
    ContentPut(Abs(p, CanonicalKey, t), k, v);
  }

  lemma PlainTryInsert(p: Policy<Key>, t: Table<Key, ()>, k: Key)
    requires KeyLike(p) && WellFormed(p, CanonicalKey, t) && CanonicalKey(k)
    ensures WellFormed(p, CanonicalKey, TryInsert(p, t, k, ()))
    ensures Content(p, TryInsert(p, t, k, ())).Keys == Content(p, t).Keys + {k.obj}
  {
    hide CanonicalKey, WellFormed, TryInsert, Abs, Lawful, ByContent;
    MapTryInsert(p, t, k);
    assert Contents(Abs(p, CanonicalKey, t).Keys + {k}) == Contents(Abs(p, CanonicalKey, t).Keys) + {k.obj};
  }

  lemma PlainDelete<V>(p: Policy<Key>, t: Table<Key, V>, k: Key)
    requires KeyLike(p) && WellFormed(p, CanonicalKey, t) && CanonicalKey(k)
    ensures WellFormed(p, CanonicalKey, Delete(p, t, k))
    ensures Content(p, Delete(p, t, k)) == Content(p, t) - {k.obj}
  {
    hide CanonicalKey, WellFormed, Delete, Abs, Lawful, ByContent;
    MapDelete(p, t, k);
    ContentRemove(Abs(p, CanonicalKey, t), k);
  }

  /** One data command: tables, linked queue and vector do what map, set, queue and
      stack do, and give the same answer. */
  lemma DbRefines(d: Db, image: string, cmd: Cmd)
    requires GoodDb(d) && IsData(cmd) && KeyOk(cmd, image)
    ensures GoodDb(DbExec(d, image, cmd).0)
    ensures AbsDbExec(AbsOf(d), cmd) == (AbsOf(DbExec(d, image, cmd).0), DbExec(d, image, cmd).1)
  {
    hide Content, WellFormed, KeyLike, CanonicalKey;
    match cmd
    case Set(k, v) => PlainInsert(d.dictPolicy, d.dict, Key(k, image), v);
    case Get(k) => PlainGet(d.dictPolicy, d.dict, Key(k, image));
    case Del(k) =>
      PlainGet(d.dictPolicy, d.dict, Key(k, image));
      PlainDelete(d.dictPolicy, d.dict, Key(k, image));
    case ZSet(v) => PlainTryInsert(d.setPolicy, d.zset, Key(v, image));
    case ZHas(v) => PlainGet(d.setPolicy, d.zset, Key(v, image));
    case ZDel(v) =>
      PlainGet(d.setPolicy, d.zset, Key(v, image));
      PlainDelete(d.setPolicy, d.zset, Key(v, image));
    case _ =>
  }

  // ------------------------------------------------------------------ commands

  datatype AbsOutcome = AbsOutcome(store: AbsStore, session: Session, answer: AbsAnswer)

  ghost function AbsKeys(s: AbsStore, db: nat): AbsAnswer
    requires db < |s.dbs|
  {
    var n := |s.dbs[db].dict|;
    if n == 0 then Plain(NONE) else KeySet(n, s.dbs[0].dict.Keys)
  }

  ghost function AbsDispatch(cfg: Config, env: Env, s: AbsStore, c: Session, cmd: Cmd): AbsOutcome
    requires c.db < |s.dbs|
  {
    if IsData(cmd) then
      var (d, a) := AbsDbExec(s.dbs[c.db], cmd);
      AbsOutcome(s.(dbs := s.dbs[c.db := d]), c, Plain(a))
    else
      match cmd
      case Okc => AbsOutcome(s, c, Plain(Silent))
      case Ping => AbsOutcome(s, c, Plain(Simple("PONG")))
      case Auth(u, p) =>
        if Accepts(cfg.users, u, p) then AbsOutcome(s, c.(authed := true), Plain(OK))
        else AbsOutcome(s, c, Plain(Fault("failed to authenticate")))
      case Infoc => AbsOutcome(s, c, Plain(Report(InfoPairs(cfg, env, s.executed, |s.dbs|))))
      case Select(n) =>
        if 0 <= n < |s.dbs| then AbsOutcome(s, c.(db := n), Plain(OK))
        else AbsOutcome(s, c, Plain(Fault("EDBRANGE")))
      case Keys => AbsOutcome(s, c, AbsKeys(s, c.db))
      case _ => AbsOutcome(s, c, Plain(EINVCMD))
  }

  predicate AbsCounted(cmd: Cmd, a: AbsAnswer) {
    a.KeySet? || Counted(cmd, a.answer)
  }

  ghost function AbsExec(cfg: Config, env: Env, s: AbsStore, c: Session, cmd: Cmd): AbsOutcome
    requires c.db < |s.dbs|
  {
    if cmd.Illegal? then AbsOutcome(s, c, Plain(EINVCMD))
    else if !c.authed && !cmd.Auth? then AbsOutcome(s, c, Plain(Fault("EUNAUTHED")))
    else AbsTally(cmd, AbsDispatch(cfg, env, s, c, cmd))
  }

  ghost function AbsTally(cmd: Cmd, o: AbsOutcome): AbsOutcome {
    if AbsCounted(cmd, o.answer) then o.(store := o.store.(executed := Next(o.store.executed))) else o
  }

  /** The concrete answer is one the abstraction allows. */
  ghost predicate Matches(a: Answer, b: AbsAnswer) {
    match b
    case Plain(answer) => a == answer
    case KeySet(n, keys) =>
      a.Listing? && a.declared == n && |a.items| == |keys| && multiset(a.items) == multiset(keys)
  }

  ghost predicate GoodStore(s: Store) {
    ValidStore(s) && forall i :: 0 <= i < |s.dbs| ==> GoodDb(s.dbs[i])
  }

  ghost function AbsStoreOf(s: Store): AbsStore
    requires GoodStore(s)
  {
    AbsStore(seq(|s.dbs|, i requires 0 <= i < |s.dbs| => AbsOf(s.dbs[i])), s.executed)
  }

  /** KEYS lists each key of the first database exactly once. */
  lemma KeysMatch(s: Store, db: nat)
    requires GoodStore(s) && db < |s.dbs|
    ensures Matches(KeysAnswer(s.dbs, db), AbsKeys(AbsStoreOf(s), db))
  {
    hide GoodDb, AbsOf, KeysListed;
    KeysListedOnce(s.dbs[db]);
    KeysListedOnce(s.dbs[0]);
  }

  /** The answer lists these keys, or says that there are none. */
  ghost predicate Lists(a: Answer, keys: set<Obj>) {
    if keys == {} then a == NONE
    else a.Listing? && a.declared == |a.items| && multiset(a.items) == multiset(keys)
  }

  /** KEYS lists the keys of the client's own database exactly when that is empty or has
      the same keys as the first one. */
  lemma KeysAreOwn(s: Store, db: nat)
    requires GoodStore(s) && db < |s.dbs|
    ensures var own, first := AbsOf(s.dbs[db]).dict.Keys, AbsOf(s.dbs[0]).dict.Keys;
      Lists(KeysAnswer(s.dbs, db), own) <==> own == {} || own == first
  {
    hide GoodDb, AbsOf, KeysListed;
    var own, first := AbsOf(s.dbs[db]).dict.Keys, AbsOf(s.dbs[0]).dict.Keys;
    KeysListedOnce(s.dbs[db]);
    KeysListedOnce(s.dbs[0]);
    SameSize(KeysListed(s.dbs[0]), first);
    if multiset(own) == multiset(first) {
      SameSet(own, first);
    }
  }

  lemma SameSet(a: set<Obj>, b: set<Obj>)
    requires multiset(a) == multiset(b)
    ensures a == b
  {
    forall x ensures x in a <==> x in b {
      assert x in multiset(a) <==> x in a;
      assert x in multiset(b) <==> x in b;
    }
  }

  lemma KeysListedOnce(d: Db)
    requires GoodDb(d)
    ensures var keys := AbsOf(d).dict.Keys;
      Count(d.dict) == |keys| && multiset(KeysListed(d)) == multiset(keys)
  {
    var p := d.dictPolicy;
    AbsDefined(p, CanonicalKey, d.dict);
    FlatUnique(p, CanonicalKey, d.dict, 0);
    ListedOnce(p, Flat(d.dict));
    assert Abs(p, CanonicalKey, d.dict).Keys == KeysOf(Flat(d.dict));
    SameSize(KeysListed(d), AbsOf(d).dict.Keys);
  }

  lemma SameSize(items: seq<Obj>, keys: set<Obj>)
    requires multiset(items) == multiset(keys)
    ensures |items| == |keys|
  {
    assert |multiset(items)| == |items| && |multiset(keys)| == |keys|;
  }

  lemma {:induction false} ListedOnce(p: Policy<Key>, es: Chain<Key, Obj>)
    requires KeyLike(p) && AllOk(CanonicalKey, es) && Unique(p, es)
    ensures multiset(ObjectsOf(es)) == multiset(Contents(KeysOf(es)))
  {
    if es == [] {
      assert Contents(KeysOf(es)) == {};
    } else {
      var n := |es| - 1;
      var init, k := es[..n], es[n].key;
      ListedOnce(p, init);
      assert ObjectsOf(es) == ObjectsOf(init) + [k.obj];
      KeysOfConcat(init, [es[n]]);
      assert es == init + [es[n]];
      assert [es[n]][0].key == k;
      assert KeysOf(es) == KeysOf(init) + {k};
      assert Contents(KeysOf(es)) == Contents(KeysOf(init)) + {k.obj};
      assert k.obj !in Contents(KeysOf(init));
    }
  }

  ghost predicate Agree(o: Outcome, a: AbsOutcome) {
    GoodStore(o.store) && o.session == a.session && AbsStoreOf(o.store) == a.store && Matches(o.answer, a.answer)
  }

  /** The outcome is the abstract one, and counts like it. */
  ghost predicate Refines(cmd: Cmd, o: Outcome, a: AbsOutcome) {
    Agree(o, a) && Counted(cmd, o.answer) == AbsCounted(cmd, a.answer)
  }

  lemma DispatchIsData(cfg: Config, env: Env, s: Store, c: Session, cmd: Cmd)
    requires ValidStore(s) && c.db < |s.dbs| && IsData(cmd)
    ensures var (d, a) := DbExec(s.dbs[c.db], env.image, cmd);
      Dispatch(cfg, env, s, c, cmd) == Outcome(s.(dbs := s.dbs[c.db := d]), c, a)
  {
    hide DbExec, ValidDb, Accepts, InfoPairs, KeysAnswer;
  }

  lemma DataRefines(cfg: Config, env: Env, s: Store, c: Session, cmd: Cmd)
    requires GoodStore(s) && c.db < |s.dbs| && KeyOk(cmd, env.image) && IsData(cmd)
    ensures Refines(cmd, Dispatch(cfg, env, s, c, cmd), AbsDispatch(cfg, env, AbsStoreOf(s), c, cmd))
  {
    hide GoodDb, AbsOf, Dispatch, DbExec, AbsDbExec, KeyOk, Counted, InfoPairs, Accepts, KeysAnswer, AbsKeys;
    DbRefines(s.dbs[c.db], env.image, cmd);
    DispatchIsData(cfg, env, s, c, cmd);
    AbsStoreUpdate(s, c.db, DbExec(s.dbs[c.db], env.image, cmd).0);
  }

  lemma AbsStoreUpdate(s: Store, i: nat, d: Db)
    requires GoodStore(s) && i < |s.dbs| && GoodDb(d)
    ensures var s' := s.(dbs := s.dbs[i := d]);
      GoodStore(s') && AbsStoreOf(s') == AbsStoreOf(s).(dbs := AbsStoreOf(s).dbs[i := AbsOf(d)])
  {
    hide AbsOf;
    assert AbsStoreOf(s.(dbs := s.dbs[i := d])).dbs == AbsStoreOf(s).dbs[i := AbsOf(d)];
  }

  lemma AbsStoreCount(s: Store, n: nat)
    requires GoodStore(s)
    ensures GoodStore(s.(executed := n)) && AbsStoreOf(s.(executed := n)) == AbsStoreOf(s).(executed := n)
  {
    hide GoodDb, AbsOf;
  }

  lemma PlainRefines(cfg: Config, env: Env, s: Store, c: Session, cmd: Cmd)
    requires GoodStore(s) && c.db < |s.dbs| && !IsData(cmd) && !cmd.Keys? && !cmd.Illegal?
    ensures Refines(cmd, Dispatch(cfg, env, s, c, cmd), AbsDispatch(cfg, env, AbsStoreOf(s), c, cmd))
  {
    hide GoodDb, AbsOf, DbExec, AbsDbExec, InfoPairs, Accepts;
    if cmd.Select? {
      assert cmd.db % UINT64 == if cmd.db >= 0 then cmd.db else cmd.db + UINT64;
    }
  }

  lemma KeysRefines(cfg: Config, env: Env, s: Store, c: Session)
    requires GoodStore(s) && c.db < |s.dbs|
    ensures Refines(Keys, Dispatch(cfg, env, s, c, Keys), AbsDispatch(cfg, env, AbsStoreOf(s), c, Keys))
  {
    hide GoodDb, AbsOf, DbExec, AbsDbExec;
    KeysMatch(s, c.db);
  }

  lemma DispatchRefines(cfg: Config, env: Env, s: Store, c: Session, cmd: Cmd)
    requires GoodStore(s) && c.db < |s.dbs| && KeyOk(cmd, env.image) && !cmd.Illegal?
    ensures Refines(cmd, Dispatch(cfg, env, s, c, cmd), AbsDispatch(cfg, env, AbsStoreOf(s), c, cmd))
  {
    hide *;
    if IsData(cmd) {
      DataRefines(cfg, env, s, c, cmd);
    } else if cmd.Keys? {
      KeysRefines(cfg, env, s, c);
    } else {
      PlainRefines(cfg, env, s, c, cmd);
    }
  }

  lemma TallyAgrees(cmd: Cmd, o: Outcome, a: AbsOutcome)
    requires Refines(cmd, o, a)
    ensures Agree(Tally(cmd, o), AbsTally(cmd, a))
  {
    AbsStoreCount(o.store, Next(o.store.executed));
    hide Counted, AbsCounted, Matches, GoodStore;
  }

  /** One command refines its abstraction: same session, same abstract databases,
      same counter, and an answer the abstraction allows. */
  lemma ExecRefines(cfg: Config, env: Env, s: Store, c: Session, cmd: Cmd)
    requires GoodStore(s) && c.db < |s.dbs| && KeyOk(cmd, env.image)
    ensures Agree(Exec(cfg, env, s, c, cmd), AbsExec(cfg, env, AbsStoreOf(s), c, cmd))
  {
    if !cmd.Illegal? && (c.authed || cmd.Auth?) {
      DispatchRefines(cfg, env, s, c, cmd);
      TallyAgrees(cmd, Dispatch(cfg, env, s, c, cmd), AbsDispatch(cfg, env, AbsStoreOf(s), c, cmd));
      hide Agree, Dispatch, AbsDispatch, Tally, AbsTally, GoodDb;
    }
  }

  // ---------------------------------------------------------------------- runs

  datatype World = World(store: Store, sessions: map<nat, Session>)

  datatype Event = Connect(fd: nat) | Disconnect(fd: nat) | Request(fd: nat, env: Env, cmd: Cmd)

  predicate ValidWorld(w: World) {
    ValidStore(w.store) && forall fd :: fd in w.sessions ==> w.sessions[fd].db < |w.store.dbs|
  }

  /** One event; a request of an unknown client is dropped. */
  function Step(cfg: Config, w: World, e: Event): (r: (World, Answer))
    requires ValidWorld(w)
    ensures ValidWorld(r.0) && |r.0.store.dbs| == |w.store.dbs|
  {
    match e
    case Connect(fd) => (w.(sessions := w.sessions[fd := NEW_SESSION]), Silent)
    case Disconnect(fd) => (w.(sessions := w.sessions - {fd}), Silent)
    case Request(fd, env, cmd) =>
      if fd !in w.sessions then (w, Silent)
      else
        var o := Exec(cfg, env, w.store, w.sessions[fd], cmd);
        (World(o.store, w.sessions[fd := o.session]), o.answer)
  }

  function Run(cfg: Config, w: World, es: seq<Event>): (r: (World, seq<Answer>))
    requires ValidWorld(w)
    ensures ValidWorld(r.0) && |r.1| == |es|
    decreases |es|
  {
    if es == [] then (w, [])
    else
      var (w', a) := Step(cfg, w, es[0]);
      var (end, answers) := Run(cfg, w', es[1..]);
      (end, [a] + answers)
  }

  datatype AbsWorld = AbsWorld(store: AbsStore, sessions: map<nat, Session>)

  ghost predicate ValidAbsWorld(w: AbsWorld) {
    0 < |w.store.dbs| && forall fd :: fd in w.sessions ==> w.sessions[fd].db < |w.store.dbs|
  }

  ghost function AbsStep(cfg: Config, w: AbsWorld, e: Event): (r: (AbsWorld, AbsAnswer))
    requires ValidAbsWorld(w)
    ensures ValidAbsWorld(r.0)
  {
    match e
    case Connect(fd) => (w.(sessions := w.sessions[fd := NEW_SESSION]), Plain(Silent))
    case Disconnect(fd) => (w.(sessions := w.sessions - {fd}), Plain(Silent))
    case Request(fd, env, cmd) =>
      if fd !in w.sessions then (w, Plain(Silent))
      else
        var o := AbsExec(cfg, env, w.store, w.sessions[fd], cmd);
        (AbsWorld(o.store, w.sessions[fd := o.session]), o.answer)
  }

  ghost function AbsRun(cfg: Config, w: AbsWorld, es: seq<Event>): (r: (AbsWorld, seq<AbsAnswer>))
    requires ValidAbsWorld(w)
    ensures |r.1| == |es|
    decreases |es|
  {
    if es == [] then (w, [])
    else
      var (w', a) := AbsStep(cfg, w, es[0]);
      var (end, answers) := AbsRun(cfg, w', es[1..]);
      (end, [a] + answers)
  }

  ghost predicate GoodWorld(w: World) {
    ValidWorld(w) && GoodStore(w.store)
  }

  ghost function AbsWorldOf(w: World): (a: AbsWorld)
    requires GoodWorld(w)
    ensures ValidAbsWorld(a)
  {
    AbsWorld(AbsStoreOf(w.store), w.sessions)
  }

  predicate KeysOk(es: seq<Event>) {
    forall i :: 0 <= i < |es| ==> es[i].Request? ==> KeyOk(es[i].cmd, es[i].env.image)
  }

  /** Whole-run refinement: for every interleaving of the clients' commands the hash
      tables, queues and vectors behave as maps, sets, FIFO and LIFO sequences, and
      every answer is the abstract one. */
  lemma {:induction false} RunRefines(cfg: Config, w: World, es: seq<Event>)
    requires GoodWorld(w) && KeysOk(es)
    ensures GoodWorld(Run(cfg, w, es).0)
    ensures AbsRun(cfg, AbsWorldOf(w), es).0 == AbsWorldOf(Run(cfg, w, es).0)
    ensures forall i :: 0 <= i < |es| ==> Matches(Run(cfg, w, es).1[i], AbsRun(cfg, AbsWorldOf(w), es).1[i])
    decreases |es|
  {
    if es != [] {
      StepRefines(cfg, w, es[0]);
      RunRefines(cfg, Step(cfg, w, es[0]).0, es[1..]);
    }
  }

  lemma StepRefines(cfg: Config, w: World, e: Event)
    requires GoodWorld(w) && (e.Request? ==> KeyOk(e.cmd, e.env.image))
    ensures GoodWorld(Step(cfg, w, e).0)
    ensures AbsStep(cfg, AbsWorldOf(w), e).0 == AbsWorldOf(Step(cfg, w, e).0)
    ensures Matches(Step(cfg, w, e).1, AbsStep(cfg, AbsWorldOf(w), e).1)
  {
    if e.Request? && e.fd in w.sessions {
      ExecRefines(cfg, e.env, w.store, w.sessions[e.fd], e.cmd);
    }
  }

  // ---------------------------------------------------------- isolation and auth

  /** A step touches at most one database: the one its client has selected, and only
      for a data command of an authenticated client. Other clients' sessions stay. */
  lemma Isolation(cfg: Config, w: World, e: Event, i: nat)
    requires ValidWorld(w) && i < |w.store.dbs|
    ensures var w' := Step(cfg, w, e).0;
      w'.store.dbs[i] != w.store.dbs[i] ==>
        e.Request? && e.fd in w.sessions && w.sessions[e.fd].authed && w.sessions[e.fd].db == i && IsData(e.cmd)
    ensures forall fd :: fd != e.fd ==>
      (fd in Step(cfg, w, e).0.sessions <==> fd in w.sessions)
      && (fd in w.sessions ==> Step(cfg, w, e).0.sessions[fd] == w.sessions[fd])
  {
  }

  ghost predicate Authed(w: World, fd: nat) {
    fd in w.sessions && w.sessions[fd].authed
  }

  /** Event `i` of the run logs client `fd` in, and it has not reconnected since. */
  ghost predicate LoggedIn(cfg: Config, es: seq<Event>, fd: nat, i: nat) {
    i < |es| && es[i].Request? && es[i].fd == fd && es[i].cmd.Auth?
    && Accepts(cfg.users, es[i].cmd.username, es[i].cmd.password)
    && forall j :: i < j < |es| ==> es[j] != Connect(fd) && es[j] != Disconnect(fd)
  }

  lemma {:induction false} RunSnoc(cfg: Config, w: World, es: seq<Event>, e: Event)
    requires ValidWorld(w)
    ensures Run(cfg, w, es + [e]).0 == Step(cfg, Run(cfg, w, es).0, e).0
    ensures Run(cfg, w, es + [e]).1 == Run(cfg, w, es).1 + [Step(cfg, Run(cfg, w, es).0, e).1]
    decreases |es|
  {
    if es == [] {
      assert [e][1..] == [];
      assert es + [e] == [e];
    } else {
      assert (es + [e])[1..] == es[1..] + [e];
      RunSnoc(cfg, Step(cfg, w, es[0]).0, es[1..], e);
    }
  }

  lemma StepAuth(cfg: Config, w: World, e: Event, fd: nat)
    requires ValidWorld(w) && Authed(Step(cfg, w, e).0, fd)
    ensures e != Connect(fd) && e != Disconnect(fd)
    ensures Authed(w, fd) || (e.Request? && e.fd == fd && e.cmd.Auth?
      && Accepts(cfg.users, e.cmd.username, e.cmd.password))
  {
  }

  /** Over any run that starts with no clients, a client counts as authenticated only
      after an AUTH of its own that was accepted on the same connection. */
  lemma {:induction false} AuthedOnlyAfterAuth(cfg: Config, w: World, es: seq<Event>, fd: nat)
    requires ValidWorld(w) && w.sessions == map[] && Authed(Run(cfg, w, es).0, fd)
    ensures exists i :: LoggedIn(cfg, es, fd, i)
    decreases |es|
  {
    var n := |es| - 1;
    RunLast(cfg, w, es);
    hide Run, Step, Accepts;
    var before := Run(cfg, w, es[..n]).0;
    StepAuth(cfg, before, es[n], fd);
    if Authed(before, fd) {
      AuthedOnlyAfterAuth(cfg, w, es[..n], fd);
      var i :| LoggedIn(cfg, es[..n], fd, i);
      StillLoggedIn(cfg, es, fd, i);
    } else {
      assert LoggedIn(cfg, es, fd, n);
    }
  }

  lemma StillLoggedIn(cfg: Config, es: seq<Event>, fd: nat, i: nat)
    requires es != [] && LoggedIn(cfg, es[..|es| - 1], fd, i)
    requires es[|es| - 1] != Connect(fd) && es[|es| - 1] != Disconnect(fd)
    ensures LoggedIn(cfg, es, fd, i)
  {
    hide Accepts;
    var init := es[..|es| - 1];
    assert init[i] == es[i];
    forall j | i < j < |es| ensures es[j] != Connect(fd) && es[j] != Disconnect(fd) {
      if j < |es| - 1 {
        assert init[j] == es[j];
      }
    }
  }

  lemma RunLast(cfg: Config, w: World, es: seq<Event>)
    requires ValidWorld(w)
    ensures es == [] ==> Run(cfg, w, es).0 == w
    ensures es != [] ==>
      var (before, answers) := Run(cfg, w, es[..|es| - 1]);
      Run(cfg, w, es) == (Step(cfg, before, es[|es| - 1]).0, answers + [Step(cfg, before, es[|es| - 1]).1])
  {
    if es != [] {
      var n := |es| - 1;
      assert es == es[..n] + [es[n]];
      RunSnoc(cfg, w, es[..n], es[n]);
    }
  }

  /** Auth gating: whenever an event of such a run changes a database, its client had
      logged in before, on that connection. */
  lemma AuthGate(cfg: Config, w: World, es: seq<Event>, e: Event, db: nat)
    requires ValidWorld(w) && w.sessions == map[]
    requires db < |Run(cfg, w, es).0.store.dbs|
    requires Step(cfg, Run(cfg, w, es).0, e).0.store.dbs[db] != Run(cfg, w, es).0.store.dbs[db]
    ensures e.Request? && exists i :: LoggedIn(cfg, es, e.fd, i)
  {
    var w1 := Run(cfg, w, es).0;
    Isolation(cfg, w1, e, db);
    AuthedOnlyAfterAuth(cfg, w, es, e.fd);
  }

  /** SELECT takes exactly the numbers of databases: negative ones are refused with
      the large ones, and a refusal changes nothing. */
  lemma SelectInRange(cfg: Config, env: Env, s: Store, c: Session, n: int64)
    requires ValidStore(s) && c.db < |s.dbs| && c.authed
    ensures Exec(cfg, env, s, c, Select(n)) ==
      if 0 <= n < |s.dbs| then Outcome(s, c.(db := n), OK) else Outcome(s, c, Fault("EDBRANGE"))
  {
  }
}
