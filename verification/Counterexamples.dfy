/** Runs of a started server that go wrong: the conditions of the theorems about whole
    runs exclude something that happens. */
module Counterexamples {
  import opened Objects
  import opened Wire
  import opened Commands
  import opened Buckets
  import opened Keys
  import opened RequestKeys
  import opened Auths
  import opened DatabaseArrays
  import opened ServerSpec
  import opened ServerRuns
  import opened ServerReplies
  import opened Events
  import opened Sending
  import opened Ledgers
  import opened Sequences
  import opened Whole

  // ---------------------------------------------------------- a mislisted reply

  /** Connecting, logging in, selecting database 1 and setting one key there. */
  function OneKeyInSecond(fd: nat, user: Obj, password: Obj): seq<Event> {
    var env := Env(Image(Int(0)), 1, 0);
    [Connect(fd), Event.Request(fd, env, Auth(user, password)), Event.Request(fd, env, Select(1)),
     Event.Request(fd, env, Set(Int(0), Int(0)))]
  }

  lemma ZeroCanonical()
    ensures CanonicalKey(Key(Int(0), Image(Int(0))))
  {
  }

  lemma OneKey(s: Seeds)
    ensures Count(EmptyDb(s).dict) == 0
    ensures Count(DbExec(EmptyDb(s), Image(Int(0)), Set(Int(0), Int(0))).0.dict) == 1
  {
    hide KeyPolicy, Lawful, WellFormed, CanonicalKey, Image, TableRuns.Abs, Count;
    var p, t, k := KeyPolicy(s.dict), EmptyDb(s).dict, Key(Int(0), Image(Int(0)));
    EmptyGood(s);
    ZeroCanonical();
    TableRuns.AbsSize(p, CanonicalKey, t);
    MapInsert(p, t, k, Int(0));
    TableRuns.AbsSize(p, CanonicalKey, Insert(p, t, k, Int(0)));
  }

  lemma LoginStep(cfg: Config, w: World, e: Event)
    requires ValidWorld(w) && e.Request? && e.fd in w.sessions && e.cmd.Auth?
    requires Accepts(cfg.users, e.cmd.username, e.cmd.password)
    ensures Step(cfg, w, e).0 == w.(sessions := w.sessions[e.fd := w.sessions[e.fd].(authed := true)])
  {
    hide Accepts, ValidDb, DbExec;
  }

  lemma SelectStep(cfg: Config, w: World, e: Event)
    requires ValidWorld(w) && e.Request? && e.fd in w.sessions && w.sessions[e.fd].authed && e.cmd.Select?
    requires 0 <= e.cmd.db < |w.store.dbs|
    ensures Step(cfg, w, e).0 == w.(sessions := w.sessions[e.fd := w.sessions[e.fd].(db := e.cmd.db)])
  {
    hide Exec, ValidDb;
    SelectInRange(cfg, e.env, w.store, w.sessions[e.fd], e.cmd.db);
  }

  lemma SetStep(cfg: Config, w: World, e: Event)
    requires ValidWorld(w) && e.Request? && e.fd in w.sessions && w.sessions[e.fd].authed && e.cmd.Set?
    ensures var i := w.sessions[e.fd].db; var next := Step(cfg, w, e).0;
      next.store.dbs == w.store.dbs[i := DbExec(w.store.dbs[i], e.env.image, e.cmd).0] && next.sessions == w.sessions
  {
    hide DbExec, ValidDb, Accepts, InfoPairs, KeysAnswer;
  }

  lemma FourSteps(cfg: Config, w: World, a: Event, b: Event, c: Event, d: Event)
    requires ValidWorld(w)
    ensures Run(cfg, w, [a, b, c, d]).0 == Step(cfg, Step(cfg, Step(cfg, Step(cfg, w, a).0, b).0, c).0, d).0
  {
    hide Step, ValidWorld, Run;
    RunSnoc(cfg, w, [a, b, c], d);
    RunSnoc(cfg, w, [a, b], c);
    RunSnoc(cfg, w, [a], b);
    RunSnoc(cfg, w, [], a);
    RunLast(cfg, w, []);
    assert [a, b, c] + [d] == [a, b, c, d] && [a, b] + [c] == [a, b, c] && [a] + [b] == [a, b] && [] + [a] == [a];
  }

  /** The state after those four requests: nothing in database 0, one key in database 1. */
  lemma OneKeyRun(cfg: Config, seeds: seq<Seeds>, fd: nat, user: Obj, password: Obj)
    requires 2 <= |seeds| <= MAX_DATABASES && Accepts(cfg.users, user, password)
    ensures ValidWorld(StartWorld(seeds))
    ensures var w := Run(cfg, StartWorld(seeds), OneKeyInSecond(fd, user, password)).0;
      fd in w.sessions && w.sessions[fd] == Session(true, 1)
      && w.store.dbs == EmptyDbs(seeds)[1 := DbExec(EmptyDb(seeds[1]), Image(Int(0)), Set(Int(0), Int(0))).0]
  {
    hide Accepts, EmptyDb, DbExec, Image, ValidDb, ValidStore, Step, Run;
    StartGood(seeds);
    var w, es := StartWorld(seeds), OneKeyInSecond(fd, user, password);
    FourSteps(cfg, w, es[0], es[1], es[2], es[3]);
    assert es == [es[0], es[1], es[2], es[3]];
    ConnectStep(cfg, w, fd);
    var w1 := Step(cfg, w, es[0]).0;
    LoginStep(cfg, w1, es[1]);
    var w2 := Step(cfg, w1, es[1]).0;
    SelectStep(cfg, w2, es[2]);
    SetStep(cfg, Step(cfg, w2, es[2]).0, es[3]);
  }

  lemma ConnectStep(cfg: Config, w: World, fd: nat)
    requires ValidWorld(w)
    ensures Step(cfg, w, Connect(fd)).0 == w.(sessions := w.sessions[fd := NEW_SESSION])
  {
  }

  /** KEYS can be mislisted: on a started server with two databases and a user, four
      requests lead to a KEYS that declares one key and lists none, which the client
      reads as a list of one null. */
  lemma SomeMislisted(conv: string -> int64, cfg: Config, seeds: seq<Seeds>,
                      fd: nat, user: Obj, password: Obj, env: Env)
    requires Exact(conv) && 2 <= |seeds| <= MAX_DATABASES && Accepts(cfg.users, user, password)
    ensures ValidWorld(StartWorld(seeds))
    ensures var es, last := OneKeyInSecond(fd, user, password), Event.Request(fd, env, Cmd.Keys);
      var a := Step(cfg, Run(cfg, StartWorld(seeds), es).0, last).1;
      fd in Misled(cfg, StartWorld(seeds), es + [last])
      && a == Listing(1, []) && ParseObject(conv, Bytes(a)) == Parsed(Array([Null]), "")
  {
    hide Accepts, EmptyDb, DbExec, Image, ValidWorld, ValidStore, Run, Step;
    hide ParseObject, Exact, OneKeyInSecond, MisledBy;
    var es, last := OneKeyInSecond(fd, user, password), Event.Request(fd, env, Cmd.Keys);
    OneKeyRun(cfg, seeds, fd, user, password);
    var w := Run(cfg, StartWorld(seeds), es).0;
    OneKey(seeds[0]);
    OneKey(seeds[1]);
    assert (es + [last])[..|es|] == es;
    KeysStep(cfg, w, last, Misled(cfg, StartWorld(seeds), es));
    assert KeysListed(w.store.dbs[0]) == [];
    MislistedReply(conv, 1, []);
    assert NormalAll([]) + Nulls(1) == [Null];
  }

  lemma KeysStep(cfg: Config, w: World, e: Event, misled: set<nat>)
    requires ValidWorld(w) && e.Request? && e.fd in w.sessions && w.sessions[e.fd].authed && e.cmd.Keys?
    ensures Step(cfg, w, e).1 == KeysAnswer(w.store.dbs, w.sessions[e.fd].db)
    ensures Mislisted(w.store, w.sessions[e.fd], e.cmd) ==> e.fd in MisledBy(w, e, misled)
  {
    hide DbExec, ValidDb, Accepts, InfoPairs, KeysAnswer;
  }

  // --------------------------------------------------------------- a torn reply

  const REFUSAL: string := "-EUNAUTHED\r\n"

  lemma ConnectPosted(s: Setting, l: Ledger, fd: nat)
    requires ValidWorld(l.world) && fd < s.numFds && fd !in l.world.sessions
    ensures IoPost(s, l, Connecting(fd)) ==
      Ledger(l.world.(sessions := l.world.sessions[fd := NEW_SESSION]), l.accounts[fd := NEW_ACCOUNT])
  {
  }

  lemma PingRefused(s: Setting, l: Ledger, fd: nat, mask: Mask, heapImage: string, uptime: nat)
    requires ValidWorld(l.world) && fd in l.world.sessions && !l.world.sessions[fd].authed
    requires fd in l.accounts && l.accounts[fd] == NEW_ACCOUNT && Reads(mask)
    ensures var next := IoPost(s, l, Readable(fd, ["+PING\r\n"], WouldBlock, mask, heapImage, uptime));
      fd in next.accounts && next.accounts[fd] == Account(REFUSAL, "", REFUSAL, "")
  {
    hide KeyImage, ValidWorld, ParseCmd, Dispatch, Reads;
    var request := "+PING\r\n";
    PingIs(s.conv);
    assert Joined([request]) == request by {
      assert [request][..0] == [];
      assert "" + request == request;
    }
    assert "" + request == request;
    assert "" + REFUSAL == REFUSAL && EncodeError("EUNAUTHED") == REFUSAL;
  }

  lemma PingIs(conv: string -> int64)
    ensures ParseCmd(conv, "+PING\r\n") == Ping
  {
    hide ParseCmd;
    BareRoundTrip(conv, PingType, "");
    assert EncodeSimple(Name(PingType)) + "" == "+PING\r\n";
  }

  lemma RefusalTorn(k: nat)
    requires 0 < k < |REFUSAL|
    ensures Sent(REFUSAL, 0, [k, |REFUSAL|]) == (REFUSAL[..k] + REFUSAL, true) && !Seamless(REFUSAL, [k, |REFUSAL|])
  {
    var amounts := [k, |REFUSAL|];
    assert amounts[1..] == [|REFUSAL|] && [|REFUSAL|][1..] == [];
    assert Sent(REFUSAL, k, [|REFUSAL|]) == (REFUSAL, true) by {
      assert REFUSAL[..|REFUSAL|] + "" == REFUSAL;
    }
    assert !InPlace(REFUSAL, k, [|REFUSAL|]);
    assert amounts[0] == k;
  }

  lemma RefusalFits(k: nat)
    requires k < |REFUSAL|
    ensures Fits(REFUSAL, [k, |REFUSAL|])
  {
  }

  /** Replies can be torn: a client that has not logged in sends PING, and the first of
      two write calls takes a part of the refusal. The client gets that part twice. */
  lemma SomeTorn(s: Setting, seeds: seq<Seeds>, fd: nat, k: nat, heapImage: string, uptime: nat)
    requires 0 < |seeds| <= MAX_DATABASES && fd < s.numFds && 0 < k < |REFUSAL|
    ensures var ios := [Connecting(fd), Readable(fd, ["+PING\r\n"], WouldBlock, EV_READ, heapImage, uptime),
                        Writable(fd, [k, |REFUSAL|], EV_WRITE)];
      var end := IoPostAll(s, Start(seeds), ios);
      fd in end.accounts && end.accounts[fd] == Account(REFUSAL, "", "", REFUSAL[..k] + REFUSAL)
      && !Balanced(end.accounts[fd]) && !AllUntorn(s, Start(seeds), ios)
  {
    hide Sent, Seamless, IoPost, Fits;
    SingleBits();
    var a, b, c := Connecting(fd), Readable(fd, ["+PING\r\n"], WouldBlock, EV_READ, heapImage, uptime),
      Writable(fd, [k, |REFUSAL|], EV_WRITE);
    StartGood(seeds);
    assert [a, b, c][..2] == [a, b] && [a, b][..1] == [a] && [a][..0] == [];
    var l := Start(seeds);
    ConnectPosted(s, l, fd);
    var l1 := IoPost(s, l, a);
    PingRefused(s, l1, fd, EV_READ, heapImage, uptime);
    var l2 := IoPost(s, l1, b);
    RefusalTorn(k);
    assert IoPostAll(s, l, []) == l;
    assert IoPostAll(s, l, [a]) == l1;
    assert IoPostAll(s, l, [a, b]) == l2;
    RefusalFits(k);
    TornPosted(s, l2, fd, [k, |REFUSAL|], EV_WRITE);
  }

  lemma TornPosted(s: Setting, l: Ledger, fd: nat, amounts: seq<nat>, mask: Mask)
    requires ValidWorld(l.world) && fd in l.accounts && Fits(l.accounts[fd].waiting, amounts)
    requires Sent(l.accounts[fd].waiting, 0, amounts).1 && l.accounts[fd].sent == ""
    ensures var next := IoPost(s, l, Writable(fd, amounts, mask));
      fd in next.accounts
      && next.accounts[fd] == l.accounts[fd].(waiting := "", sent := Sent(l.accounts[fd].waiting, 0, amounts).0)
    ensures !Seamless(l.accounts[fd].waiting, amounts) ==> !Untorn(s, l, Writable(fd, amounts, mask))
  {
    hide Sent, Seamless;
    var bytes := Sent(l.accounts[fd].waiting, 0, amounts).0;
    assert "" + bytes == bytes;
  }
}
