/** The whole server from its start: what all the parts together promise its clients. */
module Whole {
  import opened Objects
  import opened Wire
  import opened Commands
  import opened Buckets
  import opened Keys
  import opened RequestKeys
  import opened DatabaseArrays
  import opened ServerSpec
  import opened ServerRuns
  import opened ServerReplies
  import opened Ledgers
  import opened Histories
  import opened Line
  import opened Sequences
  import opened Servers

  // ------------------------------------------------------------------- the start

  function StartWorld(seeds: seq<Seeds>): World {
    World(Store(EmptyDbs(seeds), 0), map[])
  }

  function Start(seeds: seq<Seeds>): Ledger {
    Ledger(StartWorld(seeds), map[])
  }

  /** `n` empty databases. */
  function AbsStart(n: nat): AbsWorld {
    AbsWorld(AbsStore(seq(n, _ => EMPTY), 0), map[])
  }

  lemma EmptyGood(s: Seeds)
    ensures GoodDb(EmptyDb(s)) && EncodableDb(EmptyDb(s)) && AbsOf(EmptyDb(s)) == EMPTY
  {
    KeysLawful(s.dict);
    KeysLawful(s.zset);
    TableRuns.NewTable<Key, Obj>(KeyPolicy(s.dict), CanonicalKey);
    TableRuns.NewTable<Key, ()>(KeyPolicy(s.zset), CanonicalKey);
    hide Lawful, WellFormed, KeyPolicy, CanonicalKey;
  }

  /** A started server satisfies what the theorems about runs ask of a state, and stands
      for databases that are all empty. */
  lemma StartGood(seeds: seq<Seeds>)
    requires 0 < |seeds| <= MAX_DATABASES
    ensures GoodWorld(StartWorld(seeds)) && EncodableStore(StartWorld(seeds).store)
    ensures AbsWorldOf(StartWorld(seeds)) == AbsStart(|seeds|)
  {
    hide GoodDb, EncodableDb, AbsOf, EmptyDb;
    forall i | 0 <= i < |seeds|
      ensures var d := EmptyDbs(seeds)[i]; GoodDb(d) && EncodableDb(d) && AbsOf(d) == EMPTY && ValidDb(d) {
      EmptyGood(seeds[i]);
      GoodIsValid(EmptyDb(seeds[i]));
    }
    assert AbsStoreOf(StartWorld(seeds).store).dbs == seq(|seeds|, _ => EMPTY);
  }

  lemma GoodIsValid(d: Db)
    requires GoodDb(d)
    ensures ValidDb(d)
  {
  }

  // ------------------------------------------------- requests of the client library

  lemma {:induction false} NormalEncodable(o: Obj)
    requires Encodable(o)
    ensures Encodable(Normal(o))
  {
    match o
    case Array(items) => NormalAllEncodable(items);
    case _ =>
  }

  lemma {:induction false} NormalAllEncodable(items: seq<Obj>)
    requires EncodableAll(items)
    ensures EncodableAll(NormalAll(items))
  {
    if items != [] {
      NormalEncodable(items[0]);
      NormalAllEncodable(items[1..]);
    }
  }

  /** What the client library sends arrives as a command whose arguments can be stored
      and sent back. */
  lemma ClientRequest(conv: string -> int64, c: Cmd, rest: string)
    requires Exact(conv) && ServerBound(c) && EncodableCmd(c)
    ensures EncodableCmd(ParseCmd(conv, Commands.Request(c) + rest))
  {
    hide ParseCmd, Normal, Encodable, Exact, Commands.Request;
    RequestDelivered(conv, c, rest);
    match c
    case Auth(u, p) => NormalEncodable(u); NormalEncodable(p);
    case Set(k, v) => NormalEncodable(k); NormalEncodable(v);
    case Get(k) => NormalEncodable(k);
    case Del(k) => NormalEncodable(k);
    case Push(v) => NormalEncodable(v);
    case Enque(v) => NormalEncodable(v);
    case ZSet(v) => NormalEncodable(v);
    case ZHas(v) => NormalEncodable(v);
    case ZDel(v) => NormalEncodable(v);
    case _ =>
  }

  // ------------------------------------------------------- reading answers back

  ghost predicate AllExact(answers: seq<Answer>) {
    forall a :: a in answers ==> Exactly(a)
  }

  ghost predicate AllSendable(answers: seq<Answer>) {
    forall a :: a in answers ==> Sendable(a)
  }

  function Said(answers: seq<Answer>): string {
    if answers == [] then "" else Said(answers[..|answers| - 1]) + Bytes(answers[|answers| - 1])
  }

  /** What a client makes of its answers: one object each, none for silence. */
  function Heard(answers: seq<Answer>): seq<Obj> {
    if answers == [] then []
    else
      var before, last := Heard(answers[..|answers| - 1]), answers[|answers| - 1];
      if last.Silent? then before else before + [Meaning(last)]
  }

  lemma {:induction false} OneMoreObject(conv: string -> int64, n: nat, r: string)
    ensures var first := ParseObjects(conv, n, r); var last := ParseObject(conv, first.rest);
      ParseObjects(conv, n + 1, r) == Parsed(first.value + [last.value], last.rest)
  {
    hide ParseObject;
    if n == 0 {
      var last := ParseObject(conv, r);
      assert ParseObjects(conv, 0, last.rest) == Parsed([], last.rest);
      assert [last.value] + [] == [] + [last.value];
    } else {
      var o := ParseObject(conv, r);
      OneMoreObject(conv, n - 1, o.rest);
      var others := ParseObjects(conv, n - 1, o.rest);
      var last := ParseObject(conv, others.rest);
      assert [o.value] + (others.value + [last.value]) == ([o.value] + others.value) + [last.value];
    }
  }

  lemma LastExact(answers: seq<Answer>)
    requires answers != []
    ensures AllExact(answers) <==> AllExact(answers[..|answers| - 1]) && Exactly(answers[|answers| - 1])
  {
    var n := |answers| - 1;
    assert answers == answers[..n] + [answers[n]];
  }

  lemma SameSnoc(xs: seq<Obj>, ys: seq<Obj>, x: Obj, y: Obj)
    requires |xs| == |ys|
    ensures xs + [x] == ys + [y] <==> xs == ys && x == y
  {
    if xs + [x] == ys + [y] {
      assert (xs + [x])[..|xs|] == (ys + [y])[..|xs|];
      assert (xs + [x])[|xs|] == (ys + [y])[|xs|];
    }
  }

  lemma ReadAnswer(conv: string -> int64, heard: seq<Obj>, exact: bool, r: string, a: Answer, t: string)
    requires Exact(conv) && Sendable(a) && !a.Silent?
    requires var first := ParseObjects(conv, |heard|, r);
      (first.value == heard <==> exact) && (exact ==> first.rest == Bytes(a) + t)
    ensures var read := ParseObjects(conv, |heard| + 1, r);
      (read.value == heard + [Meaning(a)] <==> exact && Exactly(a)) && (exact && Exactly(a) ==> read.rest == t)
  {
    hide *;
    var first := ParseObjects(conv, |heard|, r);
    OneMoreObject(conv, |heard|, r);
    ObjectCount(conv, |heard|, r);
    AnswerDecodes(conv, a, t);
    SameSnoc(first.value, heard, ParseObject(conv, first.rest).value, Meaning(a));
  }

  /** A stream of answers is read object by object, the right ones and with nothing left
      over whatever follows, exactly when every listing in it declares its true length. */
  lemma {:induction false} ReadBack(conv: string -> int64, answers: seq<Answer>, t: string)
    requires Exact(conv) && AllSendable(answers)
    ensures var r := ParseObjects(conv, |Heard(answers)|, Said(answers) + t);
      (r.value == Heard(answers) <==> AllExact(answers)) && (AllExact(answers) ==> r.rest == t)
    decreases |answers|
  {
    hide ParseObject, ParseObjects, Bytes, Meaning, Sendable, Exactly, Exact, AllExact;
    if answers == [] {
      NothingRead(conv, t);
    } else {
      var init, last := answers[..|answers| - 1], answers[|answers| - 1];
      assert Said(answers) + t == Said(init) + (Bytes(last) + t);
      ReadBack(conv, init, Bytes(last) + t);
      LastExact(answers);
      SilentBytes(t);
      if !last.Silent? {
        ReadAnswer(conv, Heard(init), AllExact(init), Said(answers) + t, last, t);
      }
    }
  }

  lemma NothingRead(conv: string -> int64, t: string)
    ensures ParseObjects(conv, 0, "" + t) == Parsed([], t) && AllExact([])
  {
    assert "" + t == t;
  }

  lemma ObjectCount(conv: string -> int64, n: nat, r: string)
    ensures |ParseObjects(conv, n, r).value| == n
  {
  }

  lemma SilentBytes(t: string)
    ensures Bytes(Silent) + t == t && Exactly(Silent)
  {
  }

  // ------------------------------------------------------ answers per connection

  /** The answers on each open connection, in order. */
  function Noted<T>(given: map<nat, seq<T>>, e: Event, a: T): map<nat, seq<T>> {
    match e
    case Connect(fd) => given[fd := []]
    case Disconnect(fd) => given - {fd}
    case Request(fd, _, _) => if fd in given then given[fd := given[fd] + [a]] else given
  }

  function Given<T>(es: seq<Event>, answers: seq<T>): map<nat, seq<T>>
    requires |es| == |answers|
  {
    if es == [] then map[]
    else
      var n := |es| - 1;
      Noted(Given(es[..n], answers[..n]), es[n], answers[n])
  }

  lemma GivenMore<T>(es: seq<Event>, answers: seq<T>, e: Event, a: T)
    requires |es| == |answers|
    ensures Given(es + [e], answers + [a]) == Noted(Given(es, answers), e, a)
  {
    hide Noted;
    assert (es + [e])[..|es|] == es && (answers + [a])[..|es|] == answers;
  }

  ghost predicate MatchAll(xs: seq<Answer>, ys: seq<AbsAnswer>) {
    |xs| == |ys| && forall k :: 0 <= k < |xs| ==> Matches(xs[k], ys[k])
  }

  /** Every connection has its answers, each as the abstraction allows. */
  ghost predicate GivenMatch(given: map<nat, seq<Answer>>, abs: map<nat, seq<AbsAnswer>>) {
    given.Keys == abs.Keys && forall fd :: fd in given ==> MatchAll(given[fd], abs[fd])
  }

  lemma {:induction false} AllGivenMatch(es: seq<Event>, answers: seq<Answer>, abs: seq<AbsAnswer>)
    requires |es| == |answers| && MatchAll(answers, abs)
    ensures GivenMatch(Given(es, answers), Given(es, abs))
    decreases |es|
  {
    hide Matches;
    if es != [] {
      var n := |es| - 1;
      AllGivenMatch(es[..n], answers[..n], abs[..n]);
    }
  }

  /** The accounts have the connections and the bytes of their answers. */
  ghost predicate Recorded(accounts: map<nat, Account>, given: map<nat, seq<Answer>>) {
    accounts.Keys == given.Keys && forall fd :: fd in given ==> accounts[fd].told == Said(given[fd])
  }

  lemma SaidNothing()
    ensures Said([]) == ""
  {
  }

  lemma SaidMore(answers: seq<Answer>, a: Answer)
    ensures Said(answers + [a]) == Said(answers) + Bytes(a)
  {
    assert (answers + [a])[..|answers|] == answers;
  }

  lemma EnteredRecorded(accounts: map<nat, Account>, given: map<nat, seq<Answer>>, e: Event, a: Answer)
    requires Recorded(accounts, given)
    ensures Recorded(Entered(accounts, e, a), Noted(given, e, a))
  {
    hide Bytes, Said;
    SaidNothing();
    if e.Request? && e.fd in given {
      SaidMore(given[e.fd], a);
    }
  }

  lemma IoRecorded(s: Setting, l: Ledger, io: Io, given: map<nat, seq<Answer>>)
    requires ValidWorld(l.world) && Recorded(l.accounts, given)
    ensures var es := IoEvent(s, l, io);
      var now := if es == [] then given else Noted(given, es[0], Step(s.cfg, l.world, es[0]).1);
      Recorded(IoPost(s, l, io).accounts, now)
  {
    hide Step, Noted, Entered, Said, ParseCmd;
    if Acceptable(s, l, io) && io.Readable? {
      var l1 := Arrived(l, io.fd, io.chunks);
      var es := Asked(s, l1, io.fd, io.end, io.heapImage, io.uptime);
      if es != [] {
        EnteredRecorded(l1.accounts, given, es[0], Step(s.cfg, l.world, es[0]).1);
      }
    } else if Acceptable(s, l, io) && io.Connecting? {
      EnteredRecorded(l.accounts, given, Connect(io.fd), Step(s.cfg, l.world, Connect(io.fd)).1);
    }
  }

  /** The books hold what the state machine answered. */
  lemma {:induction false} RunRecorded(s: Setting, l: Ledger, ios: seq<Io>)
    requires ValidWorld(l.world) && l.accounts == map[]
    ensures var es := IoEvents(s, l, ios);
      Recorded(IoPostAll(s, l, ios).accounts, Given(es, Run(s.cfg, l.world, es).1))
    decreases |ios|
  {
    hide Run, Step, IoPost, IoEvent, Recorded, Noted, ValidWorld;
    if ios == [] {
      NothingRecorded(s.cfg, l.world);
    } else {
      var init, last := ios[..|ios| - 1], ios[|ios| - 1];
      var es, more := IoEvents(s, l, init), IoEvent(s, IoPostAll(s, l, init), last);
      RunRecorded(s, l, init);
      IoRuns(s, l, init);
      RunMore(s.cfg, l.world, es, more);
      IoRecorded(s, IoPostAll(s, l, init), last, Given(es, Run(s.cfg, l.world, es).1));
      if more == [] {
        assert es + more == es;
      } else {
        assert more == [more[0]];
        GivenMore(es, Run(s.cfg, l.world, es).1, more[0], Step(s.cfg, Run(s.cfg, l.world, es).0, more[0]).1);
      }
    }
  }

  lemma NothingRecorded(cfg: Config, w: World)
    requires ValidWorld(w)
    ensures Recorded(map[], Given([], Run(cfg, w, []).1))
  {
  }

  // ------------------------------------------------------------- fitting keys

  /** The key of the request that an event completes, if there is one, is canonical and
      was not read from a broken line (`RequestKeys.KeyFitsExactly`). */
  predicate Fitting(s: Setting, l: Ledger, io: Io) {
    io.Readable? && io.end.WouldBlock? && Acceptable(s, l, io) ==>
      KeyFits(s.conv, Arrived(l, io.fd, io.chunks).accounts[io.fd].pending)
  }

  ghost predicate AllFitting(s: Setting, l: Ledger, ios: seq<Io>)
    requires ValidWorld(l.world)
  {
    ios == [] ||
    (AllFitting(s, l, ios[..|ios| - 1]) && Fitting(s, IoPostAll(s, l, ios[..|ios| - 1]), ios[|ios| - 1]))
  }

  /** What fits is a key as the theorems about runs ask for, whatever bytes the heap
      supplies; and the other way round where it supplies none. */
  lemma FittingIsOk(conv: string -> int64, r: string, heapImage: string)
    ensures KeyFits(conv, r) ==> KeyOk(ParseCmd(conv, r), KeyImage(conv, r, heapImage))
    ensures KeyBytes(conv, r).Some? && KeyOk(ParseCmd(conv, r), KeyImage(conv, r, heapImage)) ==> KeyFits(conv, r)
  {
    hide ParseCmd, KeyBytes, Canonical, Image;
  }

  lemma {:induction false} FittingRun(s: Setting, l: Ledger, ios: seq<Io>)
    requires ValidWorld(l.world) && AllFitting(s, l, ios)
    ensures KeysOk(IoEvents(s, l, ios))
    decreases |ios|
  {
    hide IoPost, IoPostAll, IoEvent, KeyOk, Fitting;
    if ios != [] {
      var init, last := ios[..|ios| - 1], ios[|ios| - 1];
      FittingRun(s, l, init);
      FittingEvent(s, IoPostAll(s, l, init), last);
    }
  }

  lemma FittingEvent(s: Setting, l: Ledger, io: Io)
    requires Fitting(s, l, io)
    ensures KeysOk(IoEvent(s, l, io))
  {
    hide ParseCmd, KeyImage, KeyFits, KeyOk;
    if Acceptable(s, l, io) && io.Readable? && io.end.WouldBlock? {
      FittingIsOk(s.conv, Arrived(l, io.fd, io.chunks).accounts[io.fd].pending, io.heapImage);
    }
  }

  // ------------------------------------------------------------------ fair runs

  /** The arguments of the request can be stored and sent back, and INFO and the number
      of keys can be reported. */
  ghost predicate Fair(cfg: Config, w: World, e: Event)
    requires ValidWorld(w)
  {
    e.Request? && e.fd in w.sessions ==>
      EncodableCmd(e.cmd) && Reportable(cfg, e.env)
      && Count(w.store.dbs[w.sessions[e.fd].db].dict) < UINT64
  }

  ghost predicate FairRun(cfg: Config, w: World, es: seq<Event>)
    requires ValidWorld(w)
  {
    es == [] || (FairRun(cfg, w, es[..|es| - 1]) && Fair(cfg, Run(cfg, w, es[..|es| - 1]).0, es[|es| - 1]))
  }

  /** The open connections that a mislisted KEYS was answered on. */
  function Misled(cfg: Config, w: World, es: seq<Event>): set<nat>
    requires ValidWorld(w)
  {
    if es == [] then {}
    else
      var init, last := es[..|es| - 1], es[|es| - 1];
      MisledBy(Run(cfg, w, init).0, last, Misled(cfg, w, init))
  }

  function MisledBy(w: World, e: Event, misled: set<nat>): set<nat>
    requires ValidWorld(w)
  {
    if !e.Request? then misled - {e.fd}
    else if e.fd in w.sessions && Mislisted(w.store, w.sessions[e.fd], e.cmd) then misled + {e.fd}
    else misled
  }

  /** What is known of the answers given on the open connections. */
  ghost predicate Honest(w: World, given: map<nat, seq<Answer>>, misled: set<nat>) {
    given.Keys == w.sessions.Keys && misled <= given.Keys
    && forall fd :: fd in given ==> AllSendable(given[fd]) && (AllExact(given[fd]) <==> fd !in misled)
  }

  lemma ExecHonest(cfg: Config, env: Env, s: Store, c: Session, cmd: Cmd)
    requires ValidStore(s) && c.db < |s.dbs| && EncodableStore(s) && EncodableCmd(cmd)
    requires Reportable(cfg, env) && Count(s.dbs[c.db].dict) < UINT64
    ensures var o := Exec(cfg, env, s, c, cmd);
      EncodableStore(o.store) && Sendable(o.answer) && (Exactly(o.answer) <==> !Mislisted(s, c, cmd))
  {
    hide Dispatch, EncodableDb, CleanText, Reportable, EncodableCmd, Mislisted, Counted, Exactly, EncodablePairs;
    DispatchProper(cfg, env, s, c, cmd);
    FixedTextsClean();
    ExactlyUnlessMislisted(cfg, env, s, c, cmd);
  }

  lemma NoAnswers()
    ensures AllSendable([]) && AllExact([])
  {
  }

  lemma OneMoreAnswer(answers: seq<Answer>, a: Answer)
    ensures AllSendable(answers + [a]) <==> AllSendable(answers) && Sendable(a)
    ensures AllExact(answers + [a]) <==> AllExact(answers) && Exactly(a)
  {
    hide Sendable, Exactly;
    assert (answers + [a])[|answers|] == a;
    forall b | b in answers ensures b in answers + [a] {
    }
  }

  lemma StepHonest(cfg: Config, w: World, e: Event, given: map<nat, seq<Answer>>, misled: set<nat>)
    requires ValidWorld(w) && EncodableStore(w.store) && Fair(cfg, w, e) && Honest(w, given, misled)
    ensures var (next, a) := Step(cfg, w, e);
      EncodableStore(next.store) && Honest(next, Noted(given, e, a), MisledBy(w, e, misled))
  {
    hide EncodableStore, Exec, Mislisted, Reportable, EncodableCmd, AllSendable, AllExact;
    NoAnswers();
    if e.Request? && e.fd in w.sessions {
      ExecHonest(cfg, e.env, w.store, w.sessions[e.fd], e.cmd);
      OneMoreAnswer(given[e.fd], Step(cfg, w, e).1);
    }
  }

  /** Over fair runs only values that can be sent are stored, every answer can be sent,
      and the connections with an inexact answer are the misled ones. */
  lemma {:induction false} RunHonest(cfg: Config, w: World, es: seq<Event>)
    requires ValidWorld(w) && w.sessions == map[] && EncodableStore(w.store) && FairRun(cfg, w, es)
    ensures var (end, answers) := Run(cfg, w, es);
      EncodableStore(end.store) && Honest(end, Given(es, answers), Misled(cfg, w, es))
    decreases |es|
  {
    hide Run, Step, EncodableStore, Fair, MisledBy, Noted, Honest, ValidWorld;
    RunLast(cfg, w, es);
    if es == [] {
      NothingHonest(cfg, w);
    } else {
      var n := |es| - 1;
      var (before, answers) := Run(cfg, w, es[..n]);
      RunHonest(cfg, w, es[..n]);
      StepHonest(cfg, before, es[n], Given(es[..n], answers), Misled(cfg, w, es[..n]));
      assert es == es[..n] + [es[n]];
      GivenMore(es[..n], answers, es[n], Step(cfg, before, es[n]).1);
    }
  }

  lemma NothingHonest(cfg: Config, w: World)
    requires ValidWorld(w) && w.sessions == map[]
    ensures Run(cfg, w, []).0 == w && Honest(w, Given([], Run(cfg, w, []).1), Misled(cfg, w, []))
  {
  }

  // ------------------------------------------------------------- the whole server

  /** The events that the event loop of a server just started makes of what it is handed. */
  function Happened(s: Setting, seeds: seq<Seeds>, ios: seq<Io>): seq<Event>
    requires 0 < |seeds| <= MAX_DATABASES
  {
    IoEvents(s, Start(seeds), ios)
  }

  /** The answers on each open connection. */
  function Replied(s: Setting, seeds: seq<Seeds>, ios: seq<Io>): map<nat, seq<Answer>>
    requires 0 < |seeds| <= MAX_DATABASES
  {
    var es := Happened(s, seeds, ios);
    Given(es, Run(s.cfg, StartWorld(seeds), es).1)
  }

  /** ... and what plain maps, sets, queues and stacks answer. */
  ghost function Expected(s: Setting, seeds: seq<Seeds>, ios: seq<Io>): map<nat, seq<AbsAnswer>>
    requires 0 < |seeds| <= MAX_DATABASES
  {
    var es := Happened(s, seeds, ios);
    Given(es, AbsRun(s.cfg, AbsStart(|seeds|), es).1)
  }

  /** From its start the server holds what the plain databases hold, and every
      connection is answered as they answer. */
  lemma StartedRefines(s: Setting, seeds: seq<Seeds>, ios: seq<Io>)
    requires 0 < |seeds| <= MAX_DATABASES && AllFitting(s, Start(seeds), ios)
    ensures var end := IoPostAll(s, Start(seeds), ios).world;
      GoodWorld(end) && AbsWorldOf(end) == AbsRun(s.cfg, AbsStart(|seeds|), Happened(s, seeds, ios)).0
    ensures GivenMatch(Replied(s, seeds, ios), Expected(s, seeds, ios))
  {
    hide GoodWorld, AbsWorldOf, IoPostAll, IoEvents, Run, AbsRun, KeysOk, GivenMatch, Matches, Given, AbsStart;
    hide AllFitting;
    FittingRun(s, Start(seeds), ios);
    var es, w := Happened(s, seeds, ios), StartWorld(seeds);
    StartGood(seeds);
    IoRuns(s, Start(seeds), ios);
    RunRefines(s.cfg, w, es);
    AllGivenMatch(es, Run(s.cfg, w, es).1, AbsRun(s.cfg, AbsStart(|seeds|), es).1);
  }

  lemma StartEmpty(seeds: seq<Seeds>)
    requires 0 < |seeds| <= MAX_DATABASES
    ensures GoodWorld(StartWorld(seeds)) && AllEmpty(StartWorld(seeds).store)
  {
    hide GoodDb, AbsOf, EmptyDb;
    StartGood(seeds);
    var s := StartWorld(seeds).store;
    forall i | 0 <= i < |s.dbs| ensures AbsOf(s.dbs[i]) == EMPTY {
      assert AbsStoreOf(s).dbs[i] == AbsOf(s.dbs[i]);
      assert AbsStart(|seeds|).store.dbs[i] == EMPTY;
    }
  }

  /** From its start the server answers a data command as the commands determine that were
      performed on the client's database before (`Histories.GetAnswer` and its like). */
  lemma StartedAnswers(s: Setting, seeds: seq<Seeds>, ios: seq<Io>, e: Event)
    requires 0 < |seeds| <= MAX_DATABASES && AllFitting(s, Start(seeds), ios)
    requires e.Request? && IsData(e.cmd) && KeyOk(e.cmd, e.env.image)
    requires Authed(IoPostAll(s, Start(seeds), ios).world, e.fd)
    ensures var now := IoPostAll(s, Start(seeds), ios).world;
      var cs := Performed(s.cfg, StartWorld(seeds), Happened(s, seeds, ios), now.sessions[e.fd].db);
      AllData(cs) && Step(s.cfg, now, e).1 == AbsDbExec(Built(EMPTY, cs), e.cmd).1
  {
    hide GoodWorld, AllEmpty, IoPostAll, IoEvents, Run, Step, Performed, AllFitting, KeysOk, KeyOk, Built, AbsDbExec;
    StartEmpty(seeds);
    FittingRun(s, Start(seeds), ios);
    IoRuns(s, Start(seeds), ios);
    AnswerByCommands(s.cfg, StartWorld(seeds), Happened(s, seeds, ios), e);
  }

  /** `got` and whatever follows reads as the meanings of the answers on `fd`, and the
      rest is left over: exactly when no mislisted KEYS was answered on it. */
  ghost predicate ReadsAll(s: Setting, seeds: seq<Seeds>, ios: seq<Io>, fd: nat, got: string)
    requires 0 < |seeds| <= MAX_DATABASES
  {
    var given := Replied(s, seeds, ios);
    var misled := Misled(s.cfg, StartWorld(seeds), Happened(s, seeds, ios));
    fd in given &&
    forall t :: var r := ParseObjects(s.conv, |Heard(given[fd])|, got + t);
      (r.value == Heard(given[fd]) <==> fd !in misled) && (fd !in misled ==> r.rest == t)
  }

  /** From its start the server tells every open connection its answers as one object
      each. */
  lemma StartedTells(s: Setting, seeds: seq<Seeds>, ios: seq<Io>, fd: nat)
    requires 0 < |seeds| <= MAX_DATABASES && Exact(s.conv)
    requires FairRun(s.cfg, StartWorld(seeds), Happened(s, seeds, ios))
    requires fd in IoPostAll(s, Start(seeds), ios).accounts
    ensures ReadsAll(s, seeds, ios, fd, IoPostAll(s, Start(seeds), ios).accounts[fd].told)
  {
    hide IoPostAll, IoEvents, Run, Given, Misled, FairRun, EncodableStore, AllExact, AllSendable, Exact, ParseObjects;
    hide Heard, Said;
    StartGood(seeds);
    RunRecorded(s, Start(seeds), ios);
    RunHonest(s.cfg, StartWorld(seeds), Happened(s, seeds, ios));
    var answers := Replied(s, seeds, ios)[fd];
    forall t ensures
      var r := ParseObjects(s.conv, |Heard(answers)|, Said(answers) + t);
      (r.value == Heard(answers) <==> AllExact(answers)) && (AllExact(answers) ==> r.rest == t)
    {
      ReadBack(s.conv, answers, t);
    }
  }

  lemma StartedBalanced(s: Setting, seeds: seq<Seeds>, ios: seq<Io>)
    requires 0 < |seeds| <= MAX_DATABASES && AllUntorn(s, Start(seeds), ios)
    ensures AllBalanced(IoPostAll(s, Start(seeds), ios))
  {
    hide IoPostAll, AllUntorn, ValidWorld;
    StartGood(seeds);
    RunBalanced(s, Start(seeds), ios);
  }

  /** A database changes only on a request of a connection that logged in before. */
  lemma OnlyAfterLogin(s: Setting, seeds: seq<Seeds>, ios: seq<Io>, io: Io, db: nat)
    requires 0 < |seeds| <= MAX_DATABASES
    requires var now := IoPostAll(s, Start(seeds), ios);
      db < |now.world.store.dbs| == |IoPost(s, now, io).world.store.dbs|
      && IoPost(s, now, io).world.store.dbs[db] != now.world.store.dbs[db]
    ensures io.Readable? && exists i :: LoggedIn(s.cfg, Happened(s, seeds, ios), io.fd, i)
  {
    hide IoPostAll, IoEvents, Run, Step, LoggedIn, ParseCmd, ValidWorld, Entered;
    StartGood(seeds);
    IoRuns(s, Start(seeds), ios);
    var now := IoPostAll(s, Start(seeds), ios);
    if io.Readable? {
      var es := IoEvent(s, now, io);
      AuthGate(s.cfg, StartWorld(seeds), Happened(s, seeds, ios), es[0], db);
    } else if io.Connecting? {
      AuthGate(s.cfg, StartWorld(seeds), Happened(s, seeds, ios), Connect(io.fd), db);
    }
  }

  /** A server is started and serves whatever the event loop hands it. Every connection
      is answered as plain databases answer. If the writes tear no reply, as when every
      call takes all or nothing, the bytes put on the wire for a client and those still
      waiting are, read object by object, those answers. */
  method StartAndServe(seeds: seq<Seeds>, cfg: Config, conv: string -> int64, numFds: nat, ios: seq<Io>)
    returns (s: Server)
    requires 0 < |seeds| <= MAX_DATABASES && Exact(conv)
    requires forall i :: 0 <= i < |cfg.users| ==> |cfg.users[i].password| == 64
    requires var setup := Setting(cfg, conv, numFds); var es := Happened(setup, seeds, ios);
      AllFitting(setup, Start(seeds), ios) && FairRun(cfg, StartWorld(seeds), es)
    ensures s.Valid()
    ensures var setup := Setting(cfg, conv, numFds);
      GivenMatch(Replied(setup, seeds, ios), Expected(setup, seeds, ios))
    ensures var setup := Setting(cfg, conv, numFds);
      AllWhole(setup, Start(seeds), ios) ==> AllUntorn(setup, Start(seeds), ios)
    ensures var setup := Setting(cfg, conv, numFds);
      AllUntorn(setup, Start(seeds), ios) ==>
        forall c :: c in s.clients ==> ReadsAll(setup, seeds, ios, c.fd, c.delivered + c.builder)
  {
    hide Server.Valid, Server.Shows, IoPostAll, EmptyDbs, Happened, FairRun, AllUntorn, AllWhole, AllFitting;
    hide GivenMatch, ReadsAll, Exact;
    hide Replied, Expected, ValidWorld, DatabaseArray.Repr;
    ghost var setup := Setting(cfg, conv, numFds);
    s := NewServer(seeds, cfg, conv, numFds);
    s.Serve(ios, Start(seeds));
    StartedRefines(setup, seeds, ios);
    if AllWhole(setup, Start(seeds), ios) {
      WholeUntorn(setup, Start(seeds), ios);
    }
    if AllUntorn(setup, Start(seeds), ios) {
      StartedBalanced(setup, seeds, ios);
      forall c | c in s.clients ensures ReadsAll(setup, seeds, ios, c.fd, c.delivered + c.builder) {
        StartedTells(setup, seeds, ios, c.fd);
      }
    }
  }

  // --------------------------------------------------- from the command line

  /** The answer to one command of the client library, in any state that the theorems
      about runs are about: as plain databases answer it, and read back as one object. */
  lemma CommandAnswered(s: Setting, w: World, fd: nat, env: Env, c: Cmd)
    requires Exact(s.conv) && GoodWorld(w) && EncodableStore(w.store) && fd in w.sessions && w.sessions[fd].authed
    requires !c.Okc? && EncodableCmd(c) && KeyOk(c, env.image) && Reportable(s.cfg, env)
    requires Count(w.store.dbs[w.sessions[fd].db].dict) < UINT64 && !Mislisted(w.store, w.sessions[fd], c)
    ensures var a := Exec(s.cfg, env, w.store, w.sessions[fd], c).answer;
      !a.Silent? && Matches(a, AbsExec(s.cfg, env, AbsWorldOf(w).store, w.sessions[fd], c).answer)
      && forall t :: ParseObject(s.conv, Bytes(a) + t) == Parsed(Meaning(a), t)
  {
    hide Exec, AbsExec, Mislisted, Reportable, EncodableCmd, KeyOk, Exact, ParseObject, Bytes, Meaning;
    hide GoodStore, EncodableStore, AbsStoreOf, Matches;
    OneReply(s.conv, s.cfg, env, w.store, w.sessions[fd], c, "");
    ExecRefines(s.cfg, env, w.store, w.sessions[fd], c);
    forall t ensures var a := Exec(s.cfg, env, w.store, w.sessions[fd], c).answer;
      ParseObject(s.conv, Bytes(a) + t) == Parsed(Meaning(a), t)
    {
      OneReply(s.conv, s.cfg, env, w.store, w.sessions[fd], c, t);
    }
  }

  /** What surrounds the request that `r` is. */
  function EnvOf(s: Setting, l: Ledger, io: Io, r: string): Env
    requires io.Readable?
  {
    Env(KeyImage(s.conv, r, io.heapImage), |l.world.sessions|, io.uptime)
  }

  lemma RequestPosted(s: Setting, l: Ledger, io: Io)
    requires ValidWorld(l.world) && io.Readable? && io.end.WouldBlock? && Acceptable(s, l, io)
    requires l.accounts[io.fd].pending == ""
    ensures var r := Joined(io.chunks); var next := IoPost(s, l, io);
      var a := Exec(s.cfg, EnvOf(s, l, io, r), l.world.store, l.world.sessions[io.fd], ParseCmd(s.conv, r)).answer;
      io.fd in next.accounts && next.accounts[io.fd].told == l.accounts[io.fd].told + Bytes(a)
  {
    hide Exec, Bytes, ParseCmd, KeyImage, Joined;
    assert "" + Joined(io.chunks) == Joined(io.chunks);
  }

  /** The commands of typed lines keep what the theorems ask for when they arrive. */
  lemma LineArrives(conv: string -> int64, line: string, heapImage: string)
    requires Exact(conv) && |line| <= MAX_TEXT && ServerBound(LineCmd(line))
    requires var k := KeyOf(LineCmd(line)); k.Some? ==> Canonical(Normal(k.value))
    ensures var c, r := LineCmd(line), Commands.Request(LineCmd(line));
      ParseCmd(conv, r) == NormalCmd(c) && EncodableCmd(NormalCmd(c))
      && KeyOk(NormalCmd(c), KeyImage(conv, r, heapImage))
  {
    hide LineCmd, ParseCmd, Commands.Request, NormalCmd, EncodableCmd, KeyFits, KeyOk, KeyImage, Exact, ServerBound;
    var c, r := LineCmd(line), Commands.Request(LineCmd(line));
    assert r + "" == r;
    LineEncodable(line);
    LineDelivered(conv, line, "");
    ClientRequest(conv, c, "");
    ClientKeyFits(conv, c, "");
    FittingIsOk(conv, r, heapImage);
  }

  /** What holds of the reply to command `c` of an open connection, before which the
      server was at `l` and after which it is at `next`: the bytes told are those of an
      answer that plain databases allow, and read back as its meaning. */
  ghost predicate AnsweredPlainly(s: Setting, l: Ledger, next: Ledger, fd: nat, env: Env, c: Cmd)
    requires GoodWorld(l.world) && fd in l.world.sessions && fd in l.accounts && fd in next.accounts
  {
    exists a: Answer :: !a.Silent?
      && next.accounts[fd].told == l.accounts[fd].told + Bytes(a)
      && Matches(a, AbsExec(s.cfg, env, AbsWorldOf(l.world).store, l.world.sessions[fd], c).answer)
      && forall t :: ParseObject(s.conv, Bytes(a) + t) == Parsed(Meaning(a), t)
  }

  /** From the keyboard to the reply: after any run, a line typed on a connection that
      has logged in, and read in one event, is answered as plain databases answer it. */
  lemma TypedLine(s: Setting, seeds: seq<Seeds>, ios: seq<Io>, line: string, io: Io)
    requires 0 < |seeds| <= MAX_DATABASES && Exact(s.conv) && |line| <= MAX_TEXT
    requires AllFitting(s, Start(seeds), ios) && FairRun(s.cfg, StartWorld(seeds), Happened(s, seeds, ios))
    requires ServerBound(LineCmd(line))
    requires var k := KeyOf(LineCmd(line)); k.Some? ==> Canonical(Normal(k.value))
    requires io.Readable? && io.end.WouldBlock? && Joined(io.chunks) == Commands.Request(LineCmd(line))
    requires Reportable(s.cfg, Env("", 0, io.uptime))
    requires var l := IoPostAll(s, Start(seeds), ios);
      Acceptable(s, l, io) && l.accounts[io.fd].pending == "" && l.world.sessions[io.fd].authed
    requires var w := IoPostAll(s, Start(seeds), ios).world; var c := w.sessions[io.fd];
      Count(w.store.dbs[c.db].dict) < UINT64 && !Mislisted(w.store, c, LineCmd(line))
    ensures var l := IoPostAll(s, Start(seeds), ios); var next := IoPost(s, l, io);
      GoodWorld(l.world) && io.fd in next.accounts
      && AnsweredPlainly(s, l, next, io.fd, EnvOf(s, l, io, Joined(io.chunks)), NormalCmd(LineCmd(line)))
  {
    hide IoPostAll, IoPost, LineCmd, ParseCmd, Commands.Request, EncodableCmd, KeyOk, KeyImage, Exact, Canonical;
    hide AllFitting, FairRun, IoEvents, Run, Exec, AbsExec, Bytes, Meaning, ParseObject, Matches, Joined;
    hide AbsWorldOf, GoodStore, EncodableStore, Honest, GivenMatch, Given;
    var l := IoPostAll(s, Start(seeds), ios);
    var r, c := Joined(io.chunks), NormalCmd(LineCmd(line));
    StartGood(seeds);
    StartedRefines(s, seeds, ios);
    IoRuns(s, Start(seeds), ios);
    RunHonest(s.cfg, StartWorld(seeds), Happened(s, seeds, ios));
    LineArrives(s.conv, line, io.heapImage);
    RequestPosted(s, l, io);
    CommandAnswered(s, l.world, io.fd, EnvOf(s, l, io, r), c);
    assert AnsweredPlainly(s, l, IoPost(s, l, io), io.fd, EnvOf(s, l, io, r), c);
  }
}
