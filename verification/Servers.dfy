/** The server object: executing commands, and the handlers that read requests from
    clients and write replies to them. */
module Servers {
  import opened Objects
  import opened Commands
  import opened Buckets
  import opened RequestKeys
  import opened Parsing
  import opened Auths
  import opened ServerSpec
  import opened DatabaseArrays
  import opened Events
  import opened Sending
  import opened Sequences
  import opened ServerRuns
  import opened Ledgers
  import opened Clients

  lemma ExecCases(cfg: Config, env: Env, s: Store, c: Session, cmd: Cmd)
    requires ValidStore(s) && c.db < |s.dbs|
    ensures var o := Dispatch(cfg, env, s, c, cmd);
      Exec(cfg, env, s, c, cmd) ==
      if cmd.Illegal? then Outcome(s, c, EINVCMD)
      else if !c.authed && !cmd.Auth? then Outcome(s, c, Fault("EUNAUTHED"))
      else
        var count := if Counted(cmd, o.answer) then Next(o.store.executed) else o.store.executed;
        Outcome(Store(o.store.dbs, count), o.session, o.answer)
  {
    hide Dispatch, Counted;
  }

  /** The state a request leaves and the bytes it is answered with. */
  type Effect = ((Store, Session), string)

  class Server {
    const store: DatabaseArray
    const cfg: Config
    const conv: string -> int64
    const ev: EventTable
    var executed: nat
    var clients: seq<Client>

    constructor (store: DatabaseArray, cfg: Config, conv: string -> int64, ev: EventTable)
      ensures this.store == store && this.cfg == cfg && this.conv == conv && this.ev == ev
      ensures executed == 0 && clients == []
    {
      this.store, this.cfg, this.conv, this.ev := store, cfg, conv, ev;
      executed, clients := 0, [];
    }

    ghost function StoreView(): (s: Store)
      reads this, store.Roots(), store.Repr()
      requires store.Valid()
      ensures ValidStore(s) && |s.dbs| == |store.dbs|
    {
      Store(store.View(), executed)
    }

    /** An object of the server proper is none of the databases'. */
    ghost predicate Elsewhere(o: object)
      reads store.Roots()
    {
      o !in store.Roots() && o !in store.Repr()
    }

    ghost predicate Outside(c: Client)
      reads store.Roots()
    {
      Elsewhere(this) && Elsewhere(c)
    }

    ghost predicate Ready(c: Client)
      reads c, store.Roots(), store.Repr()
    {
      store.Valid() && c.databaseNum < |store.dbs| && Outside(c)
      && forall i :: 0 <= i < |cfg.users| ==> |cfg.users[i].password| == 64
    }

    /** The part of `execute_cmd` that changes at most the client. */
    method Personal(c: Client, env: Env, databases: nat, cmd: Cmd) returns (a: Answer)
      requires !IsData(cmd) && !cmd.Keys? && databases == |store.dbs|
      requires forall i :: 0 <= i < |cfg.users| ==> |cfg.users[i].password| == 64
      requires cmd.Auth? && cmd.password.Str? ==> |cmd.password.text| < MAX_REQUEST
      modifies c`authed, c`databaseNum
      ensures forall s: Store ::
        ValidStore(s) && |s.dbs| == databases && s.executed == executed && old(c.databaseNum) < databases ==>
        Dispatch(cfg, env, s, old(c.Session()), cmd) == Outcome(s, c.Session(), a)
    {
      hide DbExec, Accepts, KeysAnswer, InfoPairs;
      match cmd
      case Okc => a := Silent;
      case Ping => a := Simple("PONG");
      case Auth(u, p) =>
        var ok := Authenticate(cfg.users, u, p);
        if ok {
          c.authed := true;
        }
        a := if ok then OK else Fault("failed to authenticate");
      case Infoc => a := Report(InfoPairs(cfg, env, executed, databases));
      case Select(n) =>
        if n % UINT64 >= databases {
          a := Fault("EDBRANGE");
        } else {
          c.databaseNum := n % UINT64;
          a := OK;
        }
      case Illegal => a := EINVCMD;
      case Help(_) => a := EINVCMD;
    }

    lemma NotTheClient(c: Client)
      requires Outside(c)
      ensures forall i, o :: 0 <= i < |store.dbs| && o in store.dbs[i].Repr() ==>
        allocated(o) && o != c && o != this
    {
    }

    method PerformPersonal(c: Client, env: Env, cmd: Cmd) returns (a: Answer)
      requires Ready(c) && !IsData(cmd) && !cmd.Keys?
      requires cmd.Auth? && cmd.password.Str? ==> |cmd.password.text| < MAX_REQUEST
      modifies c`authed, c`databaseNum
      ensures store.Valid() && store.Grew()
      ensures Dispatch(cfg, env, old(StoreView()), old(c.Session()), cmd) == Outcome(StoreView(), c.Session(), a)
    {
      hide Ready, Outside, Elsewhere, Dispatch, IsData, DatabaseArray.ValidDbs, DatabaseArray.Grew;
      hide DatabaseArray.Valid, DatabaseArray.Repr, DatabaseArray.View, DatabaseArray.Roots;
      ReadyParts(c);
      NotTheClient(c);
      a := Personal(c, env, |store.dbs|, cmd);
      store.Untouched();
      GrewNot();
    }

    twostate lemma GrewNot()
      requires store.Repr() == old(store.Repr())
      ensures store.Grew()
    {
    }

    lemma DataDispatch(c: Client, env: Env, cmd: Cmd)
      requires store.Valid() && c.databaseNum < |store.dbs| && IsData(cmd)
      ensures var r := DbExec(store.View()[c.databaseNum], env.image, cmd);
        Dispatch(cfg, env, StoreView(), c.Session(), cmd)
          == Outcome(Store(store.View()[c.databaseNum := r.0], executed), c.Session(), r.1)
    {
      hide DbExec, DatabaseArray.Valid, DatabaseArray.Repr, DatabaseArray.View, DatabaseArray.Roots;
    }

    method PerformData(c: Client, env: Env, cmd: Cmd) returns (a: Answer)
      requires Ready(c) && IsData(cmd)
      modifies store.Repr()
      ensures store.Valid() && store.Grew()
      ensures Dispatch(cfg, env, old(StoreView()), old(c.Session()), cmd) == Outcome(StoreView(), c.Session(), a)
    {
      hide Ready, Outside, Elsewhere, Dispatch, DbExec, ValidStore, DatabaseArray.ValidDbs, DatabaseArray.Grew;
      hide DatabaseArray.Valid, DatabaseArray.Repr, DatabaseArray.View, DatabaseArray.Roots;
      ReadyParts(c);
      DataDispatch(c, env, cmd);
      a := store.Apply(c.databaseNum, env.image, cmd);
    }

    method PerformKeys(c: Client, env: Env) returns (a: Answer)
      requires Ready(c)
      ensures store.Valid() && store.Grew()
      ensures Dispatch(cfg, env, old(StoreView()), old(c.Session()), Keys) == Outcome(StoreView(), c.Session(), a)
    {
      hide Ready, Outside, Elsewhere, KeysAnswer, ValidStore, DatabaseArray.ValidDbs, DatabaseArray.Grew, DbExec;
      hide DatabaseArray.Valid, DatabaseArray.Repr, DatabaseArray.View, DatabaseArray.Roots;
      ReadyParts(c);
      a := store.ListKeys(c.databaseNum);
    }

    /** A command past the two guards of `execute_cmd`. */
    method Perform(c: Client, env: Env, cmd: Cmd) returns (a: Answer)
      requires Ready(c)
      requires cmd.Auth? && cmd.password.Str? ==> |cmd.password.text| < MAX_REQUEST
      modifies c`authed, c`databaseNum, store.Repr()
      ensures store.Valid() && store.Grew()
      ensures Dispatch(cfg, env, old(StoreView()), old(c.Session()), cmd) == Outcome(StoreView(), c.Session(), a)
    {
      hide *;
      if IsData(cmd) {
        a := PerformData(c, env, cmd);
      } else if cmd.Keys? {
        a := PerformKeys(c, env);
      } else {
        a := PerformPersonal(c, env, cmd);
      }
    }

    /** The client and this object are still none of the databases' objects. */
    twostate lemma StillReady(c: Client)
      requires old(Ready(c)) && store.Valid() && store.Grew()
      requires c.databaseNum < |store.dbs|
      ensures Ready(c)
    {
    }

    lemma ReadyParts(c: Client)
      requires Ready(c)
      ensures store.Valid() && c.databaseNum < |store.dbs| && Outside(c)
      ensures forall i :: 0 <= i < |cfg.users| ==> |cfg.users[i].password| == 64
      ensures this as object !in store.Repr() && c as object !in store.Repr()
    {
    }

    /** The databases as they are, with the counter as it will be. */
    ghost function Tallied(count: bool): Store
      reads this, store.Roots(), store.Repr()
      requires store.Valid()
    {
      StoreView().(executed := if count then Next(executed) else executed)
    }

    /** The two guards of `execute_cmd`, and the command. */
    method Decide(c: Client, env: Env, cmd: Cmd) returns (a: Answer, count: bool)
      requires Ready(c)
      requires cmd.Auth? && cmd.password.Str? ==> |cmd.password.text| < MAX_REQUEST
      modifies c`authed, c`databaseNum, store.Repr()
      ensures Ready(c) && store.Grew()
      ensures Exec(cfg, env, old(StoreView()), old(c.Session()), cmd) == Outcome(Tallied(count), c.Session(), a)
    {
      ReadyParts(c);
      ExecCases(cfg, env, StoreView(), c.Session(), cmd);
      hide *;
      if cmd.Illegal? {
        return EINVCMD, false;
      }
      if !c.authed && !cmd.Auth? {
        return Fault("EUNAUTHED"), false;
      }
      a := Perform(c, env, cmd);
      count := Counted(cmd, a);
      StillReady(c);
    }

    /** Writes to this object and the client do not reach the databases. */
    twostate lemma Unreached(c: Client)
      requires old(Ready(c)) && c.databaseNum < |store.dbs|
      requires forall i, o ::
        0 <= i < |store.dbs| && o in old(store.dbs[i].Repr()) && old(allocated(o)) ==> unchanged(o)
      ensures Ready(c) && store.Valid() && store.Repr() == old(store.Repr()) && store.View() == old(store.View())
    {
      hide DatabaseArray.Valid, DatabaseArray.Repr, DatabaseArray.View, DatabaseArray.Roots;
      assert old(store.Valid());
      store.WasAllocated();
      store.Untouched();
    }

    method Append(c: Client, a: Answer, count: bool)
      modifies this`executed, c`builder, c`replied
      ensures executed == if count then Next(old(executed)) else old(executed)
      ensures c.builder == old(c.builder) + Bytes(a) && c.replied == old(c.replied) + Bytes(a)
    {
      hide *;
      executed := if count then Next(executed) else executed;
      c.builder := c.builder + Bytes(a);
      c.replied := c.replied + Bytes(a);
    }

    method Record(c: Client, a: Answer, count: bool)
      requires Ready(c)
      modifies this`executed, c`builder, c`replied
      ensures Ready(c) && store.Repr() == old(store.Repr()) && c.Session() == old(c.Session())
      ensures StoreView() == old(Tallied(count))
      ensures c.builder == old(c.builder) + Bytes(a) && c.replied == old(c.replied) + Bytes(a)
    {
      NotTheClient(c);
      ReadyParts(c);
      hide *;
      Append(c, a, count);
      forall i, o | 0 <= i < |store.dbs| && o in old(store.dbs[i].Repr()) ensures unchanged(o) {
        assert o != c && o != this;
      }
      Unreached(c);
    }

    method Parse(c: Client) returns (cmd: Cmd, bytes: Option<string>)
      requires Ready(c)
      ensures Ready(c) && store.Repr() == old(store.Repr()) && StoreView() == old(StoreView())
      ensures cmd == ParseCmd(conv, c.readBuf) && bytes == KeyBytes(conv, c.readBuf)
    {
      NotTheClient(c);
      ReadyParts(c);
      hide *;
      cmd, bytes := ParseCommand(c.readBuf, conv);
      store.Untouched();
      StillReady(c);
    }

    /** Databases and counter, and the client's session. */
    ghost function State(c: Client): (Store, Session)
      reads this, c, store.Roots(), store.Repr()
      requires store.Valid()
    {
      (StoreView(), c.Session())
    }

    /** The state and the bytes that the command state machine makes of the request in
        the client's buffer. */
    ghost function Due(c: Client, heapImage: string, uptime: nat): Effect
      reads this, c, store.Roots(), store.Repr()
      requires Ready(c)
    {
      var env := Env(KeyImage(conv, c.readBuf, heapImage), |clients|, uptime);
      var o := Exec(cfg, env, StoreView(), c.Session(), ParseCmd(conv, c.readBuf));
      ((o.store, o.session), Bytes(o.answer))
    }

    /** `execute_cmd`: parses the request, decides whether the client may, runs it and
        appends the reply. */
    method Execute(c: Client, heapImage: string, uptime: nat)
      requires Ready(c) && |c.readBuf| < MAX_REQUEST
      modifies this`executed, c`authed, c`databaseNum, c`builder, c`replied, store.Repr()
      ensures Ready(c) && store.Valid() && store.Grew()
      ensures State(c) == old(Due(c, heapImage, uptime)).0
      ensures c.builder == old(c.builder) + old(Due(c, heapImage, uptime)).1
      ensures c.replied == old(c.replied) + old(Due(c, heapImage, uptime)).1
    {
      hide Ready, Outside, Exec, DatabaseArray.Valid, DatabaseArray.Repr, DatabaseArray.View, Bytes, ParseCmd;
      hide StoreView, ValidStore, DatabaseArray.ValidDbs, Next;
      ReadyParts(c);
      var cmd, bytes := Parse(c);
      label Parsed:
      ReadyParts(c);
      PasswordShort(conv, c.readBuf);
      var a, count := Decide(c, Env(Supplied(bytes, heapImage), |clients|, uptime), cmd);
      Record(c, a, count);
      ReadyParts(c);
      forall o | o in store.Repr() && o !in old(store.Repr()) ensures fresh(o) {
        assert old(allocated(o)) ==> old@Parsed(allocated(o));
      }
    }

    // ---------------------------------------------------------- the invariant

    /** Something waits only if the event table is asked to write, and then the write
        buffer is current. */
    ghost predicate Kept(c: Client)
      reads ev.masks, c`builder, c`writeBuf
    {
      c.fd < ev.masks.Length
      && (c.builder != "" ==> ev.WriteAsked(c.fd))
      && (ev.WriteAsked(c.fd) ==> c.writeBuf == c.builder)
    }

    ghost predicate Apart()
      reads this, store.Roots()
    {
      Elsewhere(this) && Elsewhere(ev) && Elsewhere(ev.masks)
      && forall d :: d in clients ==> Elsewhere(d)
    }

    ghost predicate Valid()
      reads this, store.Roots(), store.Repr(), ev, ev.masks, clients
    {
      store.Valid() && ev.Valid() && Apart() && Distinct(clients) && ev.rfds == Fds(clients)
      && (forall i :: 0 <= i < |cfg.users| ==> |cfg.users[i].password| == 64)
      && forall d :: d in clients ==> Kept(d) && d.databaseNum < |store.dbs|
    }

    /** The server is in the state of the command state machine that `l` tells, and so are
        the replies. */
    ghost predicate Shows(l: Ledger)
      reads this, store.Roots(), store.Repr(), clients
    {
      store.Valid() && StoreView() == l.world.store && Covers(l.world.sessions, clients) && Carried(l, clients)
    }

    twostate lemma StillElsewhere()
      requires old(Elsewhere(ev)) && old(Elsewhere(ev.masks)) && store.Grew()
      ensures Elsewhere(ev) && Elsewhere(ev.masks)
    {
      hide DatabaseArray.Roots, DatabaseArray.Repr;
    }

    /** The databases consist of objects other than a given one. */
    lemma NoneIs(o: object)
      requires Elsewhere(o)
      ensures forall i :: 0 <= i < |store.dbs| ==> o !in store.dbs[i].Repr()
    {
      hide DatabaseArray.Roots;
      forall i | 0 <= i < |store.dbs| ensures o !in store.dbs[i].Repr() {
        store.Within(i);
      }
    }

    // ------------------------------------------------------- answering a request

    /** The reply becomes visible to the write handler. */
    method Publish(c: Client)
      requires ev.Valid() && c.fd < ev.numFds
      modifies c`writeBuf, c`readBuf, ev, ev.masks
      ensures ev.Valid() && c.writeBuf == c.builder && c.readBuf == ""
      ensures ev.WriteAsked(c.fd) && ev.OthersWatched(c.fd) && ev.rfds == old(ev.rfds)
    {
      c.writeBuf := c.builder;
      c.readBuf := "";
      hide EventTable.Valid, Writes;
      assert ev.Valid() == old(ev.Valid());
      ev.Watch(c.fd, EV_WRITE);
    }

    method PublishFor(c: Client)
      requires Ready(c) && Elsewhere(ev) && Elsewhere(ev.masks)
      requires ev.Valid() && c.fd < ev.numFds
      modifies c`writeBuf, c`readBuf, ev, ev.masks
      ensures Ready(c) && store.Valid() && store.Repr() == old(store.Repr()) && State(c) == old(State(c))
      ensures ev.Valid() && c.writeBuf == c.builder && c.readBuf == ""
      ensures ev.WriteAsked(c.fd) && ev.OthersWatched(c.fd) && ev.rfds == old(ev.rfds)
    {
      hide Ready, Outside, Elsewhere, ValidStore, EventTable.Valid, EventTable.WriteAsked, EventTable.OthersWatched;
      hide DatabaseArray.Valid, DatabaseArray.Repr, DatabaseArray.View, DatabaseArray.Roots, DatabaseArray.ValidDbs;
      ReadyParts(c);
      NotTheClient(c);
      NoneIs(ev);
      NoneIs(ev.masks);
      Publish(c);
      forall i, o | 0 <= i < |store.dbs| && o in old(store.dbs[i].Repr()) ensures unchanged(o) {
        assert o != c && o != ev && o != ev.masks;
      }
      Unreached(c);
    }

    method ExecuteFor(c: Client, heapImage: string, uptime: nat, ghost due: Effect)
      requires Ready(c) && due == Due(c, heapImage, uptime) && |c.readBuf| < MAX_REQUEST
      requires ev.Valid() && ev !in store.Repr() && ev.masks !in store.Repr() && c !in store.Repr()
      modifies this`executed, c`authed, c`databaseNum, c`builder, c`replied, store.Repr()
      ensures Ready(c) && store.Valid() && store.Grew()
      ensures State(c) == due.0 && c.delivered == old(c.delivered)
      ensures c.builder == old(c.builder) + due.1
      ensures c.replied == old(c.replied) + due.1
      ensures ev.Valid() && unchanged(ev) && unchanged(ev.masks)
    {
      hide *;
      Execute(c, heapImage, uptime);
      assert ev.Valid() == old(ev.Valid());
    }

    lemma EvOutside()
      requires Elsewhere(ev) && Elsewhere(ev.masks)
      ensures ev !in store.Repr() && ev.masks !in store.Repr()
    {
    }

    /** A request is answered: `execute_cmd`, and the reply handed to the write handler. */
    method Respond(c: Client, heapImage: string, uptime: nat, ghost due: Effect)
      requires Ready(c) && due == Due(c, heapImage, uptime) && |c.readBuf| < MAX_REQUEST
      requires Elsewhere(ev) && Elsewhere(ev.masks) && ev.Valid() && c.fd < ev.numFds
      modifies this`executed, c, store.Repr(), ev, ev.masks
      ensures Ready(c) && store.Valid() && store.Grew()
      ensures State(c) == due.0 && c.delivered == old(c.delivered)
      ensures c.builder == old(c.builder) + due.1
      ensures c.replied == old(c.replied) + due.1
      ensures ev.Valid() && c.writeBuf == c.builder && c.readBuf == ""
      ensures ev.WriteAsked(c.fd) && ev.OthersWatched(c.fd) && ev.rfds == old(ev.rfds)
    {
      hide Ready, State, Due, Outside, Elsewhere, StoreView, Exec, ParseCmd, Bytes, ValidStore;
      hide EventTable.Valid, EventTable.WriteAsked;
      hide DatabaseArray.Valid, DatabaseArray.Repr, DatabaseArray.View, DatabaseArray.Roots, DatabaseArray.ValidDbs;
      ReadyParts(c);
      EvOutside();
      ExecuteFor(c, heapImage, uptime, due);
      assert State(c) == due.0;
      StillElsewhere();
      PublishFor(c);
      assert State(c) == due.0;
    }

    /** ... and the other clients are as they were. */
    method RespondTo(c: Client, heapImage: string, uptime: nat, ghost due: Effect)
      requires Ready(c) && due == Due(c, heapImage, uptime) && |c.readBuf| < MAX_REQUEST
      requires Elsewhere(ev) && Elsewhere(ev.masks) && ev.Valid() && c.fd < ev.numFds
      requires this !in store.Repr() && forall d :: d in clients ==> d !in store.Repr()
      modifies this`executed, c, store.Repr(), ev, ev.masks
      ensures clients == old(clients) && forall d :: d in old(clients) && d != c ==> unchanged(d)
      ensures Ready(c) && store.Valid() && store.Grew()
      ensures State(c) == due.0 && c.delivered == old(c.delivered)
      ensures c.builder == old(c.builder) + due.1
      ensures c.replied == old(c.replied) + due.1
      ensures ev.Valid() && c.writeBuf == c.builder && c.readBuf == ""
      ensures ev.WriteAsked(c.fd) && ev.OthersWatched(c.fd) && ev.rfds == old(ev.rfds)
    {
      hide *;
      Respond(c, heapImage, uptime, due);
      forall d | d in clients && d != c ensures unchanged(d) {
        assert d !in old(store.Repr());
      }
    }

    twostate lemma OthersKept(c: Client)
      requires old(Distinct(clients)) && c in clients && clients == old(clients) && Kept(c)
      requires forall d :: d in clients ==> old(Kept(d))
      requires forall d :: d in clients && d != c ==> unchanged(d)
      requires ev.OthersWatched(c.fd)
      ensures forall d :: d in clients ==> Kept(d)
    {
      hide Writes;
      forall d | d in clients && d != c ensures Kept(d) {
        assert d.fd != c.fd;
      }
    }

    twostate lemma StillApart()
      requires old(Apart()) && clients == old(clients) && store.Grew()
      ensures Apart()
    {
      hide DatabaseArray.Roots, DatabaseArray.Repr;
    }

    lemma ValidParts(c: Client)
      requires Valid() && c in clients
      ensures Ready(c) && Elsewhere(ev) && Elsewhere(ev.masks) && ev.Valid() && c.fd < ev.numFds
      ensures Apart() && Distinct(clients) && forall d :: d in clients ==> Kept(d)
    {
      hide DatabaseArray.Roots, DatabaseArray.Repr, DatabaseArray.Valid, Distinct;
    }

    lemma Unaffected()
      requires Apart()
      ensures forall d :: d in clients ==> d !in store.Repr()
      ensures this !in store.Repr()
    {
    }

    lemma CurrentKept(c: Client)
      requires ev.WriteAsked(c.fd) && c.writeBuf == c.builder
      ensures Kept(c)
    {
    }

    method RespondKept(c: Client, heapImage: string, uptime: nat, ghost due: Effect)
      requires Ready(c) && due == Due(c, heapImage, uptime) && |c.readBuf| < MAX_REQUEST && c in clients
      requires Elsewhere(ev) && Elsewhere(ev.masks) && ev.Valid() && c.fd < ev.numFds
      requires this !in store.Repr() && forall d :: d in clients ==> d !in store.Repr()
      requires Distinct(clients) && forall d :: d in clients ==> Kept(d)
      modifies this`executed, c, store.Repr(), ev, ev.masks
      ensures clients == old(clients) && forall d :: d in old(clients) && d != c ==> unchanged(d)
      ensures Ready(c) && store.Valid() && store.Grew()
      ensures State(c) == due.0
      ensures c.replied == old(c.replied) + due.1 && c.builder == old(c.builder) + due.1
      ensures c.delivered == old(c.delivered)
      ensures ev.Valid() && c.readBuf == "" && ev.rfds == old(ev.rfds)
      ensures forall d :: d in clients ==> Kept(d)
    {
      hide *;
      RespondTo(c, heapImage, uptime, due);
      CurrentKept(c);
      OthersKept(c);
    }

    twostate lemma StillValid(c: Client)
      requires old(Valid()) && clients == old(clients) && forall d :: d in clients && d != c ==> unchanged(d)
      requires Ready(c) && store.Grew() && ev.Valid() && forall d :: d in clients ==> Kept(d)
      requires ev.rfds == old(ev.rfds)
      ensures Valid()
    {
      StillApart();
      hide Kept, Apart, Elsewhere, EventTable.Valid, Outside, Distinct;
      hide DatabaseArray.Valid, DatabaseArray.Repr, DatabaseArray.Roots, DatabaseArray.Grew;
    }

    /** The request in the client's buffer, as an event of the state machine. */
    function RequestOf(c: Client, heapImage: string, uptime: nat): Event
      reads this, c
    {
      Request(c.fd, Env(KeyImage(conv, c.readBuf, heapImage), |clients|, uptime), ParseCmd(conv, c.readBuf))
    }

    lemma ShownIsValid(l: Ledger)
      requires Valid() && Shows(l)
      ensures ValidWorld(l.world)
    {
      hide Kept, Apart, Elsewhere, EventTable.Valid, Distinct;
      hide DatabaseArray.Valid, DatabaseArray.Repr, DatabaseArray.Roots;
      forall fd | fd in l.world.sessions ensures l.world.sessions[fd].db < |l.world.store.dbs| {
        var d :| d in clients && d.fd == fd;
        assert l.world.sessions[fd] == d.Session();
      }
    }

    /** What is due is the step of the state machine. */
    lemma DueStep(l: Ledger, c: Client, heapImage: string, uptime: nat)
      requires Ready(c) && ValidWorld(l.world) && c.fd in l.world.sessions && c.fd in l.accounts
      requires l.world.store == StoreView() && l.world.sessions[c.fd] == c.Session()
      ensures var due := Due(c, heapImage, uptime);
        Post(cfg, l, RequestOf(c, heapImage, uptime)) ==
          Ledger(World(due.0.0, l.world.sessions[c.fd := due.0.1]),
                 l.accounts[c.fd := Answered(l.accounts[c.fd], due.1)])
        && due.1 == Bytes(Step(cfg, l.world, RequestOf(c, heapImage, uptime)).1)
    {
      hide Exec, Bytes, ParseCmd, Outside, DatabaseArray.Valid;
      hide DatabaseArray.Repr, DatabaseArray.Roots, DatabaseArray.View;
    }

    lemma NowShows(l: Ledger, c: Client, due: Effect)
      requires store.Valid() && State(c) == due.0 && c in clients && Distinct(clients)
      requires c.fd in l.accounts && c.Books() == Answered(l.accounts[c.fd], due.1)
      requires c.fd in l.world.sessions && l.accounts.Keys == l.world.sessions.Keys
      requires Covers(l.world.sessions, clients)
      requires forall d :: d in clients && d != c ==> CarriedBy(l, d)
      ensures Shows(Ledger(World(due.0.0, l.world.sessions[c.fd := due.0.1]),
                           l.accounts[c.fd := Answered(l.accounts[c.fd], due.1)]))
    {
      hide DatabaseArray.Valid, DatabaseArray.Repr, DatabaseArray.Roots, DatabaseArray.View;
      assert forall d :: d in clients && d != c ==> d.fd != c.fd;
    }

    lemma EachCarried(l: Ledger, c: Client)
      requires Carried(l, clients) && c in clients
      ensures forall d :: d in clients ==> CarriedBy(l, d)
      ensures c.fd in l.world.sessions && l.world.sessions[c.fd] == c.Session()
      ensures c.fd in l.accounts && l.accounts.Keys == l.world.sessions.Keys
      ensures l.accounts[c.fd] == c.Books() == Account(c.replied, c.readBuf, c.builder, c.delivered)
    {
    }

    /** `read_from_client` once a whole request has been read: the invariant stays, the
        server takes one step of the state machine, and the reply is its answer. */
    method AnswerRequest(c: Client, heapImage: string, uptime: nat, ghost l: Ledger)
      requires Valid() && c in clients && |c.readBuf| < MAX_REQUEST && Shows(l)
      modifies this`executed, c, store.Repr(), ev, ev.masks
      ensures Valid() && clients == old(clients) && c.readBuf == "" && store.Grew()
      ensures ValidWorld(l.world)
      ensures Shows(Post(cfg, l, old(RequestOf(c, heapImage, uptime))))
      ensures var reply := Bytes(Step(cfg, l.world, old(RequestOf(c, heapImage, uptime))).1);
        c.replied == old(c.replied) + reply && c.builder == old(c.builder) + reply && c.delivered == old(c.delivered)
    {
      hide *;
      ValidParts(c);
      Unaffected();
      ShownIsValid(l);
      ShownParts(l);
      EachCarried(l, c);
      DueStep(l, c, heapImage, uptime);
      ghost var due := Due(c, heapImage, uptime);
      RespondKept(c, heapImage, uptime, due);
      StillValid(c);
      forall d | d in clients && d != c ensures CarriedBy(l, d) {
        assert CarriedBy(l, d) == old(CarriedBy(l, d));
      }
      BooksAnswered(c, l.accounts[c.fd], due.1);
      NowShows(l, c, due);
    }

    lemma BooksAnswered(c: Client, a: Account, reply: string)
      requires c.replied == a.told + reply && c.builder == a.waiting + reply && c.delivered == a.sent && c.readBuf == ""
      ensures c.Books() == Answered(a, reply)
    {
    }

    lemma ShownParts(l: Ledger)
      requires Shows(l)
      ensures StoreView() == l.world.store && Covers(l.world.sessions, clients) && Carried(l, clients)
    {
    }

    // --------------------------------------------------------- the event handlers

    /** Removes a client whose connection ended, and the events that fired for it. */
    method Forget(i: nat, mask: Mask)
      requires ev.Valid() && i < |clients|
      modifies this`clients, ev, ev.masks
      ensures ev.Valid() && ev.OthersWatched(old(clients)[i].fd)
      ensures ev.rfds == old(ev.rfds) - if Reads(mask) then {old(clients)[i].fd} else {}
      ensures clients == old(clients)[..i] + old(clients)[i + 1..]
    {
      hide EventTable.Valid, Writes;
      var fd := clients[i].fd;
      clients := clients[..i] + clients[i + 1..];
      assert ev.Valid() == old(ev.Valid());
      ev.Unwatch(fd, mask);
    }

    lemma Without(cs: seq<Client>, i: nat)
      requires Distinct(cs) && i < |cs|
      ensures var rest := cs[..i] + cs[i + 1..];
        Distinct(rest) && forall d :: d in rest <==> d in cs && d.fd != cs[i].fd
    {
      var rest := cs[..i] + cs[i + 1..];
      forall j | 0 <= j < |rest| ensures rest[j] == cs[if j < i then j else j + 1] {
      }
      forall d | d in cs && d.fd != cs[i].fd ensures d in rest {
        var j :| 0 <= j < |cs| && cs[j] == d;
        assert rest[if j < i then j else j - 1] == d;
      }
    }

    /** The rest of the clients after one left. */
    twostate lemma RestKept(i: nat)
      requires i < |old(clients)| && old(Distinct(clients)) && forall d :: d in old(clients) ==> old(Kept(d))
      requires clients == old(clients)[..i] + old(clients)[i + 1..]
      requires ev.OthersWatched(old(clients)[i].fd) && forall d :: d in old(clients) ==> unchanged(d)
      ensures Distinct(clients) && forall d :: d in clients ==> Kept(d) && d in old(clients)
      ensures Fds(clients) == Fds(old(clients)) - {old(clients)[i].fd}
    {
      Without(old(clients), i);
      hide Writes, Distinct;
    }

    twostate lemma RestValid()
      requires old(Valid()) && Distinct(clients) && forall d :: d in clients ==> Kept(d) && d in old(clients)
      requires store.Valid() && store.Repr() == old(store.Repr()) && ev.Valid() && ev.rfds == Fds(clients)
      requires forall d :: d in old(clients) ==> unchanged(d)
      ensures Valid()
    {
      hide DatabaseArray.Valid, DatabaseArray.Repr, DatabaseArray.Roots, EventTable.Valid, Distinct, Kept;
    }

    twostate lemma RestStillValid(i: nat)
      requires old(Valid()) && i < |old(clients)| && clients == old(clients)[..i] + old(clients)[i + 1..]
      requires ev.OthersWatched(old(clients)[i].fd) && forall d :: d in old(clients) ==> unchanged(d)
      requires store.Valid() && store.Repr() == old(store.Repr()) && ev.Valid()
      requires ev.rfds == old(ev.rfds) - {old(clients)[i].fd}
      ensures Valid()
    {
      hide DatabaseArray.Valid, DatabaseArray.Repr, DatabaseArray.Roots, EventTable.Valid, Distinct, Kept, Elsewhere;
      RestKept(i);
      RestValid();
    }

    method DropFramed(i: nat, mask: Mask)
      requires store.Valid() && Elsewhere(this) && Elsewhere(ev) && Elsewhere(ev.masks)
      requires ev.Valid() && i < |clients|
      modifies this`clients, ev, ev.masks
      ensures store.Valid() && store.Repr() == old(store.Repr()) && StoreView() == old(StoreView())
      ensures ev.Valid() && ev.OthersWatched(old(clients)[i].fd)
      ensures ev.rfds == old(ev.rfds) - if Reads(mask) then {old(clients)[i].fd} else {}
      ensures clients == old(clients)[..i] + old(clients)[i + 1..]
    {
      hide Ready, Outside, Elsewhere, ValidStore, EventTable.Valid, EventTable.WriteAsked, EventTable.OthersWatched;
      hide DatabaseArray.Valid, DatabaseArray.Repr, DatabaseArray.View, DatabaseArray.Roots, DatabaseArray.ValidDbs;
      NoneIs(this);
      NoneIs(ev);
      NoneIs(ev.masks);
      store.Allocated();
      Forget(i, mask);
      forall j, o | 0 <= j < |store.dbs| && o in old(store.dbs[j].Repr()) ensures unchanged(o) {
        assert o != this && o != ev && o != ev.masks;
      }
      store.Untouched();
    }

    lemma RestShows(l: Ledger, before: seq<Client>, i: nat)
      requires i < |before| && Distinct(before) && clients == before[..i] + before[i + 1..]
      requires store.Valid() && StoreView() == l.world.store
      requires Covers(l.world.sessions, before) && Carried(l, before) && ValidWorld(l.world)
      ensures Shows(Post(cfg, l, Disconnect(before[i].fd)))
    {
      hide DatabaseArray.Valid, DatabaseArray.Repr, DatabaseArray.Roots, DatabaseArray.View, Distinct, Exec;
      Without(before, i);
      forall d | d in clients ensures CarriedBy(Post(cfg, l, Disconnect(before[i].fd)), d) {
        assert d in before && CarriedBy(l, d);
      }
    }

    method DropValid(i: nat, mask: Mask)
      requires Valid() && i < |clients| && Reads(mask)
      modifies this`clients, ev, ev.masks
      ensures Valid() && clients == old(clients)[..i] + old(clients)[i + 1..]
      ensures store.Valid() && StoreView() == old(StoreView()) && store.Repr() == old(store.Repr())
    {
      hide *;
      AcceptParts();
      DropFramed(i, mask);
      RestStillValid(i);
    }

    lemma Before(l: Ledger)
      requires Valid() && Shows(l)
      ensures ValidWorld(l.world) && Distinct(clients) && store.Valid()
      ensures StoreView() == l.world.store && Covers(l.world.sessions, clients) && Carried(l, clients)
    {
      ShownIsValid(l);
    }

    /** End of input: the client leaves. */
    method Drop(i: nat, mask: Mask, ghost l: Ledger)
      requires Valid() && i < |clients| && Shows(l) && Reads(mask)
      modifies this`clients, ev, ev.masks
      ensures Valid() && ValidWorld(l.world) && Shows(Post(cfg, l, Disconnect(old(clients[i].fd))))
      ensures store.Repr() == old(store.Repr()) && clients == old(clients)[..i] + old(clients)[i + 1..]
    {
      hide *;
      Before(l);
      ghost var before := clients;
      DropValid(i, mask);
      assert Carried(l, before) == old(Carried(l, before));
      RestShows(l, before, i);
    }

    // ------------------------------------------------------------------ writing

    /** The loop of `write_to_client`: each call starts at the front of the buffer. */
    method SendLoop(c: Client, amounts: seq<nat>) returns (done: bool)
      requires Fits(c.writeBuf, amounts)
      modifies c`delivered
      ensures (c.delivered, done) == (old(c.delivered) + Sent(c.writeBuf, 0, amounts).0, Sent(c.writeBuf, 0, amounts).1)
    {
      var sent: nat, k: nat := 0, 0;
      ghost var d0 := c.delivered;
      while sent < |c.writeBuf|
        invariant 0 <= k <= |amounts|
        invariant d0 + Sent(c.writeBuf, 0, amounts).0 == c.delivered + Sent(c.writeBuf, sent, amounts[k..]).0
        invariant Sent(c.writeBuf, 0, amounts).1 == Sent(c.writeBuf, sent, amounts[k..]).1
        decreases |amounts| - k
      {
        if k == |amounts| {
          assert c.delivered + "" == c.delivered;
          return false;
        }
        assert amounts[k..][1..] == amounts[k + 1..];
        ghost var chunk := c.writeBuf[..amounts[k]];
        ghost var more := Sent(c.writeBuf, sent + amounts[k], amounts[k + 1..]).0;
        assert c.delivered + (chunk + more) == (c.delivered + chunk) + more;
        c.delivered := c.delivered + chunk;
        sent := sent + amounts[k];
        k := k + 1;
      }
      assert c.delivered + "" == c.delivered;
      done := true;
    }

    /** The writing part of `write_to_client`. */
    method Deliver(c: Client, amounts: seq<nat>) returns (done: bool)
      requires Kept(c) && ev.WriteAsked(c.fd) && ev.Valid() && Fits(c.writeBuf, amounts)
      modifies c`delivered, c`builder, ev, ev.masks
      ensures Kept(c) && ev.Valid() && ev.OthersWatched(c.fd) && ev.rfds == old(ev.rfds)
      ensures c.Books() == Flushed(old(c.Books()), amounts)
      ensures done == Sent(old(c.builder), 0, amounts).1 && ev.WriteAsked(c.fd) == !done
    {
      hide Fits, EventTable.Valid, Reads, Writes, Sent;
      done := SendLoop(c, amounts);
      assert ev.Valid() == old(ev.Valid());
      if !done {
        return;
      }
      SingleWrite();
      ev.Unwatch(c.fd, EV_WRITE);
      c.builder := "";
    }

    lemma SingleWrite()
      ensures Writes(EV_WRITE) && !Reads(EV_WRITE)
    {
    }

    method DeliverFramed(c: Client, amounts: seq<nat>) returns (done: bool)
      requires Ready(c) && Elsewhere(ev) && Elsewhere(ev.masks)
      requires Kept(c) && ev.WriteAsked(c.fd) && ev.Valid() && Fits(c.writeBuf, amounts)
      requires c.writeBuf == c.builder
      modifies c`delivered, c`builder, ev, ev.masks
      ensures Ready(c) && store.Valid() && store.Repr() == old(store.Repr()) && StoreView() == old(StoreView())
      ensures Kept(c) && ev.Valid() && ev.OthersWatched(c.fd) && ev.rfds == old(ev.rfds)
      ensures c.Books() == Flushed(old(c.Books()), amounts)
      ensures done == Sent(old(c.builder), 0, amounts).1 && ev.WriteAsked(c.fd) == !done
    {
      hide Ready, Outside, Elsewhere, ValidStore, EventTable.Valid, EventTable.WriteAsked, EventTable.OthersWatched;
      hide DatabaseArray.Valid, DatabaseArray.Repr, DatabaseArray.View, DatabaseArray.Roots, DatabaseArray.ValidDbs;
      ReadyParts(c);
      NotTheClient(c);
      NoneIs(ev);
      NoneIs(ev.masks);
      done := Deliver(c, amounts);
      forall i, o | 0 <= i < |store.dbs| && o in old(store.dbs[i].Repr()) ensures unchanged(o) {
        assert o != c && o != ev && o != ev.masks;
      }
      Unreached(c);
    }

    method WriteValid(c: Client, amounts: seq<nat>) returns (done: bool)
      requires Valid() && c in clients && ev.WriteAsked(c.fd) && Fits(c.builder, amounts)
      modifies c`delivered, c`builder, ev, ev.masks
      ensures Valid() && store.Valid() && StoreView() == old(StoreView()) && store.Repr() == old(store.Repr())
      ensures c.Books() == Flushed(old(c.Books()), amounts)
      ensures done == Sent(old(c.builder), 0, amounts).1 && ev.WriteAsked(c.fd) == !done
    {
      hide *;
      ValidParts(c);
      Buffers();
      done := DeliverFramed(c, amounts);
      OthersKept(c);
      SameValid();
    }

    /** Nothing but buffers and the event table changed. */
    twostate lemma SameValid()
      requires old(Valid()) && clients == old(clients) && forall d :: d in clients ==> Kept(d)
      requires forall d :: d in clients ==> d.databaseNum == old(d.databaseNum)
      requires store.Valid() && store.Repr() == old(store.Repr()) && ev.Valid() && ev.rfds == old(ev.rfds)
      ensures Valid()
    {
      hide DatabaseArray.Valid, DatabaseArray.Repr, DatabaseArray.Roots, EventTable.Valid, Distinct, Kept;
    }

    method IgnoreFramed(fd: nat, mask: Mask)
      requires store.Valid() && Elsewhere(ev) && Elsewhere(ev.masks) && ev.Valid()
      modifies ev, ev.masks
      ensures store.Valid() && store.Repr() == old(store.Repr()) && StoreView() == old(StoreView())
      ensures ev.Valid() && ev.OthersWatched(fd)
      ensures ev.rfds == old(ev.rfds) - if Reads(mask) then {fd} else {}
    {
      hide Ready, Outside, Elsewhere, ValidStore, EventTable.Valid, EventTable.WriteAsked, EventTable.OthersWatched;
      hide DatabaseArray.Valid, DatabaseArray.Repr, DatabaseArray.View, DatabaseArray.Roots, DatabaseArray.ValidDbs;
      NoneIs(ev);
      NoneIs(ev.masks);
      store.Allocated();
      ev.Unwatch(fd, mask);
      forall j, o | 0 <= j < |store.dbs| && o in old(store.dbs[j].Repr()) ensures unchanged(o) {
        assert o != ev && o != ev.masks;
      }
      store.Untouched();
    }

    twostate lemma StrangersKept(fd: nat)
      requires clients == old(clients) && forall d :: d in clients ==> d.fd != fd && old(Kept(d)) && unchanged(d)
      requires ev.OthersWatched(fd)
      ensures forall d :: d in clients ==> Kept(d)
    {
      hide Writes;
    }

    /** An event for a descriptor without a client: its events are removed. */
    method Ignore(fd: nat, mask: Mask)
      requires Valid() && forall d :: d in clients ==> d.fd != fd
      modifies ev, ev.masks
      ensures Valid() && store.Valid() && StoreView() == old(StoreView()) && store.Repr() == old(store.Repr())
    {
      hide *;
      EventParts();
      NotWatched(fd);
      IgnoreFramed(fd, mask);
      StrangersKept(fd);
      SameValid();
    }

    lemma NotWatched(fd: nat)
      requires Valid() && forall d :: d in clients ==> d.fd != fd
      ensures fd !in ev.rfds
    {
      hide DatabaseArray.Roots, DatabaseArray.Repr, DatabaseArray.Valid, Distinct, Kept, EventTable.Valid;
    }

    lemma EventParts()
      requires Valid()
      ensures store.Valid() && Elsewhere(ev) && Elsewhere(ev.masks) && ev.Valid()
      ensures forall d :: d in clients ==> Kept(d)
    {
      hide DatabaseArray.Roots, DatabaseArray.Repr, DatabaseArray.Valid, Distinct, Kept;
    }

    lemma StillShows(l: Ledger)
      requires store.Valid() && StoreView() == l.world.store && Covers(l.world.sessions, clients) && Carried(l, clients)
      ensures Shows(l)
    {
    }

    method IgnoreShown(fd: nat, mask: Mask, ghost l: Ledger)
      requires Valid() && Shows(l) && forall d :: d in clients ==> d.fd != fd
      modifies ev, ev.masks
      ensures Valid() && Shows(l) && store.Repr() == old(store.Repr())
    {
      hide *;
      ShownParts(l);
      Ignore(fd, mask);
      assert Carried(l, clients) == old(Carried(l, clients));
      StillShows(l);
    }

    /** One client's account changed, and nothing else the books tell. */
    lemma AccountShows(l: Ledger, c: Client, a: Account)
      requires store.Valid() && StoreView() == l.world.store && Covers(l.world.sessions, clients) && Distinct(clients)
      requires c in clients && c.fd in l.world.sessions && l.world.sessions[c.fd] == c.Session()
      requires l.accounts.Keys == l.world.sessions.Keys && c.Books() == a
      requires forall d :: d in clients && d != c ==> CarriedBy(l, d)
      ensures Shows(l.(accounts := l.accounts[c.fd := a]))
    {
      hide DatabaseArray.Valid, DatabaseArray.Repr, DatabaseArray.Roots, DatabaseArray.View;
      assert forall d :: d in clients && d != c ==> d.fd != c.fd;
    }

    lemma WroteIs(l: Ledger, fd: nat, amounts: seq<nat>)
      requires fd in l.accounts && Fits(l.accounts[fd].waiting, amounts)
      ensures Wrote(l, fd, amounts) == l.(accounts := l.accounts[fd := Flushed(l.accounts[fd], amounts)])
    {
    }

    method WriteShown(c: Client, amounts: seq<nat>, ghost l: Ledger) returns (done: bool)
      requires Valid() && Shows(l) && c in clients && ev.WriteAsked(c.fd)
      requires c.fd in l.accounts && Fits(l.accounts[c.fd].waiting, amounts) && l.accounts[c.fd] == c.Books()
      modifies c`delivered, c`builder, ev, ev.masks
      ensures Valid() && Shows(Wrote(l, c.fd, amounts)) && store.Repr() == old(store.Repr())
      ensures ev.WriteAsked(c.fd) == !done == !Sent(old(c.builder), 0, amounts).1
    {
      hide *;
      Before(l);
      EachCarried(l, c);
      done := WriteValid(c, amounts);
      assert c.Session() == old(c.Session());
      forall d | d in clients && d != c ensures CarriedBy(l, d) {
        assert CarriedBy(l, d) == old(CarriedBy(l, d));
      }
      AccountShows(l, c, Flushed(l.accounts[c.fd], amounts));
      WroteIs(l, c.fd, amounts);
    }

    /** `write_to_client`, called because `fd` can be written to: the calls put on the
        wire what the books say, and the loop's end decides what still waits. */
    method WriteToClient(fd: nat, amounts: seq<nat>, mask: Mask, ghost l: Ledger)
      requires Valid() && Shows(l) && ev.WriteAsked(fd)
      requires fd in l.accounts ==> Fits(l.accounts[fd].waiting, amounts)
      modifies clients, ev, ev.masks
      ensures Valid() && store.Repr() == old(store.Repr())
      ensures Shows(if fd in l.accounts then Wrote(l, fd, amounts) else l)
      ensures fd in l.accounts ==> ev.WriteAsked(fd) == !Sent(l.accounts[fd].waiting, 0, amounts).1
    {
      hide *;
      Before(l);
      Known(l, fd);
      var i := FindClient(clients, fd);
      if i == |clients| {
        IgnoreShown(fd, mask, l);
      } else {
        EachCarried(l, clients[i]);
        var _ := WriteShown(clients[i], amounts, l);
      }
    }

    // ------------------------------------------------------------------ reading

    /** The reading loop: whatever arrives before the socket would block. */
    method Receive(c: Client, chunks: seq<string>)
      modifies c`readBuf
      ensures c.readBuf == old(c.readBuf) + Joined(chunks)
    {
      ghost var r0 := c.readBuf;
      for k := 0 to |chunks|
        invariant c.readBuf == r0 + Joined(chunks[..k])
      {
        assert chunks[..k + 1][..k] == chunks[..k];
        assert r0 + (Joined(chunks[..k]) + chunks[k]) == (r0 + Joined(chunks[..k])) + chunks[k];
        c.readBuf := c.readBuf + chunks[k];
      }
      assert chunks[..|chunks|] == chunks;
    }

    method ReceiveFramed(c: Client, chunks: seq<string>)
      requires Ready(c)
      modifies c`readBuf
      ensures Ready(c) && store.Valid() && store.Repr() == old(store.Repr()) && StoreView() == old(StoreView())
      ensures c.readBuf == old(c.readBuf) + Joined(chunks)
    {
      hide Ready, Outside, Elsewhere, ValidStore, EventTable.Valid, EventTable.WriteAsked, EventTable.OthersWatched;
      hide DatabaseArray.Valid, DatabaseArray.Repr, DatabaseArray.View, DatabaseArray.Roots, DatabaseArray.ValidDbs;
      ReadyParts(c);
      NotTheClient(c);
      Receive(c, chunks);
      forall i, o | 0 <= i < |store.dbs| && o in old(store.dbs[i].Repr()) ensures unchanged(o) {
        assert o != c;
      }
      Unreached(c);
    }

    method ReceiveValid(c: Client, chunks: seq<string>)
      requires Valid() && c in clients
      modifies c`readBuf
      ensures Valid() && store.Valid() && StoreView() == old(StoreView()) && store.Repr() == old(store.Repr())
      ensures c.readBuf == old(c.readBuf) + Joined(chunks)
    {
      hide *;
      ValidParts(c);
      ReceiveFramed(c, chunks);
      assert ev.Valid() == old(ev.Valid());
      forall d | d in clients ensures Kept(d) {
        assert Kept(d) == old(Kept(d));
      }
      SameValid();
    }

    method ReceiveShown(c: Client, chunks: seq<string>, ghost l: Ledger)
      requires Valid() && Shows(l) && c in clients && c.fd in l.accounts
      modifies c`readBuf
      ensures Valid() && Shows(Arrived(l, c.fd, chunks)) && store.Repr() == old(store.Repr())
      ensures c.readBuf == old(c.readBuf) + Joined(chunks)
    {
      hide *;
      Before(l);
      EachCarried(l, c);
      ReceiveValid(c, chunks);
      assert c.Session() == old(c.Session());
      forall d | d in clients && d != c ensures CarriedBy(l, d) {
        assert CarriedBy(l, d) == old(CarriedBy(l, d));
      }
      BooksArrived(l, c, chunks);
      AccountShows(l, c, c.Books());
    }

    lemma BooksArrived(l: Ledger, c: Client, chunks: seq<string>)
      requires c.fd in l.accounts && c.readBuf == l.accounts[c.fd].pending + Joined(chunks)
      requires l.accounts[c.fd] == Account(c.replied, l.accounts[c.fd].pending, c.builder, c.delivered)
      ensures Arrived(l, c.fd, chunks) == l.(accounts := l.accounts[c.fd := c.Books()])
    {
    }

    function Setup(): Setting {
      Setting(cfg, conv, ev.numFds)
    }

    /** What happens once reading has stopped. */
    method ReadDone(i: nat, end: ReadEnd, mask: Mask, heapImage: string, uptime: nat, ghost l: Ledger)
      requires Valid() && Shows(l) && i < |clients| && |clients[i].readBuf| < MAX_REQUEST
      requires clients[i].fd in l.accounts && Reads(mask)
      modifies this`executed, this`clients, clients[i], store.Repr(), ev, ev.masks
      ensures Valid() && ValidWorld(l.world)
      ensures Shows(PostOne(cfg, l, Asked(Setup(), l, old(clients)[i].fd, end, heapImage, uptime)))
      ensures store.Grew() && forall d :: d in clients ==> d in old(clients)
    {
      hide Valid, Shows, ValidWorld, Step, Post, Bytes, ParseCmd, ValidStore;
      hide StoreView, Carried, CarriedBy, Covers, Distinct;
      hide DatabaseArray.Valid, DatabaseArray.Repr, DatabaseArray.View, DatabaseArray.Roots;
      Before(l);
      EachCarried(l, clients[i]);
      SessionCount(l.world.sessions, clients);
      match end
      case Failed =>
      case Closed => Drop(i, mask, l);
      case WouldBlock => AnswerRequest(clients[i], heapImage, uptime, l);
    }

    /** `read_from_client`: for a known client the server takes the step that the bytes
        read, together with what was left from before, ask for. */
    method ReadFromClient(fd: nat, chunks: seq<string>, end: ReadEnd, mask: Mask, heapImage: string, uptime: nat,
                          ghost l: Ledger)
      requires Valid() && Shows(l) && Reads(mask)
      requires forall d :: d in clients && d.fd == fd ==> |d.readBuf| + |Joined(chunks)| < MAX_REQUEST
      modifies this`executed, this`clients, clients, store.Repr(), ev, ev.masks
      ensures Valid() && ValidWorld(l.world)
      ensures Shows(IoPost(Setup(), l, Readable(fd, chunks, end, mask, heapImage, uptime)))
      ensures store.Grew() && forall d :: d in clients ==> d in old(clients)
    {
      hide Valid, Shows, ValidWorld, Step, Post, PostOne, Asked, Bytes, ParseCmd, ValidStore, StoreView, Joined;
      hide DatabaseArray.Valid, DatabaseArray.Repr, DatabaseArray.View, DatabaseArray.Roots;
      Before(l);
      var i := FindClient(clients, fd);
      if i == |clients| {
        IgnoreShown(fd, EV_READ, l);
        return;
      }
      EachCarried(l, clients[i]);
      ReceiveShown(clients[i], chunks, l);
      ReadDone(i, end, mask, heapImage, uptime, Arrived(l, fd, chunks));
    }

    // ---------------------------------------------------------------- accepting

    method Enroll(fd: nat) returns (c: Client)
      requires ev.Valid() && fd < ev.numFds
      modifies this`clients, ev, ev.masks
      ensures fresh(c) && c.fd == fd && c.authed == false && c.databaseNum == 0
      ensures c.readBuf == c.builder == c.writeBuf == c.replied == c.delivered == ""
      ensures clients == old(clients) + [c] && ev.Valid() && ev.OthersWatched(fd)
      ensures ev.rfds == old(ev.rfds) + {fd}
    {
      hide EventTable.Valid, EventTable.WriteAsked;
      c := new Client(fd);
      clients := clients + [c];
      assert ev.Valid() == old(ev.Valid());
      ev.Watch(fd, EV_READ);
    }

    method EnrollFramed(fd: nat) returns (c: Client)
      requires store.Valid() && Elsewhere(this) && Elsewhere(ev) && Elsewhere(ev.masks)
      requires ev.Valid() && fd < ev.numFds
      modifies this`clients, ev, ev.masks
      ensures store.Valid() && store.Repr() == old(store.Repr()) && StoreView() == old(StoreView())
      ensures fresh(c) && c.fd == fd && c.authed == false && c.databaseNum == 0
      ensures c.readBuf == c.builder == c.writeBuf == c.replied == c.delivered == ""
      ensures clients == old(clients) + [c] && ev.Valid() && ev.OthersWatched(fd)
      ensures ev.rfds == old(ev.rfds) + {fd}
    {
      hide Ready, Outside, Elsewhere, ValidStore, EventTable.Valid, EventTable.WriteAsked, EventTable.OthersWatched;
      hide DatabaseArray.Valid, DatabaseArray.Repr, DatabaseArray.View, DatabaseArray.Roots, DatabaseArray.ValidDbs;
      NoneIs(this);
      NoneIs(ev);
      NoneIs(ev.masks);
      store.Allocated();
      c := Enroll(fd);
      forall j, o | 0 <= j < |store.dbs| && o in old(store.dbs[j].Repr()) ensures unchanged(o) {
        assert o != this && o != ev && o != ev.masks;
      }
      store.Untouched();
    }

    lemma OneMore(cs: seq<Client>, c: Client)
      requires Distinct(cs) && forall d :: d in cs ==> d.fd != c.fd
      ensures Distinct(cs + [c]) && forall d :: d in cs + [c] <==> d in cs || d == c
    {
    }

    /** A newcomer has nothing to be written, whatever events the descriptor still has
        from an earlier connection. */
    twostate lemma EnrolledValid(new c: Client)
      requires old(Valid()) && (forall d :: d in old(clients) ==> d.fd != c.fd && unchanged(d))
      requires clients == old(clients) + [c] && ev.Valid() && ev.OthersWatched(c.fd)
      requires ev.rfds == old(ev.rfds) + {c.fd}
      requires c.fd < ev.masks.Length && 0 < |store.dbs|
      requires fresh(c) && c.databaseNum == 0 && c.builder == c.writeBuf == c.replied == c.delivered == ""
      requires store.Valid() && store.Repr() == old(store.Repr())
      ensures Valid()
    {
      hide DatabaseArray.Valid, DatabaseArray.Repr, EventTable.Valid, Writes, Distinct;
      OneMore(old(clients), c);
      store.WasThere();
      forall d | d in clients ensures Elsewhere(d) && Kept(d) && d.databaseNum < |store.dbs| {
        if d != c {
          assert d in old(clients) && old(Kept(d));
        }
      }
    }

    lemma AcceptParts()
      requires Valid()
      ensures store.Valid() && Elsewhere(this) && Elsewhere(ev) && Elsewhere(ev.masks) && ev.Valid()
      ensures ev.masks.Length == ev.numFds && 0 < |store.dbs|
    {
    }

    method AcceptValid(fd: nat) returns (c: Client)
      requires Valid() && fd < ev.numFds && forall d :: d in clients ==> d.fd != fd
      modifies this`clients, ev, ev.masks
      ensures Valid() && store.Valid() && StoreView() == old(StoreView()) && store.Repr() == old(store.Repr())
      ensures fresh(c) && c.fd == fd && c.Session() == NEW_SESSION && c.Books() == NEW_ACCOUNT
      ensures clients == old(clients) + [c]
    {
      hide Valid, Elsewhere, Kept, Apart, StoreView, Distinct, ValidStore, EventTable.Valid;
      hide DatabaseArray.Valid, DatabaseArray.Repr, DatabaseArray.View, DatabaseArray.Roots;
      AcceptParts();
      c := EnrollFramed(fd);
      EnrolledValid(c);
    }

    lemma NewShows(l: Ledger, before: seq<Client>, c: Client)
      requires clients == before + [c] && c.Session() == NEW_SESSION && c.Books() == NEW_ACCOUNT
      requires forall d :: d in before ==> d.fd != c.fd
      requires store.Valid() && StoreView() == l.world.store
      requires Covers(l.world.sessions, before) && Carried(l, before) && ValidWorld(l.world)
      ensures Shows(Post(cfg, l, Connect(c.fd)))
    {
      hide DatabaseArray.Valid, DatabaseArray.Repr, DatabaseArray.Roots, DatabaseArray.View;
      forall d ensures d in clients <==> d in before || d == c {
      }
    }

    /** `server_accept` for a descriptor the event table has room for. */
    method Accept(fd: nat, ghost l: Ledger)
      requires Valid() && Shows(l) && fd < ev.numFds && forall d :: d in clients ==> d.fd != fd
      modifies this`clients, ev, ev.masks
      ensures Valid() && ValidWorld(l.world) && Shows(Post(cfg, l, Connect(fd)))
      ensures store.Repr() == old(store.Repr()) && |clients| == |old(clients)| + 1 && fresh(clients[|old(clients)|])
      ensures clients[..|old(clients)|] == old(clients)
    {
      hide *;
      Before(l);
      ghost var before := clients;
      var c := AcceptValid(fd);
      assert Carried(l, before) == old(Carried(l, before));
      NewShows(l, before, c);
    }

    // --------------------------------------------------------------- whole runs

    /** The environment can do this now: a new connection has a descriptor of its own
        within the event table, a socket is read from because it fired for reading, less
        than four gigabytes wait to be parsed, a socket is written to because that was
        asked for, and no call takes more than it is given. */
    predicate Possible(io: Io)
      reads this, ev.masks, clients
    {
      match io
      case Connecting(fd) => fd < ev.numFds && FindClient(clients, fd) == |clients|
      case Readable(fd, chunks, _, mask, _, _) =>
        var i := FindClient(clients, fd);
        Reads(mask) && (i < |clients| ==> |clients[i].readBuf| + |Joined(chunks)| < MAX_REQUEST)
      case Writable(fd, amounts, _) =>
        var i := FindClient(clients, fd);
        ev.WriteAsked(fd) && (i < |clients| ==> Fits(clients[i].writeBuf, amounts))
    }

    lemma Unmatched(cs: seq<Client>, fd: nat)
      requires Distinct(cs)
      ensures var i := FindClient(cs, fd); forall d :: d in cs && d.fd == fd ==> i < |cs| && d == cs[i]
    {
    }

    /** The books know which descriptors have clients, and what a client left unread. */
    lemma Known(l: Ledger, fd: nat)
      requires Covers(l.world.sessions, clients) && Carried(l, clients)
      ensures var i := FindClient(clients, fd);
        (fd in l.world.sessions <==> i < |clients|)
        && (fd in l.accounts <==> i < |clients|)
        && (i < |clients| ==> l.accounts[fd] == clients[i].Books() && l.accounts[fd].pending == clients[i].readBuf
                              && l.accounts[fd].waiting == clients[i].builder)
    {
      var i := FindClient(clients, fd);
      if i < |clients| {
        EachCarried(l, clients[i]);
      }
    }

    /** One event of the event loop: the handlers do what the books say. */
    method Turn(io: Io, ghost l: Ledger)
      requires Valid() && Shows(l) && Possible(io)
      modifies this`executed, this`clients, clients, store.Repr(), ev, ev.masks
      ensures Valid() && ValidWorld(l.world) && Shows(IoPost(Setup(), l, io))
      ensures store.Grew() && forall d :: d in clients ==> d in old(clients) || fresh(d)
    {
      hide Valid, Shows, ValidWorld, Step, Post, PostOne, Asked, Distinct;
      hide FindClient, Fits, EventTable.WriteAsked, Joined, Wrote;
      hide DatabaseArray.Valid, DatabaseArray.Repr, DatabaseArray.View, DatabaseArray.Roots, Covers, Carried;
      Before(l);
      Unmatched(clients, io.fd);
      Known(l, io.fd);
      Buffers();
      match io
      case Connecting(fd) => Accept(fd, l);
      case Readable(fd, chunks, end, mask, heapImage, uptime) =>
        ReadFromClient(fd, chunks, end, mask, heapImage, uptime, l);
      case Writable(fd, amounts, mask) => WriteToClient(fd, amounts, mask, l);
    }

    /** A write buffer that is asked for is the one that waits; if none is asked for
        nothing waits. */
    lemma Buffers()
      requires Valid()
      ensures forall c :: c in clients ==> if ev.WriteAsked(c.fd) then c.writeBuf == c.builder else c.builder == ""
    {
      hide DatabaseArray.Valid, DatabaseArray.Repr, DatabaseArray.Roots, EventTable.Valid, Distinct, Apart;
    }

    /** What the environment cannot do is not entered in the books. */
    lemma NotEntered(io: Io, l: Ledger)
      requires Covers(l.world.sessions, clients) && Carried(l, clients) && ValidWorld(l.world) && !Possible(io)
      requires forall c :: c in clients ==> if ev.WriteAsked(c.fd) then c.writeBuf == c.builder else c.builder == ""
      ensures IoPost(Setup(), l, io) == l
    {
      hide Carried, Covers, Joined, FindClient, Post, PostOne, EventTable.WriteAsked, Asked;
      Known(l, io.fd);
      if io.Writable? && Acceptable(Setup(), l, io) {
        var a := l.accounts[io.fd];
        assert a.waiting == "" && a.sent + "" == a.sent;
        assert l.accounts[io.fd := a] == l.accounts;
      }
    }

    lemma IoMore(l: Ledger, ios: seq<Io>, k: nat)
      requires ValidWorld(l.world) && k < |ios|
      ensures IoPostAll(Setup(), l, ios[..k + 1]) == IoPost(Setup(), IoPostAll(Setup(), l, ios[..k]), ios[k])
    {
      hide IoPost;
      assert ios[..k + 1][..k] == ios[..k];
    }

    lemma AccountsAre(l: Ledger)
      requires Valid() && Shows(l)
      ensures forall c :: c in clients ==>
        c.fd in l.accounts && c.delivered == l.accounts[c.fd].sent && c.builder == l.accounts[c.fd].waiting
      ensures forall c :: c in clients && c.builder != "" ==> ev.WriteAsked(c.fd)
      ensures ev.rfds == Fds(clients)
    {
    }

    /** Any run of the event loop: the server is in the state that the state machine
        reaches with the requests that arrived, what went over each connection and what
        still waits is what the books say, nothing waits without a registered write, and
        exactly the connected sockets are watched for reading.
        `Ledgers.RunBalanced` tells when that is exactly what was answered. */
    method Serve(ios: seq<Io>, ghost l: Ledger)
      requires Valid() && Shows(l)
      modifies this, clients, store.Repr(), ev, ev.masks
      ensures Valid() && ValidWorld(l.world) && Shows(IoPostAll(Setup(), l, ios))
      ensures var end := IoPostAll(Setup(), l, ios);
        forall c :: c in clients ==>
          c.fd in end.accounts && c.delivered == end.accounts[c.fd].sent && c.builder == end.accounts[c.fd].waiting
      ensures forall c :: c in clients && c.builder != "" ==> ev.WriteAsked(c.fd)
      ensures ev.rfds == Fds(clients)
    {
      hide Valid, Shows, ValidWorld, IoPost, Possible, EventTable.WriteAsked, Covers, Carried;
      hide DatabaseArray.Valid, DatabaseArray.Repr, DatabaseArray.View, DatabaseArray.Roots;
      Before(l);
      ghost var now := l;
      for k := 0 to |ios|
        invariant Valid() && ValidWorld(l.world) && now == IoPostAll(Setup(), l, ios[..k]) && Shows(now)
        invariant forall o :: o in store.Repr() ==> o in old(store.Repr()) || fresh(o)
        invariant forall d :: d in clients ==> d in old(clients) || fresh(d)
      {
        IoMore(l, ios, k);
        if Possible(ios[k]) {
          forall i | 0 <= i < |clients| ensures clients[i] in old(clients) || fresh(clients[i]) {
          }
          Turn(ios[k], now);
        } else {
          Before(now);
          Buffers();
          NotEntered(ios[k], now);
        }
        now := IoPost(Setup(), now, ios[k]);
      }
      assert ios[..|ios|] == ios;
      AccountsAre(now);
    }
  }

  method AttachTo(store: DatabaseArray, cfg: Config, conv: string -> int64, numFds: nat) returns (s: Server)
    requires store.Valid()
    ensures store.Valid() && store.View() == old(store.View()) && store.Repr() == old(store.Repr())
    ensures fresh(s) && fresh(s.ev) && fresh(s.ev.masks)
    ensures s.store == store && s.cfg == cfg && s.conv == conv && s.ev.numFds == numFds
    ensures s.executed == 0 && s.clients == [] && s.ev.Valid() && s.ev.rfds == {}
    ensures s.Elsewhere(s) && s.Elsewhere(s.ev) && s.Elsewhere(s.ev.masks)
  {
    hide DatabaseArray.Valid, DatabaseArray.Repr, DatabaseArray.View, DatabaseArray.Roots, EventTable.Valid;
    ghost var roots, repr := store.Roots(), store.Repr();
    var ev := new EventTable(numFds);
    label Made:
    s := new Server(store, cfg, conv, ev);
    assert ev.Valid() == old@Made(ev.Valid());
    store.WasAllocated();
    store.Untouched();
    assert store.Repr() == repr;
    store.WasThere();
    forall o: object | o == s || o == ev || o == ev.masks ensures o !in roots && o !in repr {
      assert !old(allocated(o));
    }
  }

  lemma FreshValid(s: Server)
    requires s.store.Valid() && s.ev.Valid() && s.ev.rfds == {} && s.clients == [] && s.executed == 0
    requires s.Elsewhere(s) && s.Elsewhere(s.ev) && s.Elsewhere(s.ev.masks)
    requires forall i :: 0 <= i < |s.cfg.users| ==> |s.cfg.users[i].password| == 64
    ensures s.Valid() && s.Shows(Ledger(World(Store(s.store.View(), 0), map[]), map[]))
  {
    hide DatabaseArray.Valid, DatabaseArray.Repr, DatabaseArray.View, DatabaseArray.Roots, EventTable.Valid;
  }

  /** A started server: the invariant holds of empty databases and no clients. */
  method NewServer(seeds: seq<Seeds>, cfg: Config, conv: string -> int64, numFds: nat) returns (s: Server)
    requires 0 < |seeds| <= MAX_DATABASES
    requires forall i :: 0 <= i < |cfg.users| ==> |cfg.users[i].password| == 64
    ensures s.Valid() && s.cfg == cfg && s.conv == conv && s.ev.numFds == numFds
    ensures s.Shows(Ledger(World(Store(EmptyDbs(seeds), 0), map[]), map[]))
    ensures s.clients == [] && fresh(s) && fresh(s.store.Repr()) && fresh(s.ev) && fresh(s.ev.masks)
  {
    hide *;
    var store := NewStore(seeds);
    s := AttachTo(store, cfg, conv, numFds);
    FreshValid(s);
  }
}
