/** The event loop as functions on values: what connections, arriving bytes and
    closing sockets make of the command state machine and of the replies. */
module Ledgers {
  import opened Objects
  import opened Commands
  import opened RequestKeys
  import opened Events
  import opened Sending
  import opened Sequences
  import opened ServerSpec
  import opened ServerRuns

  /** How a read loop can end. */
  datatype ReadEnd = WouldBlock | Closed | Failed

  /** What the event loop hands to the handlers: a connection, bytes that arrived and
      how reading stopped, or how much each `write` call took. `heapImage` are the bytes of
      a key object that holds pointers. */
  datatype Io =
    | Connecting(fd: nat)
    | Readable(fd: nat, chunks: seq<string>, end: ReadEnd, mask: Mask, heapImage: string, uptime: nat)
    | Writable(fd: nat, amounts: seq<nat>, mask: Mask)

  /** The account of an open connection: all the bytes it was answered with, in order;
      bytes read that no request was made of; bytes waiting to be written; and all the
      bytes put on the wire. */
  datatype Account = Account(told: string, pending: string, waiting: string, sent: string)

  const NEW_ACCOUNT: Account := Account("", "", "", "")

  /** A state of the command state machine and the accounts of the open connections. */
  datatype Ledger = Ledger(world: World, accounts: map<nat, Account>)

  /** What does not change while the server runs. */
  datatype Setting = Setting(cfg: Config, conv: string -> int64, numFds: nat)

  /** A request was answered. */
  function Answered(a: Account, reply: string): Account {
    a.(told := a.told + reply, pending := "", waiting := a.waiting + reply)
  }

  function Entered(accounts: map<nat, Account>, e: Event, a: Answer): map<nat, Account> {
    match e
    case Connect(fd) => accounts[fd := NEW_ACCOUNT]
    case Disconnect(fd) => accounts - {fd}
    case Request(fd, _, _) =>
      if fd in accounts then accounts[fd := Answered(accounts[fd], Bytes(a))] else accounts
  }

  /** One event of the state machine, entered in the books. */
  function Post(cfg: Config, l: Ledger, e: Event): (r: Ledger)
    requires ValidWorld(l.world)
    ensures ValidWorld(r.world)
  {
    var (next, a) := Step(cfg, l.world, e);
    Ledger(next, Entered(l.accounts, e, a))
  }

  /** The request that the bytes at hand are, with the bytes of its key. */
  function Requested(conv: string -> int64, l: Ledger, fd: nat, heapImage: string, uptime: nat): Event
    requires fd in l.accounts
  {
    var r := l.accounts[fd].pending;
    Request(fd, Env(KeyImage(conv, r, heapImage), |l.world.sessions|, uptime), ParseCmd(conv, r))
  }

  /** What a finished read loop asks of the state machine, given the bytes at hand. */
  function Asked(s: Setting, l: Ledger, fd: nat, end: ReadEnd, heapImage: string, uptime: nat): (es: seq<Event>)
    requires fd in l.accounts
    ensures |es| <= 1
  {
    match end
    case Failed => []
    case Closed => [Disconnect(fd)]
    case WouldBlock => [Requested(s.conv, l, fd, heapImage, uptime)]
  }

  function PostOne(cfg: Config, l: Ledger, es: seq<Event>): (r: Ledger)
    requires ValidWorld(l.world) && |es| <= 1
    ensures ValidWorld(r.world)
  {
    if es == [] then l else Post(cfg, l, es[0])
  }

  /** The books after bytes arrived. */
  function Arrived(l: Ledger, fd: nat, chunks: seq<string>): Ledger
    requires fd in l.accounts
  {
    var a := l.accounts[fd];
    l.(accounts := l.accounts[fd := a.(pending := a.pending + Joined(chunks))])
  }

  /** The account after a write event: what the calls put on the wire, and nothing
      waiting once the loop has counted enough. */
  function Flushed(a: Account, amounts: seq<nat>): Account
    requires Fits(a.waiting, amounts)
  {
    var (bytes, done) := Sent(a.waiting, 0, amounts);
    a.(sent := a.sent + bytes, waiting := if done then "" else a.waiting)
  }

  function Wrote(l: Ledger, fd: nat, amounts: seq<nat>): Ledger
    requires fd in l.accounts && Fits(l.accounts[fd].waiting, amounts)
  {
    l.(accounts := l.accounts[fd := Flushed(l.accounts[fd], amounts)])
  }

  /** The bytes of a request can be given to SHA-256. */
  const MAX_REQUEST: nat := UINT32

  predicate Acceptable(s: Setting, l: Ledger, io: Io) {
    match io
    case Connecting(fd) => fd < s.numFds && fd !in l.world.sessions
    case Readable(fd, chunks, _, mask, _, _) =>
      Reads(mask) && fd in l.world.sessions && fd in l.accounts
      && |l.accounts[fd].pending| + |Joined(chunks)| < MAX_REQUEST
    case Writable(fd, amounts, _) => fd in l.accounts && Fits(l.accounts[fd].waiting, amounts)
  }

  /** The books after the handler of an event has run. */
  function IoPost(s: Setting, l: Ledger, io: Io): (r: Ledger)
    requires ValidWorld(l.world)
    ensures ValidWorld(r.world)
  {
    if !Acceptable(s, l, io) then l
    else
      match io
      case Connecting(fd) => Post(s.cfg, l, Connect(fd))
      case Readable(fd, chunks, end, _, heapImage, uptime) =>
        var l1 := Arrived(l, fd, chunks);
        PostOne(s.cfg, l1, Asked(s, l1, fd, end, heapImage, uptime))
      case Writable(fd, amounts, _) => Wrote(l, fd, amounts)
  }

  function IoPostAll(s: Setting, l: Ledger, ios: seq<Io>): (r: Ledger)
    requires ValidWorld(l.world)
    ensures ValidWorld(r.world)
  {
    if ios == [] then l else IoPost(s, IoPostAll(s, l, ios[..|ios| - 1]), ios[|ios| - 1])
  }

  // ------------------------------------------------------ runs of the state machine

  /** The events that the event loop feeds to the command state machine. */
  function IoEvent(s: Setting, l: Ledger, io: Io): (es: seq<Event>)
    ensures |es| <= 1
  {
    if !Acceptable(s, l, io) then []
    else
      match io
      case Connecting(fd) => [Connect(fd)]
      case Readable(fd, chunks, end, _, heapImage, uptime) =>
        Asked(s, Arrived(l, fd, chunks), fd, end, heapImage, uptime)
      case Writable(_, _, _) => []
  }

  function IoEvents(s: Setting, l: Ledger, ios: seq<Io>): seq<Event>
    requires ValidWorld(l.world)
  {
    if ios == [] then []
    else
      var init := ios[..|ios| - 1];
      IoEvents(s, l, init) + IoEvent(s, IoPostAll(s, l, init), ios[|ios| - 1])
  }

  lemma RunMore(cfg: Config, w: World, es: seq<Event>, more: seq<Event>)
    requires ValidWorld(w) && |more| <= 1
    ensures more == [] ==> Run(cfg, w, es + more) == Run(cfg, w, es)
    ensures more != [] ==>
      var (before, answers) := Run(cfg, w, es);
      Run(cfg, w, es + more) == (Step(cfg, before, more[0]).0, answers + [Step(cfg, before, more[0]).1])
  {
    if more == [] {
      assert es + more == es;
    } else {
      RunSnoc(cfg, w, es, more[0]);
      assert [more[0]] == more;
    }
  }

  /** Every run of the event loop is a run of the command state machine, so what holds
      of those runs holds of the server. */
  lemma {:induction false} IoRuns(s: Setting, l: Ledger, ios: seq<Io>)
    requires ValidWorld(l.world)
    ensures IoPostAll(s, l, ios).world == Run(s.cfg, l.world, IoEvents(s, l, ios)).0
    decreases |ios|
  {
    hide Step, ParseCmd, Bytes;
    if ios != [] {
      var init, last := ios[..|ios| - 1], ios[|ios| - 1];
      IoRuns(s, l, init);
      RunMore(s.cfg, l.world, IoEvents(s, l, init), IoEvent(s, IoPostAll(s, l, init), last));
    }
  }

  // --------------------------------------------------- what each event comes to

  /** A read event that the handler gets to see. */
  predicate Arrives(s: Setting, l: Ledger, io: Io) {
    io.Readable? && Reads(io.mask) && io.fd in l.world.sessions && io.fd in l.accounts
    && |l.accounts[io.fd].pending| + |Joined(io.chunks)| < MAX_REQUEST
  }

  lemma ConnectingDoes(s: Setting, l: Ledger, fd: nat)
    requires ValidWorld(l.world) && fd < s.numFds && fd !in l.world.sessions
    ensures IoPost(s, l, Connecting(fd)) == Ledger(
      World(l.world.store, l.world.sessions[fd := Session(false, 0)]), l.accounts[fd := Account("", "", "", "")])
  {
  }

  /** At the end of input the connection is gone, and nothing else has changed. */
  lemma ClosedDoes(s: Setting, l: Ledger, io: Io)
    requires ValidWorld(l.world) && Arrives(s, l, io) && io.end.Closed?
    ensures IoPost(s, l, io) == Ledger(World(l.world.store, l.world.sessions - {io.fd}), l.accounts - {io.fd})
  {
    hide Joined, Reads;
    var a := l.accounts[io.fd];
    assert l.accounts[io.fd := a.(pending := a.pending + Joined(io.chunks))] - {io.fd} == l.accounts - {io.fd};
  }

  /** A read that fails leaves everything but the bytes it brought before. */
  lemma FailedDoes(s: Setting, l: Ledger, io: Io)
    requires ValidWorld(l.world) && Arrives(s, l, io) && io.end.Failed?
    ensures var a := l.accounts[io.fd];
      IoPost(s, l, io) == Ledger(l.world,
        l.accounts[io.fd := Account(a.told, a.pending + Joined(io.chunks), a.waiting, a.sent)])
  {
    hide Joined, Reads;
  }

  /** A read that would block completes a request: all bytes at hand are one, its answer
      is told and waits, and no bytes are left. */
  lemma BlockedDoes(s: Setting, l: Ledger, io: Io)
    requires ValidWorld(l.world) && Arrives(s, l, io) && io.end.WouldBlock?
    ensures var a := l.accounts[io.fd]; var r := a.pending + Joined(io.chunks);
      var env := Env(KeyImage(s.conv, r, io.heapImage), |l.world.sessions|, io.uptime);
      var o := Exec(s.cfg, env, l.world.store, l.world.sessions[io.fd], ParseCmd(s.conv, r));
      IoPost(s, l, io) == Ledger(
        World(o.store, l.world.sessions[io.fd := o.session]),
        l.accounts[io.fd := Account(a.told + Bytes(o.answer), "", a.waiting + Bytes(o.answer), a.sent)])
  {
    hide Joined, Reads, Exec, Bytes, ParseCmd, KeyImage;
  }

  /** A write event moves bytes from those waiting to those sent. */
  lemma WritableDoes(s: Setting, l: Ledger, fd: nat, amounts: seq<nat>, mask: Mask)
    requires ValidWorld(l.world) && fd in l.accounts && Fits(l.accounts[fd].waiting, amounts)
    ensures var a := l.accounts[fd]; var (bytes, done) := Sent(a.waiting, 0, amounts);
      IoPost(s, l, Writable(fd, amounts, mask)) == Ledger(l.world,
        l.accounts[fd := Account(a.told, a.pending, if done then "" else a.waiting, a.sent + bytes)])
  {
    hide Sent;
  }

  // ------------------------------------------------------------- who is connected

  /** What arrives on a connected socket gets to the handler. */
  predicate Sized(s: Setting, l: Ledger, io: Io) {
    io.Readable? && io.fd in l.accounts ==> Arrives(s, l, io)
  }

  ghost predicate AllSized(s: Setting, l: Ledger, ios: seq<Io>)
    requires ValidWorld(l.world)
  {
    ios == [] ||
    (AllSized(s, l, ios[..|ios| - 1]) && Sized(s, IoPostAll(s, l, ios[..|ios| - 1]), ios[|ios| - 1]))
  }

  /** Event `i` opens the connection and none after it ends its input. */
  ghost predicate OpenSince(s: Setting, ios: seq<Io>, fd: nat, i: nat) {
    i < |ios| && fd < s.numFds && ios[i] == Connecting(fd)
    && forall j :: i < j < |ios| ==> !(ios[j].Readable? && ios[j].fd == fd && ios[j].end.Closed?)
  }

  /** Who is connected: over every run from no connections, exactly the descriptors that
      were connected and whose input has not ended since. */
  lemma {:induction false} OpenExactly(s: Setting, l: Ledger, ios: seq<Io>, fd: nat)
    requires ValidWorld(l.world) && l.accounts == map[] && l.world.sessions == map[] && AllSized(s, l, ios)
    ensures var end := IoPostAll(s, l, ios);
      (fd in end.world.sessions <==> fd in end.accounts)
      && (fd in end.accounts <==> exists i :: OpenSince(s, ios, fd, i))
    decreases |ios|
  {
    hide IoPost, Acceptable, Arrives;
    if ios != [] {
      var n := |ios| - 1;
      OpenExactly(s, l, ios[..n], fd);
      OpenStep(s, IoPostAll(s, l, ios[..n]), ios[n], fd);
      OpenLast(s, ios, fd);
    }
  }

  lemma OpenStep(s: Setting, l: Ledger, io: Io, fd: nat)
    requires ValidWorld(l.world) && (fd in l.world.sessions <==> fd in l.accounts) && Sized(s, l, io)
    ensures var next := IoPost(s, l, io);
      (fd in next.world.sessions <==> fd in next.accounts)
      && (fd in next.accounts <==>
        (io == Connecting(fd) && fd < s.numFds)
        || (fd in l.accounts && !(io.Readable? && io.fd == fd && io.end.Closed?)))
  {
    hide Exec, Bytes, ParseCmd, KeyImage, Joined, Sent, Fits, Reads;
  }

  lemma OpenLast(s: Setting, ios: seq<Io>, fd: nat)
    requires ios != []
    ensures var n := |ios| - 1;
      (exists i :: OpenSince(s, ios, fd, i)) <==>
        (ios[n] == Connecting(fd) && fd < s.numFds)
        || ((exists i :: OpenSince(s, ios[..n], fd, i))
            && !(ios[n].Readable? && ios[n].fd == fd && ios[n].end.Closed?))
  {
    var n := |ios| - 1;
    if ios[n] == Connecting(fd) && fd < s.numFds {
      assert OpenSince(s, ios, fd, n);
    }
    if i: nat :| OpenSince(s, ios[..n], fd, i) && !(ios[n].Readable? && ios[n].fd == fd && ios[n].end.Closed?) {
      assert forall j :: 0 <= j < n ==> ios[..n][j] == ios[j];
      assert OpenSince(s, ios, fd, i);
    }
    if i: nat :| OpenSince(s, ios, fd, i) {
      if i < n {
        assert forall j :: 0 <= j < n ==> ios[..n][j] == ios[j];
        assert OpenSince(s, ios[..n], fd, i);
      }
    }
  }

  // ---------------------------------------------------------------- conservation

  /** What was sent and what waits is what was answered. */
  predicate Balanced(a: Account) {
    a.sent + a.waiting == a.told
  }

  ghost predicate AllBalanced(l: Ledger) {
    forall fd :: fd in l.accounts ==> Balanced(l.accounts[fd])
  }

  /** The calls of a write event write nothing, or what waits in place. */
  predicate Untorn(s: Setting, l: Ledger, io: Io) {
    io.Writable? && Acceptable(s, l, io) ==> Seamless(l.accounts[io.fd].waiting, io.amounts)
  }

  lemma AnsweredBalanced(a: Account, reply: string)
    requires Balanced(a)
    ensures Balanced(Answered(a, reply))
  {
    assert a.sent + (a.waiting + reply) == (a.sent + a.waiting) + reply;
  }

  lemma FlushedBalanced(a: Account, amounts: seq<nat>)
    requires Balanced(a) && Fits(a.waiting, amounts)
    ensures Balanced(Flushed(a, amounts)) <==> Seamless(a.waiting, amounts)
  {
    hide Sent, Seamless;
    ConservesExactly(a.waiting, amounts);
    var (bytes, done) := Sent(a.waiting, 0, amounts);
    if done {
      assert a.sent + bytes + "" == a.sent + bytes;
      assert (a.sent + bytes)[|a.sent|..] == bytes && (a.sent + a.waiting)[|a.sent|..] == a.waiting;
    } else if bytes == "" {
      assert a.sent + bytes == a.sent;
    } else {
      assert |a.sent + bytes + a.waiting| > |a.sent + a.waiting|;
    }
  }

  lemma PostBalanced(cfg: Config, l: Ledger, e: Event)
    requires ValidWorld(l.world) && AllBalanced(l)
    ensures AllBalanced(Post(cfg, l, e))
  {
    hide Step, Balanced, Answered;
    NewBalanced();
    if e.Request? && e.fd in l.accounts {
      AnsweredBalanced(l.accounts[e.fd], Bytes(Step(cfg, l.world, e).1));
    }
  }

  lemma NewBalanced()
    ensures Balanced(NEW_ACCOUNT)
  {
  }

  /** One event keeps all accounts balanced exactly when it tears no reply. */
  lemma IoBalanced(s: Setting, l: Ledger, io: Io)
    requires ValidWorld(l.world) && AllBalanced(l)
    ensures AllBalanced(IoPost(s, l, io)) <==> Untorn(s, l, io)
  {
    hide Post, Flushed, Seamless, Sent, Fits, Asked, Joined;
    if Acceptable(s, l, io) {
      match io
      case Connecting(fd) => PostBalanced(s.cfg, l, Connect(fd));
      case Readable(fd, chunks, end, _, heapImage, uptime) =>
        var l1 := Arrived(l, fd, chunks);
        assert AllBalanced(l1);
        var es := Asked(s, l1, fd, end, heapImage, uptime);
        if es != [] {
          PostBalanced(s.cfg, l1, es[0]);
        }
      case Writable(fd, amounts, _) =>
        FlushedBalanced(l.accounts[fd], amounts);
        assert Wrote(l, fd, amounts).accounts[fd] == Flushed(l.accounts[fd], amounts);
    }
  }

  /** No event of a run tears a reply. */
  ghost predicate AllUntorn(s: Setting, l: Ledger, ios: seq<Io>)
    requires ValidWorld(l.world)
  {
    ios == [] ||
    (AllUntorn(s, l, ios[..|ios| - 1]) && Untorn(s, IoPostAll(s, l, ios[..|ios| - 1]), ios[|ios| - 1]))
  }

  ghost predicate AlwaysBalanced(s: Setting, l: Ledger, ios: seq<Io>)
    requires ValidWorld(l.world)
  {
    AllBalanced(IoPostAll(s, l, ios)) && (ios == [] || AlwaysBalanced(s, l, ios[..|ios| - 1]))
  }

  /** Reply conservation over runs: at every moment every connection was sent, and has
      waiting, exactly the answers it was given in order, if and only if no write event
      on the way tore a reply. */
  lemma {:induction false} RunBalanced(s: Setting, l: Ledger, ios: seq<Io>)
    requires ValidWorld(l.world) && AllBalanced(l)
    ensures AlwaysBalanced(s, l, ios) <==> AllUntorn(s, l, ios)
    decreases |ios|
  {
    hide IoPost, AllBalanced, Untorn;
    if ios != [] {
      var init, last := ios[..|ios| - 1], ios[|ios| - 1];
      RunBalanced(s, l, init);
      if AlwaysBalanced(s, l, init) {
        IoBalanced(s, IoPostAll(s, l, init), last);
      }
    }
  }

  // ------------------------------------------------------------- whole writes

  /** Every write event takes all that waits in the first call that takes anything. */
  ghost predicate AllWhole(s: Setting, l: Ledger, ios: seq<Io>)
    requires ValidWorld(l.world)
  {
    ios == [] ||
    (AllWhole(s, l, ios[..|ios| - 1]) && Wholly(s, IoPostAll(s, l, ios[..|ios| - 1]), ios[|ios| - 1]))
  }

  predicate Wholly(s: Setting, l: Ledger, io: Io) {
    io.Writable? && Acceptable(s, l, io) ==> Whole(|l.accounts[io.fd].waiting|, io.amounts)
  }

  lemma {:induction false} WholeUntorn(s: Setting, l: Ledger, ios: seq<Io>)
    requires ValidWorld(l.world) && AllWhole(s, l, ios)
    ensures AllUntorn(s, l, ios)
    decreases |ios|
  {
    hide IoPost, IoPostAll, Acceptable;
    if ios != [] {
      var init, last := ios[..|ios| - 1], ios[|ios| - 1];
      WholeUntorn(s, l, init);
      WhollyUntorn(s, IoPostAll(s, l, init), last);
    }
  }

  lemma WhollyUntorn(s: Setting, l: Ledger, io: Io)
    requires Wholly(s, l, io)
    ensures Untorn(s, l, io)
  {
    hide Seamless, Whole;
    if io.Writable? && Acceptable(s, l, io) {
      WholeConserves(l.accounts[io.fd].waiting, io.amounts);
      ConservesExactly(l.accounts[io.fd].waiting, io.amounts);
    }
  }

  /** If every write takes all or nothing, every connection was at every moment sent, and
      has waiting, exactly its answers. */
  lemma WholeBalanced(s: Setting, l: Ledger, ios: seq<Io>)
    requires ValidWorld(l.world) && AllBalanced(l) && AllWhole(s, l, ios)
    ensures AlwaysBalanced(s, l, ios)
  {
    hide AllWhole, AllUntorn, AlwaysBalanced, AllBalanced;
    WholeUntorn(s, l, ios);
    RunBalanced(s, l, ios);
  }
}
