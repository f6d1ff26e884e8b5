/** What a run of the server comes to, told by the events themselves: who is connected,
    who has logged in, which database a client works on, and what the databases hold. */
module Histories {
  import opened Objects
  import opened Commands
  import opened Buckets
  import opened Auths
  import opened ServerSpec
  import opened ServerRuns

  // -------------------------------------------------------------------- sessions

  /** Event `i` connects the client and none after it disconnects or connects it. */
  ghost predicate ConnectedSince(es: seq<Event>, fd: nat, i: nat) {
    i < |es| && es[i] == Connect(fd) && forall j :: i < j < |es| ==> es[j] != Disconnect(fd) && es[j] != Connect(fd)
  }

  lemma LastConnect(es: seq<Event>, fd: nat)
    requires es != []
    ensures var n := |es| - 1;
      (exists i :: ConnectedSince(es, fd, i)) <==>
        es[n] == Connect(fd) || ((exists i :: ConnectedSince(es[..n], fd, i)) && es[n] != Disconnect(fd))
  {
    var n := |es| - 1;
    assert forall j :: 0 <= j < n ==> es[..n][j] == es[j];
    if es[n] == Connect(fd) {
      assert ConnectedSince(es, fd, n);
    } else if i: nat :| ConnectedSince(es[..n], fd, i) && es[n] != Disconnect(fd) {
      assert ConnectedSince(es, fd, i);
    }
    if i: nat :| ConnectedSince(es, fd, i) {
      if i < n {
        assert ConnectedSince(es[..n], fd, i);
      }
    }
  }

  /** Exactly the clients that were connected and not disconnected since have a session. */
  lemma {:induction false} ConnectedExactly(cfg: Config, w: World, es: seq<Event>, fd: nat)
    requires ValidWorld(w) && w.sessions == map[]
    ensures fd in Run(cfg, w, es).0.sessions <==> exists i :: ConnectedSince(es, fd, i)
    decreases |es|
  {
    hide Exec, ValidWorld;
    RunLast(cfg, w, es);
    if es != [] {
      ConnectedExactly(cfg, w, es[..|es| - 1], fd);
      LastConnect(es, fd);
    }
  }

  /** Event `i` is an accepted AUTH of a connected client who has stayed connected. */
  ghost predicate LoginHolds(cfg: Config, w: World, es: seq<Event>, fd: nat, i: nat)
    requires ValidWorld(w)
  {
    LoggedIn(cfg, es, fd, i) && fd in Run(cfg, w, es[..i]).0.sessions
  }

  lemma AuthStep(cfg: Config, w: World, e: Event, fd: nat)
    requires ValidWorld(w)
    ensures Authed(Step(cfg, w, e).0, fd) <==>
      e != Connect(fd) && e != Disconnect(fd)
      && (Authed(w, fd) || (fd in w.sessions && e.Request? && e.fd == fd && e.cmd.Auth?
                            && Accepts(cfg.users, e.cmd.username, e.cmd.password)))
  {
    hide Accepts;
  }

  lemma LoginPrefix(cfg: Config, w: World, es: seq<Event>, fd: nat, n: nat, i: nat)
    requires ValidWorld(w) && i < n == |es| - 1
    ensures LoginHolds(cfg, w, es, fd, i) <==>
      LoginHolds(cfg, w, es[..n], fd, i) && es[n] != Connect(fd) && es[n] != Disconnect(fd)
  {
    hide Accepts, Run, ValidWorld;
    assert es[..n][..i] == es[..i];
    assert forall j :: 0 <= j < n ==> es[..n][j] == es[j];
  }

  lemma LoginNow(cfg: Config, w: World, es: seq<Event>, fd: nat)
    requires ValidWorld(w) && es != []
    ensures var n := |es| - 1; var e := es[n];
      LoginHolds(cfg, w, es, fd, n) <==>
        fd in Run(cfg, w, es[..n]).0.sessions && e.Request? && e.fd == fd && e.cmd.Auth?
        && Accepts(cfg.users, e.cmd.username, e.cmd.password)
    ensures forall i: nat :: LoginHolds(cfg, w, es, fd, i) ==> i < |es|
  {
    hide Accepts, Run, ValidWorld;
  }

  lemma LoginLast(cfg: Config, w: World, es: seq<Event>, fd: nat)
    requires ValidWorld(w) && es != []
    ensures var n := |es| - 1; var e := es[n];
      (exists i :: LoginHolds(cfg, w, es, fd, i)) <==>
        e != Connect(fd) && e != Disconnect(fd)
        && ((exists i :: LoginHolds(cfg, w, es[..n], fd, i))
            || (fd in Run(cfg, w, es[..n]).0.sessions && e.Request? && e.fd == fd && e.cmd.Auth?
                && Accepts(cfg.users, e.cmd.username, e.cmd.password)))
  {
    hide LoginHolds, Accepts, Run, ValidWorld;
    var n := |es| - 1;
    LoginNow(cfg, w, es, fd);
    if n > 0 {
      LoginNow(cfg, w, es[..n], fd);
    }
    forall i: nat | i < n
      ensures LoginHolds(cfg, w, es, fd, i) <==>
        LoginHolds(cfg, w, es[..n], fd, i) && es[n] != Connect(fd) && es[n] != Disconnect(fd) {
      LoginPrefix(cfg, w, es, fd, n, i);
    }
    if n == 0 {
      NoLoginYet(cfg, w, fd);
      assert es[..n] == [];
    }
  }

  lemma NoLoginYet(cfg: Config, w: World, fd: nat)
    requires ValidWorld(w)
    ensures !exists i :: LoginHolds(cfg, w, [], fd, i)
  {
  }

  /** Exactly the clients with an accepted AUTH on their connection are authenticated. */
  lemma {:induction false} AuthedExactly(cfg: Config, w: World, es: seq<Event>, fd: nat)
    requires ValidWorld(w) && w.sessions == map[]
    ensures Authed(Run(cfg, w, es).0, fd) <==> exists i :: LoginHolds(cfg, w, es, fd, i)
    decreases |es|
  {
    hide LoginHolds, ValidWorld, Step, Run, LoggedIn, Accepts;
    RunLast(cfg, w, es);
    if es == [] {
      NoLogin(cfg, w, fd);
    } else {
      var n := |es| - 1;
      AuthedExactly(cfg, w, es[..n], fd);
      AuthStep(cfg, Run(cfg, w, es[..n]).0, es[n], fd);
      LoginLast(cfg, w, es, fd);
    }
  }

  lemma NoLogin(cfg: Config, w: World, fd: nat)
    requires ValidWorld(w) && w.sessions == map[]
    ensures Run(cfg, w, []).0 == w && !Authed(w, fd) && !exists i :: LoginHolds(cfg, w, [], fd, i)
  {
  }

  /** Event `i` is a SELECT that is taken: of an authenticated client, and in range. */
  ghost predicate SelectTaken(cfg: Config, w: World, es: seq<Event>, fd: nat, i: nat)
    requires ValidWorld(w)
  {
    i < |es| && es[i].Request? && es[i].fd == fd && es[i].cmd.Select? && 0 <= es[i].cmd.db < |w.store.dbs|
    && Authed(Run(cfg, w, es[..i]).0, fd)
  }

  /** ... and neither another one nor a new connection came after it. */
  ghost predicate SelectHolds(cfg: Config, w: World, es: seq<Event>, fd: nat, i: nat)
    requires ValidWorld(w)
  {
    SelectTaken(cfg, w, es, fd, i)
    && forall j :: i < j < |es| ==> es[j] != Connect(fd) && !SelectTaken(cfg, w, es, fd, j)
  }

  lemma SelectStep(cfg: Config, w: World, e: Event, fd: nat)
    requires ValidWorld(w) && fd in Step(cfg, w, e).0.sessions
    ensures Step(cfg, w, e).0.sessions[fd].db ==
      if e == Connect(fd) then 0
      else if e.Request? && e.fd == fd && e.cmd.Select? && 0 <= e.cmd.db < |w.store.dbs| && Authed(w, fd) then e.cmd.db
      else w.sessions[fd].db
    ensures e != Connect(fd) ==> fd in w.sessions
  {
    hide Accepts, DbExec, InfoPairs, KeysAnswer, ValidDb;
  }

  lemma SameTaken(cfg: Config, w: World, es: seq<Event>, fd: nat, n: nat, i: nat)
    requires ValidWorld(w) && i < n <= |es|
    ensures SelectTaken(cfg, w, es[..n], fd, i) <==> SelectTaken(cfg, w, es, fd, i)
  {
    hide Run, ValidWorld, Authed;
    assert es[..n][..i] == es[..i] && es[..n][i] == es[i];
  }

  lemma {:induction false} RunKeepsCount(cfg: Config, w: World, es: seq<Event>)
    requires ValidWorld(w)
    ensures |Run(cfg, w, es).0.store.dbs| == |w.store.dbs|
    decreases |es|
  {
    hide ValidWorld, Exec;
    RunLast(cfg, w, es);
    if es != [] {
      RunKeepsCount(cfg, w, es[..|es| - 1]);
    }
  }

  /** A client works on the database of its last SELECT that was taken on this
      connection, and on the first one if there was none. */
  lemma {:induction false} SelectedExactly(cfg: Config, w: World, es: seq<Event>, fd: nat)
    requires ValidWorld(w) && w.sessions == map[] && fd in Run(cfg, w, es).0.sessions
    ensures forall i: nat :: i < |es| && SelectHolds(cfg, w, es, fd, i) ==>
      Run(cfg, w, es).0.sessions[fd].db == es[i].cmd.db
    ensures (forall i: nat :: i < |es| ==> !SelectHolds(cfg, w, es, fd, i)) ==>
      Run(cfg, w, es).0.sessions[fd].db == 0
    decreases |es|
  {
    hide ValidWorld, Step, Run, SelectTaken;
    RunLast(cfg, w, es);
    var n := |es| - 1;
    var before := Run(cfg, w, es[..n]).0;
    SelectStep(cfg, before, es[n], fd);
    RunKeepsCount(cfg, w, es[..n]);
    TakenNow(cfg, w, es, fd);
    assert SelectTaken(cfg, w, es, fd, n) ==> SelectHolds(cfg, w, es, fd, n);
    if es[n] == Connect(fd) {
      assert forall i: nat :: i < n ==> !SelectHolds(cfg, w, es, fd, i);
    } else {
      SelectedExactly(cfg, w, es[..n], fd);
      forall i: nat | i < n ensures SelectTaken(cfg, w, es[..n], fd, i) <==> SelectTaken(cfg, w, es, fd, i) {
        SameTaken(cfg, w, es, fd, n, i);
      }
      forall i: nat | i < n
        ensures SelectHolds(cfg, w, es, fd, i) <==>
          SelectHolds(cfg, w, es[..n], fd, i) && !SelectTaken(cfg, w, es, fd, n) {
        assert forall j :: 0 <= j < n ==> es[..n][j] == es[j];
      }
    }
  }

  lemma TakenNow(cfg: Config, w: World, es: seq<Event>, fd: nat)
    requires ValidWorld(w) && es != []
    ensures forall i: nat :: i < |es| && SelectTaken(cfg, w, es, fd, i) ==> es[i].Request? && es[i].cmd.Select?
    ensures var n := |es| - 1;
      SelectTaken(cfg, w, es, fd, n) <==>
        es[n].Request? && es[n].fd == fd && es[n].cmd.Select? && 0 <= es[n].cmd.db < |w.store.dbs|
        && Authed(Run(cfg, w, es[..n]).0, fd)
  {
    hide Run, ValidWorld, Authed;
  }

  // --------------------------------------------------------------- what is stored

  /** What an event has a database do: a data command of an authenticated client that
      has selected it. */
  function PerformedBy(w: World, e: Event, i: nat): seq<Cmd> {
    if e.Request? && e.fd in w.sessions && w.sessions[e.fd].authed && w.sessions[e.fd].db == i && IsData(e.cmd)
    then [e.cmd] else []
  }

  /** The commands performed on database `i`, in order. */
  function Performed(cfg: Config, w: World, es: seq<Event>, i: nat): seq<Cmd>
    requires ValidWorld(w)
  {
    if es == [] then []
    else
      var init := es[..|es| - 1];
      Performed(cfg, w, init, i) + PerformedBy(Run(cfg, w, init).0, es[|es| - 1], i)
  }

  ghost predicate AllData(cs: seq<Cmd>) {
    forall j :: 0 <= j < |cs| ==> IsData(cs[j])
  }

  /** What a database holds after these commands. */
  ghost function Built(d: AbsDb, cs: seq<Cmd>): AbsDb
    requires AllData(cs)
  {
    if cs == [] then d
    else AbsDbExec(Built(d, cs[..|cs| - 1]), cs[|cs| - 1]).0
  }

  lemma BuiltMore(d: AbsDb, cs: seq<Cmd>, more: seq<Cmd>)
    requires AllData(cs) && AllData(more) && |more| <= 1
    ensures AllData(cs + more) && Built(d, cs + more) == Built(Built(d, cs), more)
  {
    hide AbsDbExec;
    if more == [] {
      assert cs + more == cs;
    } else {
      assert (cs + more)[..|cs|] == cs && more[..0] == [];
    }
  }

  lemma StepPerforms(cfg: Config, w: World, e: Event, i: nat)
    requires GoodWorld(w) && i < |w.store.dbs| && (e.Request? ==> KeyOk(e.cmd, e.env.image))
    ensures AllData(PerformedBy(w, e, i)) && GoodWorld(Step(cfg, w, e).0)
    ensures AbsOf(Step(cfg, w, e).0.store.dbs[i]) == Built(AbsOf(w.store.dbs[i]), PerformedBy(w, e, i))
  {
    hide GoodDb, AbsOf, DbExec, AbsDbExec, KeyOk, Accepts, InfoPairs, KeysAnswer;
    StepRefines(cfg, w, e);
    if PerformedBy(w, e, i) == [] {
      Isolation(cfg, w, e, i);
    } else {
      DbRefines(w.store.dbs[i], e.env.image, e.cmd);
      DispatchIsData(cfg, e.env, w.store, w.sessions[e.fd], e.cmd);
      assert [e.cmd][..0] == [];
    }
  }

  /** Over every run a database holds what the commands performed on it make of what it
      held before. */
  lemma {:induction false} HoldsPerformed(cfg: Config, w: World, es: seq<Event>, i: nat)
    requires GoodWorld(w) && i < |w.store.dbs| && KeysOk(es)
    ensures AllData(Performed(cfg, w, es, i)) && GoodWorld(Run(cfg, w, es).0)
    ensures |Run(cfg, w, es).0.store.dbs| == |w.store.dbs|
    ensures AbsOf(Run(cfg, w, es).0.store.dbs[i]) == Built(AbsOf(w.store.dbs[i]), Performed(cfg, w, es, i))
    decreases |es|
  {
    hide GoodDb, AbsOf, Step, KeyOk, Run, PerformedBy;
    RunLast(cfg, w, es);
    if es != [] {
      var n := |es| - 1;
      var before := Run(cfg, w, es[..n]).0;
      HoldsPerformed(cfg, w, es[..n], i);
      StepPerforms(cfg, before, es[n], i);
      AtMostOne(before, es[n], i);
      BuiltMore(AbsOf(w.store.dbs[i]), Performed(cfg, w, es[..n], i), PerformedBy(before, es[n], i));
      RunKeepsCount(cfg, w, es);
      RunKeepsCount(cfg, w, es[..n]);
    }
  }

  lemma AtMostOne(w: World, e: Event, i: nat)
    ensures |PerformedBy(w, e, i)| <= 1
  {
  }

  // ------------------------------------------------- ... by its commands alone

  /** Command `i` sets the key, and none after it sets or deletes it. */
  ghost predicate LastSet(cs: seq<Cmd>, k: Obj, v: Obj, i: nat) {
    i < |cs| && cs[i] == Set(k, v)
    && forall j :: i < j < |cs| ==> !(cs[j].Set? && cs[j].key == k) && cs[j] != Del(k)
  }

  /** `v` is the value the key was last given. */
  ghost predicate HasValue(cs: seq<Cmd>, k: Obj, v: Obj) {
    exists i :: LastSet(cs, k, v, i)
  }

  lemma LastSetMore(cs: seq<Cmd>, k: Obj, v: Obj)
    requires cs != []
    ensures var n := |cs| - 1;
      (exists i :: LastSet(cs, k, v, i)) <==>
        cs[n] == Set(k, v)
        || ((exists i :: LastSet(cs[..n], k, v, i)) && !(cs[n].Set? && cs[n].key == k) && cs[n] != Del(k))
  {
    var n := |cs| - 1;
    assert forall j :: 0 <= j < n ==> cs[..n][j] == cs[j];
    if cs[n] == Set(k, v) {
      assert LastSet(cs, k, v, n);
    }
    if i: nat :| LastSet(cs[..n], k, v, i) && !(cs[n].Set? && cs[n].key == k) && cs[n] != Del(k) {
      assert LastSet(cs, k, v, i);
    }
    if i: nat :| LastSet(cs, k, v, i) {
      if i < n {
        assert LastSet(cs[..n], k, v, i);
      }
    }
  }

  /** A key has the value of its last SET, unless a DEL came after that. */
  lemma {:induction false} DictByCommands(cs: seq<Cmd>, k: Obj, v: Obj)
    requires AllData(cs)
    ensures var dict := Built(EMPTY, cs).dict;
      k in dict && dict[k] == v <==> exists i :: LastSet(cs, k, v, i)
    decreases |cs|
  {
    hide LastSet;
    if cs == [] {
      NothingSet(k, v);
    } else {
      var n := |cs| - 1;
      DictByCommands(cs[..n], k, v);
      LastSetMore(cs, k, v);
    }
  }

  lemma NothingSet(k: Obj, v: Obj)
    ensures !exists i :: LastSet([], k, v, i)
  {
  }

  /** Command `i` puts the value into the set, and none after it takes it out. */
  ghost predicate LastZSet(cs: seq<Cmd>, v: Obj, i: nat) {
    i < |cs| && cs[i] == ZSet(v) && forall j :: i < j < |cs| ==> cs[j] != ZDel(v)
  }

  lemma LastZSetMore(cs: seq<Cmd>, v: Obj)
    requires cs != []
    ensures var n := |cs| - 1;
      (exists i :: LastZSet(cs, v, i)) <==>
        cs[n] == ZSet(v) || ((exists i :: LastZSet(cs[..n], v, i)) && cs[n] != ZDel(v))
  {
    var n := |cs| - 1;
    assert forall j :: 0 <= j < n ==> cs[..n][j] == cs[j];
    if cs[n] == ZSet(v) {
      assert LastZSet(cs, v, n);
    }
    if i: nat :| LastZSet(cs[..n], v, i) && cs[n] != ZDel(v) {
      assert LastZSet(cs, v, i);
    }
    if i: nat :| LastZSet(cs, v, i) {
      if i < n {
        assert LastZSet(cs[..n], v, i);
      }
    }
  }

  /** The set holds exactly what was put in and not taken out since. */
  lemma {:induction false} ZsetByCommands(cs: seq<Cmd>, v: Obj)
    requires AllData(cs)
    ensures v in Built(EMPTY, cs).zset <==> exists i :: LastZSet(cs, v, i)
    decreases |cs|
  {
    hide LastZSet;
    if cs == [] {
      NothingPut(v);
    } else {
      ZsetByCommands(cs[..|cs| - 1], v);
      LastZSetMore(cs, v);
    }
  }

  lemma NothingPut(v: Obj)
    ensures !exists i :: LastZSet([], v, i)
  {
  }

  /** All values ever enqueued, in order. */
  function Enqued(cs: seq<Cmd>): seq<Obj> {
    if cs == [] then []
    else Enqued(cs[..|cs| - 1]) + if cs[|cs| - 1].Enque? then [cs[|cs| - 1].value] else []
  }

  /** How many DEQUEs found something. */
  function Taken(cs: seq<Cmd>): nat {
    if cs == [] then 0
    else
      var init := cs[..|cs| - 1];
      Taken(init) + if cs[|cs| - 1].Deque? && Taken(init) < |Enqued(init)| then 1 else 0
  }

  /** First in, first out: the queue holds the values enqueued but for the first ones, as
      many as DEQUEs found something. */
  lemma {:induction false} QueueByCommands(cs: seq<Cmd>)
    requires AllData(cs)
    ensures Taken(cs) <= |Enqued(cs)| && Built(EMPTY, cs).queue == Enqued(cs)[Taken(cs)..]
    decreases |cs|
  {
    if cs != [] {
      var init := cs[..|cs| - 1];
      QueueByCommands(init);
      assert Built(EMPTY, cs) == AbsDbExec(Built(EMPTY, init), cs[|cs| - 1]).0;
    }
  }

  /** How many values PUSHes have left on the stack. */
  function Height(cs: seq<Cmd>): nat {
    if cs == [] then 0
    else
      var h := Height(cs[..|cs| - 1]);
      if cs[|cs| - 1].Push? then h + 1 else if cs[|cs| - 1].Pop? && h > 0 then h - 1 else h
  }

  /** Command `i` pushed the value at height `h`, and the stack was higher ever since. */
  ghost predicate Lies(cs: seq<Cmd>, h: nat, i: nat) {
    i < |cs| && cs[i].Push? && Height(cs[..i]) == h && forall j :: i < j <= |cs| ==> Height(cs[..j]) > h
  }

  /** The stack has `v` at height `h`, and a push that says so. */
  ghost predicate Placed(cs: seq<Cmd>, h: nat, v: Obj) {
    exists i: nat :: Lies(cs, h, i) && cs[i].value == v
  }

  /** Last in, first out: each place of the stack holds what was last pushed there. */
  lemma {:induction false} StackByCommands(cs: seq<Cmd>, h: nat)
    requires AllData(cs)
    ensures var stack := Built(EMPTY, cs).stack;
      |stack| == Height(cs) && (h < |stack| ==> Placed(cs, h, stack[h]))
    decreases |cs|
  {
    hide Placed;
    if cs != [] {
      var n := |cs| - 1;
      StackByCommands(cs[..n], h);
      var before := Built(EMPTY, cs[..n]).stack;
      if cs[n].Push? && h == |before| {
        PlacedNow(cs);
      } else if h < Height(cs) {
        StillPlaced(cs, h, before[h]);
      }
    }
  }

  lemma PlacedNow(cs: seq<Cmd>)
    requires cs != [] && cs[|cs| - 1].Push?
    ensures Placed(cs, Height(cs[..|cs| - 1]), cs[|cs| - 1].value)
  {
    var n := |cs| - 1;
    assert cs[..n + 1] == cs;
    assert Lies(cs, Height(cs[..n]), n);
  }

  lemma StillPlaced(cs: seq<Cmd>, h: nat, v: Obj)
    requires cs != [] && Placed(cs[..|cs| - 1], h, v) && h < Height(cs)
    ensures Placed(cs, h, v)
  {
    hide Height;
    var n := |cs| - 1;
    var i: nat :| Lies(cs[..n], h, i) && cs[..n][i].value == v;
    assert cs[..n + 1] == cs && cs[..n][i] == cs[i];
    assert cs[..n][..i] == cs[..i];
    forall j | i < j <= |cs| ensures Height(cs[..j]) > h {
      if j <= n {
        assert cs[..n][..j] == cs[..j];
      }
    }
    assert Lies(cs, h, i);
  }

  // --------------------------------------------------------------------- answers

  /** Databases that hold nothing. */
  ghost predicate AllEmpty(s: Store)
    requires GoodStore(s)
  {
    forall i :: 0 <= i < |s.dbs| ==> AbsOf(s.dbs[i]) == EMPTY
  }

  /** After any run from empty databases a data command is answered as the commands that
      were performed on the client's database determine. */
  lemma AnswerByCommands(cfg: Config, w: World, es: seq<Event>, e: Event)
    requires GoodWorld(w) && AllEmpty(w.store) && KeysOk(es)
    requires e.Request? && IsData(e.cmd) && KeyOk(e.cmd, e.env.image) && Authed(Run(cfg, w, es).0, e.fd)
    ensures var i := Run(cfg, w, es).0.sessions[e.fd].db; var cs := Performed(cfg, w, es, i);
      AllData(cs) && Step(cfg, Run(cfg, w, es).0, e).1 == AbsDbExec(Built(EMPTY, cs), e.cmd).1
  {
    hide GoodDb, AbsOf, DbExec, AbsDbExec, KeyOk, Run, Performed, Accepts, InfoPairs, KeysAnswer;
    var now := Run(cfg, w, es).0;
    var i := now.sessions[e.fd].db;
    RunKeepsCount(cfg, w, es);
    HoldsPerformed(cfg, w, es, i);
    DbRefines(now.store.dbs[i], e.env.image, e.cmd);
    DispatchIsData(cfg, e.env, now.store, now.sessions[e.fd], e.cmd);
  }

  /** GET answers the value of the last SET, or NONE if there was none or a DEL since. */
  lemma GetAnswer(cs: seq<Cmd>, k: Obj)
    requires AllData(cs)
    ensures var a := AbsDbExec(Built(EMPTY, cs), Get(k)).1;
      (forall v :: HasValue(cs, k, v) <==> a == Value(v))
      && ((forall v :: !HasValue(cs, k, v)) <==> a == Simple("NONE"))
  {
    hide LastSet, Built;
    var dict := Built(EMPTY, cs).dict;
    forall v ensures HasValue(cs, k, v) <==> k in dict && dict[k] == v {
      DictByCommands(cs, k, v);
    }
  }

  /** DEL finds a key that was set and not deleted since. */
  lemma DelAnswer(cs: seq<Cmd>, k: Obj)
    requires AllData(cs)
    ensures AbsDbExec(Built(EMPTY, cs), Del(k)).1 ==
      if exists v :: HasValue(cs, k, v) then Simple("OK") else Fault("EINVKEY")
  {
    hide LastSet, Built, HasValue;
    GetAnswer(cs, k);
    var dict := Built(EMPTY, cs).dict;
    if k in dict {
      assert HasValue(cs, k, dict[k]);
    }
  }

  lemma SetAnswers(cs: seq<Cmd>, v: Obj)
    requires AllData(cs)
    ensures AbsDbExec(Built(EMPTY, cs), ZHas(v)).1 ==
      if exists i :: LastZSet(cs, v, i) then Value(Int(1)) else Simple("NONE")
    ensures AbsDbExec(Built(EMPTY, cs), ZDel(v)).1 ==
      if exists i :: LastZSet(cs, v, i) then Simple("OK") else Fault("EINVKEY")
  {
    hide LastZSet, Built;
    ZsetByCommands(cs, v);
  }

  /** The n-th DEQUE that finds something answers the n-th value enqueued. */
  lemma DequeAnswer(cs: seq<Cmd>)
    requires AllData(cs)
    ensures AbsDbExec(Built(EMPTY, cs), Deque).1 ==
      if Taken(cs) < |Enqued(cs)| then Value(Enqued(cs)[Taken(cs)]) else Simple("NONE")
  {
    hide Built, Taken, Enqued;
    QueueByCommands(cs);
  }

  /** POP answers the value of the last PUSH that was not popped yet. */
  lemma PopAnswer(cs: seq<Cmd>)
    requires AllData(cs)
    ensures var a := AbsDbExec(Built(EMPTY, cs), Pop).1;
      if Height(cs) == 0 then a == Simple("NONE")
      else a.Value? && Placed(cs, Height(cs) - 1, a.value)
  {
    hide Built, Height, Placed;
    StackByCommands(cs, if Height(cs) == 0 then 0 else Height(cs) - 1);
  }

  // --------------------------------------------------------------------- the count

  /** How many commands of a run the server counts. */
  function CountedIn(cfg: Config, w: World, es: seq<Event>): nat
    requires ValidWorld(w)
  {
    if es == [] then 0
    else
      var init, e := es[..|es| - 1], es[|es| - 1];
      var before := Run(cfg, w, init).0;
      CountedIn(cfg, w, init) + if e.Request? && Counts(before, e, Step(cfg, before, e).1) then 1 else 0
  }

  /** Which answers are to commands that count: of authenticated clients, no errors, no
      missing values, and not to OK, AUTH or SELECT. */
  predicate Counts(w: World, e: Event, a: Answer)
    requires e.Request?
  {
    e.fd in w.sessions && w.sessions[e.fd].authed && !a.Fault?
    && match e.cmd
      case Okc => false
      case Auth(_, _) => false
      case Select(_) => false
      case Get(_) => a.Value?
      case ZHas(_) => a.Value?
      case Pop => a.Value?
      case Deque => a.Value?
      case _ => true
  }

  lemma StepCounts(cfg: Config, w: World, e: Event)
    requires ValidWorld(w)
    ensures var (next, a) := Step(cfg, w, e);
      next.store.executed == if e.Request? && Counts(w, e, a) then (w.store.executed + 1) % UINT64 else w.store.executed
  {
    hide Accepts, InfoPairs, ValidDb, Insert, TryInsert, Delete, Buckets.Get;
  }

  /** The counter that INFO reports is the number of commands counted, in 64 bits. */
  lemma {:induction false} CounterExact(cfg: Config, w: World, es: seq<Event>)
    requires ValidWorld(w) && w.store.executed < UINT64
    ensures Run(cfg, w, es).0.store.executed == (w.store.executed + CountedIn(cfg, w, es)) % UINT64
    decreases |es|
  {
    hide Step, Counts, Run, ValidWorld;
    RunLast(cfg, w, es);
    if es != [] {
      CounterExact(cfg, w, es[..|es| - 1]);
      StepCounts(cfg, Run(cfg, w, es[..|es| - 1]).0, es[|es| - 1]);
    }
  }
}
