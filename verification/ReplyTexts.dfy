/** The replies of the server, byte by byte, and which commands it counts. */
module ReplyTexts {
  import opened Objects
  import opened Wire
  import opened Commands
  import opened Buckets
  import opened Keys
  import opened Auths
  import opened Sequences
  import opened Replies
  import opened ServerSpec
  import opened ServerRuns

  /** What a command answers, and whether it is counted. */
  ghost predicate Says(o: Outcome, executed: nat, reply: string, counts: bool) {
    Bytes(o.answer) == reply
    && o.store.executed == if counts then (executed + 1) % 0x1_0000_0000_0000_0000 else executed
  }

  lemma Texts()
    ensures EncodeSimple("OK") == "+OK\r\n" && EncodeSimple("NONE") == "+NONE\r\n"
    ensures EncodeSimple("PONG") == "+PONG\r\n"
    ensures EncodeError("EINVCMD") == "-EINVCMD\r\n" && EncodeError("EINVKEY") == "-EINVKEY\r\n"
    ensures EncodeError("EDBRANGE") == "-EDBRANGE\r\n" && EncodeError("EUNAUTHED") == "-EUNAUTHED\r\n"
    ensures EncodeError("failed to authenticate") == "-failed to authenticate\r\n"
    ensures EncodeInt(1) == ":1\r\n"
  {
    assert Decimal(1) == "1";
  }

  /** Before anything else: what is no command, and who may not give any. */
  lemma RefusalSays(cfg: Config, env: Env, s: Store, c: Session, cmd: Cmd)
    requires ValidStore(s) && c.db < |s.dbs|
    ensures cmd.Illegal? ==> Says(Exec(cfg, env, s, c, cmd), s.executed, "-EINVCMD\r\n", false)
    ensures !cmd.Illegal? && !cmd.Auth? && !c.authed ==>
      Says(Exec(cfg, env, s, c, cmd), s.executed, "-EUNAUTHED\r\n", false)
    ensures (cmd.Illegal? || (!cmd.Auth? && !c.authed)) ==>
      Exec(cfg, env, s, c, cmd).store == s && Exec(cfg, env, s, c, cmd).session == c
  {
    Texts();
    hide Dispatch, ValidDb;
  }

  lemma AuthSays(cfg: Config, env: Env, s: Store, c: Session, u: Obj, p: Obj)
    requires ValidStore(s) && c.db < |s.dbs|
    ensures Says(Exec(cfg, env, s, c, Auth(u, p)), s.executed,
      if Accepts(cfg.users, u, p) then "+OK\r\n" else "-failed to authenticate\r\n", false)
  {
    Texts();
    hide Accepts, ValidDb, DbExec, EncodeSimple, EncodeError;
  }

  /** The commands that touch no database. */
  lemma PlainSays(cfg: Config, env: Env, s: Store, c: Session)
    requires ValidStore(s) && c.db < |s.dbs| && c.authed
    ensures Says(Exec(cfg, env, s, c, Okc), s.executed, "", false)
    ensures Says(Exec(cfg, env, s, c, Ping), s.executed, "+PONG\r\n", true)
    ensures forall t :: Says(Exec(cfg, env, s, c, Help(t)), s.executed, "-EINVCMD\r\n", false)
  {
    Texts();
    hide ValidDb, DbExec, EncodeSimple, EncodeError, InfoPairs, KeysAnswer, Accepts;
  }

  lemma SelectSays(cfg: Config, env: Env, s: Store, c: Session, n: int64)
    requires ValidStore(s) && c.db < |s.dbs| && c.authed
    ensures Says(Exec(cfg, env, s, c, Select(n)), s.executed,
      if 0 <= n < |s.dbs| then "+OK\r\n" else "-EDBRANGE\r\n", false)
  {
    hide Exec, EncodeSimple, EncodeError, ValidDb;
    Texts();
    SelectInRange(cfg, env, s, c, n);
  }

  /** KEYS counts the keys of the client's database and lists those of the first. */
  lemma KeysSays(cfg: Config, env: Env, s: Store, c: Session)
    requires ValidStore(s) && c.db < |s.dbs| && c.authed
    ensures var n := Count(s.dbs[c.db].dict);
      Says(Exec(cfg, env, s, c, Keys), s.executed,
        if n == 0 then "+NONE\r\n" else "*" + Decimal(n) + "\r\n" + EncodeAll(KeysListed(s.dbs[0])), true)
  {
    Texts();
    hide ValidDb, DbExec, EncodeSimple, EncodeAll, KeysListed;
  }

  /** The commands that always succeed. */
  lemma StoringSays(cfg: Config, env: Env, s: Store, c: Session, cmd: Cmd)
    requires ValidStore(s) && c.db < |s.dbs| && c.authed && (cmd.Set? || cmd.Push? || cmd.Enque? || cmd.ZSet?)
    ensures Says(Exec(cfg, env, s, c, cmd), s.executed, "+OK\r\n", true)
  {
    Texts();
    hide ValidDb, EncodeSimple, Insert, TryInsert;
  }

  /** The commands that ask for something: what is missing is not counted. */
  lemma AskingSays(cfg: Config, env: Env, s: Store, c: Session, cmd: Cmd)
    requires ValidStore(s) && c.db < |s.dbs| && c.authed
    ensures cmd.Get? ==>
      var d := s.dbs[c.db]; var found := Buckets.Get(d.dictPolicy, d.dict, Key(cmd.key, env.image));
      Says(Exec(cfg, env, s, c, cmd), s.executed, if found.Some? then Encode(found.value) else "+NONE\r\n", found.Some?)
    ensures cmd.ZHas? ==>
      var d := s.dbs[c.db]; var found := Buckets.Get(d.setPolicy, d.zset, Key(cmd.value, env.image));
      Says(Exec(cfg, env, s, c, cmd), s.executed, if found.Some? then ":1\r\n" else "+NONE\r\n", found.Some?)
    ensures cmd.Pop? ==>
      var stack := s.dbs[c.db].stack;
      Says(Exec(cfg, env, s, c, cmd), s.executed,
        if stack == [] then "+NONE\r\n" else Encode(stack[|stack| - 1]), stack != [])
    ensures cmd.Deque? ==>
      var queue := s.dbs[c.db].queue;
      Says(Exec(cfg, env, s, c, cmd), s.executed, if queue == [] then "+NONE\r\n" else Encode(queue[0]), queue != [])
  {
    Texts();
    hide ValidDb, EncodeSimple, EncodeInt, Buckets.Get;
  }

  /** The commands that delete: what is missing is an error. */
  lemma DeletingSays(cfg: Config, env: Env, s: Store, c: Session, cmd: Cmd)
    requires ValidStore(s) && c.db < |s.dbs| && c.authed
    ensures cmd.Del? ==>
      var d := s.dbs[c.db]; var found := Buckets.Get(d.dictPolicy, d.dict, Key(cmd.key, env.image)).Some?;
      Says(Exec(cfg, env, s, c, cmd), s.executed, if found then "+OK\r\n" else "-EINVKEY\r\n", found)
    ensures cmd.ZDel? ==>
      var d := s.dbs[c.db]; var found := Buckets.Get(d.setPolicy, d.zset, Key(cmd.value, env.image)).Some?;
      Says(Exec(cfg, env, s, c, cmd), s.executed, if found then "+OK\r\n" else "-EINVKEY\r\n", found)
  {
    Texts();
    hide ValidDb, EncodeSimple, EncodeError, Buckets.Get, Delete;
  }

  function PairBytes(p: Pair): string {
    Encode(p.key) + Encode(p.value)
  }

  lemma {:induction false} PairsJoined(pairs: seq<Pair>)
    ensures EncodePairs(pairs) == Joined(seq(|pairs|, i requires 0 <= i < |pairs| => PairBytes(pairs[i])))
    decreases |pairs|
  {
    hide Encode;
    if pairs != [] {
      var n := |pairs| - 1;
      PairsJoined(pairs[..n]);
      EncodePairsPrefix(pairs, n);
      assert pairs[..n + 1] == pairs;
      var all := seq(|pairs|, i requires 0 <= i < |pairs| => PairBytes(pairs[i]));
      assert all[..n] == seq(n, i requires 0 <= i < n => PairBytes(pairs[..n][i]));
    }
  }

  lemma Eleven()
    ensures EncodeCount('%', 11) == "%11\r\n"
  {
    assert Decimal(1) == "1" && Decimal(11) == "11";
  }

  /** The table that INFO sends: eleven names, each with its value. */
  lemma InfoBytes(cfg: Config, env: Env, executed: nat, databases: nat)
    ensures Bytes(Report(InfoPairs(cfg, env, executed, databases))) == "%11\r\n" + Joined([
      EncodeText("process id") + EncodeInt(ToInt64(cfg.pid)),
      EncodeText("executable") + EncodeText(cfg.executable),
      EncodeText("config file") + EncodeText(cfg.configFile),
      EncodeText("OS") + EncodeText(cfg.os),
      EncodeText("multiplexing api") + EncodeText(cfg.api),
      EncodeText("host") + EncodeText(cfg.host),
      EncodeText("port") + EncodeInt(ToInt64(cfg.port)),
      EncodeText("commands processes") + EncodeInt(ToInt64(executed)),
      EncodeText("num connections") + EncodeInt(ToInt64(env.clients)),
      EncodeText("num databases") + EncodeInt(ToInt64(databases)),
      EncodeText("uptime") + EncodeText(Decimal(env.uptime) + " secs")])
  {
    hide EncodeInt, EncodeText, EncodePairs, EncodeCount, ToInt64, Decimal, Joined;
    var pairs := InfoPairs(cfg, env, executed, databases);
    PairsJoined(pairs);
    Eleven();
    assert seq(|pairs|, i requires 0 <= i < |pairs| => PairBytes(pairs[i])) == [
      PairBytes(pairs[0]), PairBytes(pairs[1]), PairBytes(pairs[2]), PairBytes(pairs[3]), PairBytes(pairs[4]),
      PairBytes(pairs[5]), PairBytes(pairs[6]), PairBytes(pairs[7]), PairBytes(pairs[8]), PairBytes(pairs[9]),
      PairBytes(pairs[10])];
  }

  lemma InfoSays(cfg: Config, env: Env, s: Store, c: Session)
    requires ValidStore(s) && c.db < |s.dbs| && c.authed
    ensures Says(Exec(cfg, env, s, c, Infoc), s.executed,
      Bytes(Report(InfoPairs(cfg, env, s.executed, |s.dbs|))), true)
  {
    hide InfoPairs, ValidDb, DbExec, Bytes;
  }
}
