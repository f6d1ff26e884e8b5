/** What the server keeps for a connected client, and for all of them. */
module Clients {
  import opened Objects
  import opened Commands
  import opened ServerSpec
  import opened Ledgers
  import W = Wire

  class Client {
    const fd: nat
    var authed: bool
    var databaseNum: nat
    var readBuf: string
    var builder: string
    var writeBuf: string
    /** All replies to this client so far, and what of them was sent. */
    ghost var replied: string
    ghost var delivered: string

    constructor (fd: nat)
      ensures this.fd == fd && Session() == NEW_SESSION
      ensures readBuf == builder == writeBuf == replied == delivered == ""
    {
      this.fd := fd;
      authed, databaseNum := false, 0;
      readBuf, builder, writeBuf, replied, delivered := "", "", "", "", "";
    }

    function Session(): Session
      reads this`authed, this`databaseNum
    {
      ServerSpec.Session(authed, databaseNum)
    }

    ghost function Books(): Account
      reads this`replied, this`readBuf, this`builder, this`delivered
    {
      Account(replied, readBuf, builder, delivered)
    }
  }

  predicate Distinct(cs: seq<Client>) {
    forall i, j :: 0 <= i < j < |cs| ==> cs[i].fd != cs[j].fd
  }

  /** `vec_find` with `client_compare`: the first client of a descriptor, or the number
      of clients. */
  function FindClient(cs: seq<Client>, fd: nat): (i: nat)
    ensures i <= |cs| && (i < |cs| ==> cs[i].fd == fd)
    ensures forall j :: 0 <= j < i ==> cs[j].fd != fd
  {
    if cs == [] || cs[0].fd == fd then 0 else 1 + FindClient(cs[1..], fd)
  }

  /** The sessions of exactly these clients. */
  ghost predicate Covers(sessions: map<nat, Session>, cs: seq<Client>) {
    forall fd :: fd in sessions <==> exists d :: d in cs && d.fd == fd
  }

  /** Session and account are as the client has them. */
  ghost predicate CarriedBy(l: Ledger, d: Client)
    reads d`authed, d`databaseNum, d`replied, d`readBuf, d`builder, d`delivered
  {
    d.fd in l.world.sessions && l.world.sessions[d.fd] == d.Session()
    && d.fd in l.accounts && l.accounts[d.fd] == d.Books()
  }

  /** ... and there are no other accounts. */
  ghost predicate Carried(l: Ledger, cs: seq<Client>)
    reads cs`authed, cs`databaseNum, cs`replied, cs`readBuf, cs`builder, cs`delivered
  {
    l.accounts.Keys == l.world.sessions.Keys && forall d :: d in cs ==> CarriedBy(l, d)
  }

  /** There are as many sessions as clients. */
  lemma SessionCount(sessions: map<nat, Session>, cs: seq<Client>)
    requires Covers(sessions, cs) && Distinct(cs)
    ensures |sessions| == |cs|
  {
    FdCount(cs);
    assert sessions.Keys == Fds(cs);
  }

  function Fds(cs: seq<Client>): set<nat> {
    set d | d in cs :: d.fd
  }

  lemma {:induction false} FdCount(cs: seq<Client>)
    requires Distinct(cs)
    ensures |Fds(cs)| == |cs|
  {
    if cs != [] {
      var n := |cs| - 1;
      FdCount(cs[..n]);
      assert cs == cs[..n] + [cs[n]];
      assert Fds(cs) == Fds(cs[..n]) + {cs[n].fd};
    }
  }

  // ------------------------------------------------- passwords fit in the request

  lemma {:induction false} UntilShort(r: string)
    ensures |W.Until(r).value| <= |r|
    decreases |r|
  {
    if W.Cur(r) != W.CR && W.Cur(r) != '\0' {
      UntilShort(W.Adv(r));
    }
  }

  /** A text that was read is no longer than what it was read from. */
  lemma TextShort(conv: string -> int64, r: string)
    ensures var o := W.ParseObject(conv, r).value; o.Str? ==> |o.text| <= |r|
  {
    match W.Cur(r)
    case '+' => UntilShort(W.Adv(r));
    case '-' => UntilShort(W.Adv(r));
    case _ =>
  }

  /** ... so SHA-256 can take the password of any request below four gigabytes. */
  lemma PasswordShort(conv: string -> int64, r: string)
    ensures var c := ParseCmd(conv, r); c.Auth? && c.password.Str? ==> |c.password.text| <= |r|
  {
    var h := W.ParseHeader(r);
    var t := ParseCmdType(conv, h.rest);
    var a := W.ParseObject(conv, t.rest);
    TextShort(conv, a.rest);
    hide W.ParseObject, W.ParseHeader;
  }
}
