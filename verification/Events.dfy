/** The event table of ev.c over the select back end of ev_select.c. */
module Events {

  type Mask = bv8

  const EV_NONE: Mask := 0
  const EV_READ: Mask := 1
  const EV_WRITE: Mask := 2
  const EV_BOTH: Mask := 4

  predicate Reads(m: Mask) {
    m & EV_READ != 0
  }

  predicate Writes(m: Mask) {
    m & EV_WRITE != 0
  }

  function With(m: Mask, mask: Mask): Mask {
    m | mask
  }

  /** What `ev_delete_event` leaves; removing EV_WRITE removes EV_BOTH too. */
  function Without(m: Mask, mask: Mask): Mask {
    m & !(if mask & EV_WRITE != 0 then mask | EV_BOTH else mask)
  }

  lemma WithBits(m: Mask, mask: Mask)
    ensures Reads(With(m, mask)) <==> Reads(m) || Reads(mask)
    ensures Writes(With(m, mask)) <==> Writes(m) || Writes(mask)
    ensures With(m, mask) == EV_NONE <==> m == EV_NONE && mask == EV_NONE
  {
  }

  lemma WithoutBits(m: Mask, mask: Mask)
    ensures Reads(Without(m, mask)) <==> Reads(m) && !Reads(mask)
    ensures Writes(Without(m, mask)) <==> Writes(m) && !Writes(mask)
    ensures Without(EV_NONE, mask) == EV_NONE && !Reads(EV_NONE) && !Writes(EV_NONE)
  {
  }

  /** Bit by bit: the events a mask names, and what joining and dropping masks leave. */
  lemma BitByBit(m: Mask, mask: Mask, b: Mask)
    requires b in {1, 2, 4, 8, 16, 32, 64, 128}
    ensures Reads(m) <==> m & 1 != 0
    ensures Writes(m) <==> m & 2 != 0
    ensures With(m, mask) & b != 0 <==> m & b != 0 || mask & b != 0
    ensures Without(m, mask) & b != 0 <==> m & b != 0 && mask & b == 0 && !(b == 4 && mask & 2 != 0)
  {
  }

  lemma SingleBits()
    ensures Reads(EV_READ) && !Writes(EV_READ) && EV_READ != EV_NONE
    ensures Writes(EV_WRITE) && !Reads(EV_WRITE) && EV_WRITE != EV_NONE
  {
  }

  /** The select sets hold exactly the descriptors whose masks ask for the event. */
  ghost predicate Mirrors(masks: seq<Mask>, rfds: set<nat>, wfds: set<nat>) {
    (forall fd: nat :: fd in rfds <==> fd < |masks| && Reads(masks[fd])) &&
    (forall fd: nat :: fd in wfds <==> fd < |masks| && Writes(masks[fd]))
  }

  /** `maxFd` is the greatest descriptor with a mask, or -1. */
  predicate IsMax(masks: seq<Mask>, maxFd: int) {
    -1 <= maxFd < |masks| &&
    (maxFd >= 0 ==> masks[maxFd] != EV_NONE) &&
    forall fd :: maxFd < fd < |masks| ==> masks[fd] == EV_NONE
  }

  class EventTable {
    const numFds: nat
    var maxFd: int
    const masks: array<Mask>
    /** The interest sets handed to select. */
    var rfds: set<nat>
    var wfds: set<nat>

    /** The back end is asked for exactly what the masks say. */
    ghost predicate Mirrored()
      reads this, masks
    {
      masks.Length == numFds && Mirrors(masks[..], rfds, wfds)
    }

    ghost predicate Valid()
      reads this, masks
    {
      Mirrored() && IsMax(masks[..], maxFd)
    }

    constructor (numFds: nat)
      ensures Valid() && this.numFds == numFds && fresh(masks)
      ensures maxFd == -1 && rfds == {} && forall fd :: 0 <= fd < numFds ==> masks[fd] == EV_NONE
    {
      this.numFds := numFds;
      masks := new Mask[numFds](_ => EV_NONE);
      maxFd, rfds, wfds := -1, {}, {};
    }

    method ApiAdd(fd: nat, mask: Mask)
      modifies this`rfds, this`wfds
      ensures rfds == old(rfds) + if Reads(mask) then {fd} else {}
      ensures wfds == old(wfds) + if Writes(mask) then {fd} else {}
    {
      if Reads(mask) {
        rfds := rfds + {fd};
      }
      if Writes(mask) {
        wfds := wfds + {fd};
      }
    }

    method ApiDel(fd: nat, mask: Mask)
      modifies this`rfds, this`wfds
      ensures rfds == old(rfds) - if Reads(mask) then {fd} else {}
      ensures wfds == old(wfds) - if Writes(mask) then {fd} else {}
    {
      if Reads(mask) {
        rfds := rfds - {fd};
      }
      if Writes(mask) {
        wfds := wfds - {fd};
      }
    }

    /** `ev_add_event`. The maximum stays right exactly when some event is asked for
        or the descriptor is not a new maximum. */
    method Add(fd: nat, mask: Mask) returns (ok: bool)
      requires Valid()
      modifies this, masks
      ensures ok == (fd < numFds) && Mirrored()
      ensures masks[..] == if ok then old(masks[..])[fd := With(old(masks[fd]), mask)] else old(masks[..])
      ensures maxFd == if ok && fd > old(maxFd) then fd else old(maxFd)
      ensures rfds == old(rfds) + if ok && Reads(mask) then {fd} else {}
      ensures IsMax(masks[..], maxFd) <==> !ok || mask != EV_NONE || fd <= old(maxFd)
    {
      hide Reads, Writes, With;
      if fd >= numFds {
        return false;
      }
      WithBits(masks[fd], mask);
      ApiAdd(fd, mask);
      masks[fd] := With(masks[fd], mask);
      if fd > maxFd {
        maxFd := fd;
      }
      ok := true;
    }

    /** The downward scan for the next lower descriptor with a mask. */
    method Rescan()
      requires masks.Length == numFds && 0 <= maxFd < numFds
      requires forall fd :: maxFd <= fd < numFds ==> masks[fd] == EV_NONE
      modifies this`maxFd
      ensures IsMax(masks[..], maxFd)
    {
      var i := maxFd - 1;
      while i >= 0 && masks[i] == EV_NONE
        invariant -1 <= i < maxFd
        invariant forall j :: i < j < numFds ==> masks[j] == EV_NONE
      {
        i := i - 1;
      }
      maxFd := i;
    }

    /** `ev_delete_event`: removes events, rescans for the maximum when its last event
        goes, and asks the back end a second time. */
    method Delete(fd: nat, mask: Mask)
      requires Valid()
      modifies this, masks
      ensures Valid()
      ensures masks[..] == if fd < numFds then old(masks[..])[fd := Without(old(masks[fd]), mask)] else old(masks[..])
      ensures rfds == old(rfds) - if Reads(mask) then {fd} else {}
    {
      hide Reads, Writes, Without;
      WithoutBits(if fd < numFds then masks[fd] else EV_NONE, mask);
      if fd >= numFds || masks[fd] == EV_NONE {
        return;
      }
      ApiDel(fd, mask);
      masks[fd] := Without(masks[fd], mask);
      if fd == maxFd && masks[fd] == EV_NONE {
        Rescan();
      }
      ApiDel(fd, mask);
    }

    /** Some event for writing to `fd` is registered. */
    predicate WriteAsked(fd: nat)
      reads masks
    {
      fd < masks.Length && Writes(masks[fd])
    }

    /** No other descriptor is watched differently. */
    twostate predicate OthersWatched(fd: nat)
      reads masks
    {
      forall other :: 0 <= other < masks.Length && other != fd ==> masks[other] == old(masks[other])
    }

    /** `ev_add_event` as the server uses it: one event, a descriptor in range. */
    method Watch(fd: nat, mask: Mask)
      requires Valid() && fd < numFds && (mask == EV_READ || mask == EV_WRITE)
      modifies this, masks
      ensures Valid() && OthersWatched(fd)
      ensures WriteAsked(fd) == (old(WriteAsked(fd)) || mask == EV_WRITE)
      ensures rfds == old(rfds) + if mask == EV_READ then {fd} else {}
    {
      SingleBits();
      WithBits(masks[fd], mask);
      hide With, Reads, Writes, Mirrors;
      ghost var before := masks[..];
      var ok := Add(fd, mask);
      assert masks[..][fd] == With(before[fd], mask);
      forall other | 0 <= other < numFds && other != fd ensures masks[other] == old(masks[other]) {
        assert masks[..][other] == before[other];
      }
    }

    method Unwatch(fd: nat, mask: Mask)
      requires Valid()
      modifies this, masks
      ensures Valid() && OthersWatched(fd)
      ensures WriteAsked(fd) == (old(WriteAsked(fd)) && !Writes(mask))
      ensures rfds == old(rfds) - if Reads(mask) then {fd} else {}
    {
      if fd < numFds {
        WithoutBits(masks[fd], mask);
      }
      hide Without, Reads, Writes, Mirrors;
      ghost var before := masks[..];
      Delete(fd, mask);
      forall other | 0 <= other < numFds ensures masks[other] == masks[..][other] {
      }
    }
  }

  /** A new table that is asked for no event on descriptor 0 takes that for its maximum. */
  method SomeWrongMax() returns (e: EventTable)
    ensures e.masks[..] == [EV_NONE] && e.maxFd == 0 && !IsMax(e.masks[..], e.maxFd)
  {
    hide With;
    WithBits(EV_NONE, EV_NONE);
    e := new EventTable(1);
    var _ := e.Add(0, EV_NONE);
  }
}
