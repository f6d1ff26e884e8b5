/** The array of databases: separate footprints, so that a command on one leaves the
    others as they are. */
module DatabaseArrays {
  import opened Commands
  import opened Databases
  import opened ServerSpec
  import opened HashTables
  import opened HashTableIters
  import opened Keys
  import opened Objects
  import opened Buckets

  class DatabaseArray {
    const dbs: seq<Database>

    constructor (dbs: seq<Database>)
      ensures this.dbs == dbs
    {
      this.dbs := dbs;
    }

    ghost function Roots(): set<object> {
      (set i | 0 <= i < |dbs| :: dbs[i].dict as object) + (set i | 0 <= i < |dbs| :: dbs[i].zset as object)
      + (set i | 0 <= i < |dbs| :: dbs[i].queue as object) + (set i | 0 <= i < |dbs| :: dbs[i].vec as object)
    }

    ghost function Repr(): set<object>
      reads Roots()
    {
      set i, o | 0 <= i < |dbs| && o in dbs[i].Repr() :: o
    }

    /** The databases gained only new objects. */
    twostate predicate Grew()
      reads Roots()
    {
      forall o :: o in Repr() ==> o in old(Repr()) || !old(allocated(o))
    }

    /** No object belongs to two databases. */
    ghost predicate Apart()
      reads Roots()
    {
      forall i, j :: 0 <= i < j < |dbs| ==> dbs[i].Repr() !! dbs[j].Repr()
    }

    ghost predicate Valid()
      reads Roots(), Repr()
    {
      0 < |dbs| <= MAX_DATABASES && Apart() && forall i :: 0 <= i < |dbs| ==> dbs[i].Valid()
    }

    static ghost predicate ValidDbs(s: seq<Db>) {
      forall i :: 0 <= i < |s| ==> ValidDb(s[i])
    }

    ghost function View(): (s: seq<Db>)
      reads Roots(), Repr()
      requires Valid()
      ensures |s| == |dbs| && ValidDbs(s)
    {
      seq(|dbs|, i requires 0 <= i < |dbs| reads Roots(), Repr() requires Valid() => dbs[i].View())
    }

    /** Database `i` as it was. */
    twostate predicate Same(i: nat)
      requires i < |dbs| && old(dbs[i].Valid())
      reads dbs[i].dict, dbs[i].zset, dbs[i].queue, dbs[i].vec, dbs[i].Repr()
    {
      dbs[i].Valid() && dbs[i].Repr() == old(dbs[i].Repr()) && dbs[i].View() == old(dbs[i].View())
    }

    twostate lemma OthersSame(n: nat)
      requires old(Valid()) && n < |dbs|
      requires forall i, o :: 0 <= i < |dbs| && i != n && o in old(dbs[i].Repr()) ==> unchanged(o)
      ensures forall i :: 0 <= i < |dbs| && i != n ==> Same(i)
    {
      forall i | 0 <= i < |dbs| && i != n ensures Same(i) {
        dbs[i].Kept();
      }
    }

    lemma Separate(n: nat)
      requires Apart() && n < |dbs|
      ensures forall i, o :: 0 <= i < |dbs| && i != n && o in dbs[i].Repr() ==> o !in dbs[n].Repr()
    {
      hide Database.Repr;
    }

    lemma Allocated()
      ensures forall i, o :: 0 <= i < |dbs| && o in dbs[i].Repr() ==> allocated(o)
    {
    }

    // What a step on database `n` tells about the whole.

    twostate predicate Stepped(n: nat)
      requires old(Valid()) && n < |dbs|
      reads Roots(), Repr()
    {
      dbs[n].Valid() && fresh(dbs[n].Repr() - old(dbs[n].Repr()))
      && forall i :: 0 <= i < |dbs| && i != n ==> Same(i)
    }

    /** A data command on database `n` leaves every other one as it was. */
    method ApplyOne(n: nat, image: string, cmd: Cmd) returns (a: Answer)
      requires Valid() && n < |dbs| && IsData(cmd)
      modifies dbs[n].Repr()
      ensures Stepped(n) && (dbs[n].View(), a) == DbExec(old(dbs[n].View()), image, cmd)
    {
      Separate(n);
      Allocated();
      hide Database.Valid, Database.View, Database.Repr, Valid;
      a := dbs[n].Apply(image, cmd);
      OthersSame(n);
    }

    twostate lemma WasAllocated()
      ensures forall i, o :: 0 <= i < |dbs| && o in old(dbs[i].Repr()) ==> old(allocated(o))
    {
    }

    twostate lemma WasThere()
      ensures forall o :: o in Roots() || o in old(Repr()) ==> old(allocated(o))
    {
    }

    twostate lemma WereApart(n: nat)
      requires old(Apart()) && n < |dbs|
      ensures forall i :: 0 <= i < |dbs| && i != n ==> old(dbs[i].Repr()) !! old(dbs[n].Repr())
    {
      hide Database.Repr;
    }

    twostate lemma ApartFrom(n: nat)
      requires old(Valid()) && n < |dbs| && Stepped(n)
      ensures forall i :: 0 <= i < |dbs| && i != n ==> dbs[i].Repr() !! dbs[n].Repr()
    {
      WasAllocated();
      WereApart(n);
      hide Database.Valid, Database.View, Database.Repr;
      forall i | 0 <= i < |dbs| && i != n ensures dbs[i].Repr() !! dbs[n].Repr() {
        assert Same(i);
      }
    }

    twostate lemma StillApart(n: nat)
      requires old(Valid()) && n < |dbs| && Stepped(n)
      ensures Apart()
    {
      hide Database.Valid, Database.View, Database.Repr;
      ApartFrom(n);
      forall i, j | 0 <= i < j < |dbs| && i != n && j != n ensures dbs[i].Repr() !! dbs[j].Repr() {
        assert Same(i) && Same(j);
      }
    }

    twostate lemma StillValid(n: nat)
      requires old(Valid()) && n < |dbs| && Stepped(n)
      ensures Valid()
    {
      StillApart(n);
      hide Database.Valid, Database.View, Database.Repr;
      forall i | 0 <= i < |dbs| ensures dbs[i].Valid() {
        assert i != n ==> Same(i);
      }
    }

    twostate lemma ReprHas(i: nat)
      requires i < |dbs|
      ensures old(dbs[i].Repr()) <= old(Repr())
    {
    }

    twostate lemma StillFresh(n: nat)
      requires old(Valid()) && n < |dbs| && Stepped(n)
      ensures Grew()
    {
      hide Database.Valid, Database.View, Database.Repr;
      forall o | o in Repr() && o !in old(Repr()) ensures fresh(o) {
        var i :| 0 <= i < |dbs| && o in dbs[i].Repr();
        assert i != n ==> Same(i);
        ReprHas(i);
      }
    }

    twostate lemma StillView(n: nat)
      requires old(Valid()) && n < |dbs| && Stepped(n) && Valid()
      ensures View() == old(View())[n := dbs[n].View()]
    {
      hide Database.Valid, Database.View, Database.Repr;
      forall i | 0 <= i < |dbs| && i != n ensures View()[i] == old(View())[i] {
        assert Same(i);
      }
    }

    twostate lemma Whole(n: nat)
      requires old(Valid()) && n < |dbs| && Stepped(n)
      ensures Valid() && Grew()
      ensures View() == old(View())[n := dbs[n].View()]
    {
      hide *;
      StillValid(n);
      StillFresh(n);
      StillView(n);
    }

    lemma Within(n: nat)
      requires n < |dbs|
      ensures dbs[n].Repr() <= Repr()
    {
    }

    /** A data command on database `n`, as its effect on the whole array. */
    method Apply(n: nat, image: string, cmd: Cmd) returns (a: Answer)
      requires Valid() && n < |dbs| && IsData(cmd)
      modifies Repr()
      ensures Valid() && Grew()
      ensures var r := DbExec(old(View())[n], image, cmd);
        View() == old(View())[n := r.0] && a == r.1
    {
      Within(n);
      hide *;
      a := ApplyOne(n, image, cmd);
      Whole(n);
    }

    lemma DictOf(i: nat)
      requires Valid() && i < |dbs|
      ensures var d := dbs[i].dict;
        d.Valid() && View()[i].dict == d.table && d.numEntries == Count(d.table)
    {
    }

    twostate lemma AllSame()
      requires old(Valid())
      requires forall i, o :: 0 <= i < |dbs| && o in old(dbs[i].Repr()) ==> unchanged(o)
      ensures forall i :: 0 <= i < |dbs| ==> Same(i)
    {
      forall i | 0 <= i < |dbs| ensures Same(i) {
        dbs[i].Kept();
      }
    }

    twostate lemma Kept()
      requires old(Valid()) && forall i :: 0 <= i < |dbs| ==> Same(i)
      ensures Valid() && Grew() && View() == old(View())
    {
      hide Database.Valid, Database.View, Database.Repr;
      assert Same(0);
      Whole(0);
    }

    twostate lemma SameRepr()
      requires old(Valid()) && forall i :: 0 <= i < |dbs| ==> Same(i)
      ensures Repr() == old(Repr())
    {
      hide Database.Valid, Database.View, Database.Repr;
      assert forall i :: 0 <= i < |dbs| ==> Same(i);
      forall o | o in Repr() ensures o in old(Repr()) {
        var i :| 0 <= i < |dbs| && o in dbs[i].Repr();
        assert Same(i) && o in old(dbs[i].Repr());
      }
      forall o | o in old(Repr()) ensures o in Repr() {
        var i :| 0 <= i < |dbs| && o in old(dbs[i].Repr());
        assert Same(i) && o in dbs[i].Repr();
      }
      assert Repr() <= old(Repr()) && old(Repr()) <= Repr();
    }

    /** Changes elsewhere in the heap do not matter. */
    twostate lemma Untouched()
      requires old(Valid())
      requires forall i, o :: 0 <= i < |dbs| && o in old(dbs[i].Repr()) ==> unchanged(o)
      ensures Valid() && Repr() == old(Repr()) && View() == old(View())
    {
      hide *;
      AllSame();
      Kept();
      SameRepr();
    }

    method CollectFirst() returns (es: Chain<Key, Obj>)
      requires Valid() && dbs[0].dict.Valid()
      ensures es == old(Flat(dbs[0].dict.table))
      ensures forall i :: 0 <= i < |dbs| ==> Same(i)
    {
      Allocated();
      assert |dbs| > 0;
      hide Database.Valid, Database.View, Database.Repr, Valid, HashTable.Valid, Flat;
      es := Collect(dbs[0].dict);
      AllSame();
    }

    /** The reply to KEYS for database `n`: its own count, the keys of the first. */
    method ListKeys(n: nat) returns (a: Answer)
      requires Valid() && n < |dbs|
      ensures Valid() && Grew() && View() == old(View())
      ensures a == KeysAnswer(View(), n)
    {
      DictOf(n);
      DictOf(0);
      hide Valid, Repr, View, Flat, Count;
      var count := dbs[n].dict.numEntries;
      if count == 0 {
        return NONE;
      }
      var es := CollectFirst();
      Kept();
      a := Listing(count, ObjectsOf(es));
    }
  }

  /** Each table of each database draws a seed, that is a hash function, of its own. */
  datatype Seeds = Seeds(dict: string -> nat, zset: string -> nat)

  function EmptyDb(s: Seeds): Db {
    Db(KeyPolicy(s.dict), Empty(INITIAL_CAP), KeyPolicy(s.zset), Empty(INITIAL_CAP), [], [])
  }

  /** Databases that are still as they were at `Kept`'s old state. */
  twostate lemma AllStay(dbs: seq<Database>)
    requires forall i :: 0 <= i < |dbs| ==> old(dbs[i].Valid()) && unchanged(old(dbs[i].Repr()))
    ensures forall i :: 0 <= i < |dbs| ==>
      dbs[i].Valid() && dbs[i].Repr() == old(dbs[i].Repr()) && dbs[i].View() == old(dbs[i].View())
  {
    forall i | 0 <= i < |dbs|
      ensures dbs[i].Valid() && dbs[i].Repr() == old(dbs[i].Repr()) && dbs[i].View() == old(dbs[i].View())
    {
      dbs[i].Kept();
    }
  }

  /** One more empty database next to others. */
  method Another(ghost dbs: seq<Database>, seeds: Seeds) returns (db: Database)
    requires forall i :: 0 <= i < |dbs| ==> dbs[i].Valid()
    ensures db.Valid() && fresh(db.Repr()) && db.View() == EmptyDb(seeds)
    ensures forall i :: 0 <= i < |dbs| ==>
      dbs[i].Valid() && dbs[i].Repr() == old(dbs[i].Repr()) && dbs[i].View() == old(dbs[i].View())
      && dbs[i].Repr() !! db.Repr()
  {
    hide *;
    AreAllocated(dbs);
    EmptyDbIs(seeds);
    db := NewDatabase(seeds.dict, seeds.zset);
    forall i | 0 <= i < |dbs| ensures unchanged(old(dbs[i].Repr())) {
    }
    AllStay(dbs);
  }

  lemma AreAllocated(dbs: seq<Database>)
    ensures forall i, o :: 0 <= i < |dbs| && o in dbs[i].Repr() ==> allocated(o)
  {
  }

  lemma EmptyDbIs(s: Seeds)
    ensures EmptyDb(s) == Db(KeyPolicy(s.dict), Empty(INITIAL_CAP), KeyPolicy(s.zset), Empty(INITIAL_CAP), [], [])
  {
  }

  /** `lexidb_new`. */
  method NewDatabases(seeds: seq<Seeds>) returns (dbs: seq<Database>)
    ensures |dbs| == |seeds|
    ensures forall i :: 0 <= i < |dbs| ==> dbs[i].Valid() && dbs[i].View() == EmptyDb(seeds[i]) && fresh(dbs[i].Repr())
    ensures forall i, j :: 0 <= i < j < |dbs| ==> dbs[i].Repr() !! dbs[j].Repr()
  {
    hide *;
    dbs := [];
    for k := 0 to |seeds|
      invariant |dbs| == k
      invariant forall i :: 0 <= i < k ==> dbs[i].Valid() && dbs[i].View() == EmptyDb(seeds[i]) && fresh(dbs[i].Repr())
      invariant forall i, j :: 0 <= i < j < k ==> dbs[i].Repr() !! dbs[j].Repr()
    {
      var db := Another(dbs, seeds[k]);
      dbs := dbs + [db];
    }
  }

  function EmptyDbs(seeds: seq<Seeds>): (r: seq<Db>)
    ensures |r| == |seeds| && forall i :: 0 <= i < |r| ==> r[i] == EmptyDb(seeds[i])
  {
    seq(|seeds|, i requires 0 <= i < |seeds| => EmptyDb(seeds[i]))
  }

  method NewArray(dbs: seq<Database>) returns (store: DatabaseArray)
    requires forall i :: 0 <= i < |dbs| ==> dbs[i].Valid()
    ensures store.dbs == dbs
    ensures forall i :: 0 <= i < |dbs| ==>
      dbs[i].Valid() && dbs[i].Repr() == old(dbs[i].Repr()) && dbs[i].View() == old(dbs[i].View())
  {
    hide *;
    AreAllocated(dbs);
    store := new DatabaseArray(dbs);
    AllStay(dbs);
  }

  lemma NewValid(store: DatabaseArray, seeds: seq<Seeds>)
    requires 0 < |seeds| <= MAX_DATABASES && |store.dbs| == |seeds|
    requires forall i :: 0 <= i < |seeds| ==> store.dbs[i].Valid() && store.dbs[i].View() == EmptyDb(seeds[i])
    requires forall i, j :: 0 <= i < j < |seeds| ==> store.dbs[i].Repr() !! store.dbs[j].Repr()
    ensures store.Valid() && store.View() == EmptyDbs(seeds)
  {
    hide Database.Valid, Database.View, Database.Repr, EmptyDb;
  }

  twostate lemma NewRepr(new store: DatabaseArray)
    requires forall i :: 0 <= i < |store.dbs| ==> fresh(store.dbs[i].Repr())
    ensures fresh(store.Repr())
  {
    hide Database.Repr;
  }

  method NewStore(seeds: seq<Seeds>) returns (store: DatabaseArray)
    requires 0 < |seeds| <= MAX_DATABASES
    ensures store.Valid() && store.View() == EmptyDbs(seeds) && fresh(store.Repr())
  {
    hide *;
    var dbs := NewDatabases(seeds);
    store := NewArray(dbs);
    NewRepr(store);
    NewValid(store, seeds);
  }
}
