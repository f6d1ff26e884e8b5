/** One database of the server: the four containers behind its data commands. */
module Databases {
  import opened Objects
  import opened Commands
  import opened Buckets
  import opened Keys
  import opened HashTables
  import opened Queues
  import opened Vecs
  import opened ServerSpec

  class Database {
    const dict: HashTable<Key, Obj>
    const zset: HashTable<Key, ()>
    const queue: Queue<Obj>
    const vec: Vec<Obj>

    ghost function Repr(): set<object>
      reads dict, zset, queue, vec
    {
      dict.Repr() + zset.Repr() + queue.Repr() + vec.Repr()
    }

    ghost predicate Apart()
      reads dict, zset, queue, vec
    {
      dict.Repr() !! zset.Repr() !! queue.Repr() !! vec.Repr()
    }

    ghost predicate Valid()
      reads dict, zset, queue, vec, Repr()
    {
      Apart() && dict.Valid() && zset.Valid() && queue.Valid() && vec.Valid()
    }

    ghost function View(): (d: Db)
      reads dict, zset, queue, vec, Repr()
      requires Valid()
      ensures ValidDb(d)
    {
      Db(dict.policy, dict.table, zset.policy, zset.table, queue.Contents(), vec.Contents())
    }

    constructor (dict: HashTable<Key, Obj>, zset: HashTable<Key, ()>, queue: Queue<Obj>, vec: Vec<Obj>)
      ensures this.dict == dict && this.zset == zset && this.queue == queue && this.vec == vec
    {
      this.dict, this.zset, this.queue, this.vec := dict, zset, queue, vec;
    }

    // What stays when another container changes.

    twostate lemma DictKept()
      requires old(Valid()) && unchanged(old(dict.Repr()))
      ensures dict.Repr() == old(dict.Repr()) && dict.Valid() && dict.table == old(dict.table)
    {
    }

    twostate lemma ZsetKept()
      requires old(Valid()) && unchanged(old(zset.Repr()))
      ensures zset.Repr() == old(zset.Repr()) && zset.Valid() && zset.table == old(zset.table)
    {
    }

    twostate lemma QueueKept()
      requires old(Valid()) && unchanged(old(queue.Repr()))
      ensures queue.Repr() == old(queue.Repr()) && queue.Valid() && queue.Contents() == old(queue.Contents())
    {
    }

    twostate lemma VecKept()
      requires old(Valid()) && unchanged(old(vec.Repr()))
      ensures vec.Repr() == old(vec.Repr()) && vec.Valid() && vec.Contents() == old(vec.Contents())
    {
    }

    twostate lemma Kept()
      requires old(Valid()) && unchanged(old(Repr()))
      ensures Repr() == old(Repr()) && Valid() && View() == old(View())
    {
      hide HashTable.Valid, Queue.Valid, Queue.Contents, Vec.Valid, Vec.Contents;
      DictKept();
      ZsetKept();
      QueueKept();
      VecKept();
    }

    method DictInsert(key: Key, value: Obj)
      requires Valid()
      modifies Repr()
      ensures Valid() && fresh(Repr() - old(Repr()))
      ensures View() == old(View()).(dict := Insert(dict.policy, old(dict.table), key, value))
    {
      hide HashTable.Valid, Queue.Valid, Queue.Contents, Vec.Valid, Vec.Contents;
      dict.Insert(key, value);
      ZsetKept();
      QueueKept();
      VecKept();
    }

    method DictDelete(key: Key) returns (ok: bool)
      requires Valid()
      modifies Repr()
      ensures Valid() && fresh(Repr() - old(Repr()))
      ensures View() == old(View()).(dict := Delete(dict.policy, old(dict.table), key))
      ensures ok == Buckets.Get(dict.policy, old(dict.table), key).Some?
    {
      hide HashTable.Valid, Queue.Valid, Queue.Contents, Vec.Valid, Vec.Contents;
      ok := dict.Delete(key);
      ZsetKept();
      QueueKept();
      VecKept();
    }

    method SetInsert(key: Key)
      requires Valid()
      modifies Repr()
      ensures Valid() && fresh(Repr() - old(Repr()))
      ensures View() == old(View()).(zset := TryInsert(zset.policy, old(zset.table), key, ()))
    {
      hide HashTable.Valid, Queue.Valid, Queue.Contents, Vec.Valid, Vec.Contents;
      var _ := zset.TryInsert(key, ());
      DictKept();
      QueueKept();
      VecKept();
    }

    method SetDelete(key: Key) returns (ok: bool)
      requires Valid()
      modifies Repr()
      ensures Valid() && fresh(Repr() - old(Repr()))
      ensures View() == old(View()).(zset := Delete(zset.policy, old(zset.table), key))
      ensures ok == Buckets.Get(zset.policy, old(zset.table), key).Some?
    {
      hide HashTable.Valid, Queue.Valid, Queue.Contents, Vec.Valid, Vec.Contents;
      ok := zset.Delete(key);
      DictKept();
      QueueKept();
      VecKept();
    }

    method Enque(value: Obj)
      requires Valid()
      modifies Repr()
      ensures Valid() && fresh(Repr() - old(Repr()))
      ensures View() == old(View()).(queue := old(queue.Contents()) + [value])
    {
      hide HashTable.Valid, Queue.Valid, Queue.Contents, Vec.Valid, Vec.Contents;
      queue.Enque(value);
      DictKept();
      ZsetKept();
      VecKept();
    }

    method Deque() returns (r: Option<Obj>)
      requires Valid()
      modifies Repr()
      ensures Valid() && fresh(Repr() - old(Repr()))
      ensures View() == old(View()).(queue := if old(queue.Contents()) == [] then [] else old(queue.Contents())[1..])
      ensures r == if old(queue.Contents()) == [] then None else Some(old(queue.Contents())[0])
    {
      hide HashTable.Valid, Queue.Valid, Queue.Contents, Vec.Valid, Vec.Contents;
      r := queue.Deque();
      DictKept();
      ZsetKept();
      VecKept();
    }

    method Push(value: Obj)
      requires Valid()
      modifies Repr()
      ensures Valid() && fresh(Repr() - old(Repr()))
      ensures View() == old(View()).(stack := old(vec.Contents()) + [value])
    {
      hide HashTable.Valid, Queue.Valid, Queue.Contents, Vec.Valid, Vec.Contents;
      vec.Push(value);
      DictKept();
      ZsetKept();
      QueueKept();
    }

    method Pop() returns (r: Option<Obj>)
      requires Valid()
      modifies Repr()
      ensures Valid() && fresh(Repr() - old(Repr()))
      ensures View() == old(View()).(stack :=
        if old(vec.Contents()) == [] then [] else old(vec.Contents())[..|old(vec.Contents())| - 1])
      ensures var c := old(vec.Contents()); r == if c == [] then None else Some(c[|c| - 1])
    {
      hide HashTable.Valid, Queue.Valid, Queue.Contents, Vec.Valid, Vec.Contents;
      r := vec.Pop();
      DictKept();
      ZsetKept();
      QueueKept();
    }

    method DictGet(key: Key) returns (r: Option<Obj>)
      requires Valid()
      ensures Valid() && Repr() == old(Repr()) && View() == old(View())
      ensures r == Buckets.Get(dict.policy, dict.table, key)
    {
      r := dict.Get(key);
      hide HashTable.Valid, Queue.Valid, Queue.Contents, Vec.Valid, Vec.Contents;
      DictKept();
      ZsetKept();
      QueueKept();
      VecKept();
    }

    method SetHas(key: Key) returns (r: bool)
      requires Valid()
      ensures Valid() && Repr() == old(Repr()) && View() == old(View())
      ensures r == Buckets.Get(zset.policy, zset.table, key).Some?
    {
      var found := zset.Get(key);
      r := found.Some?;
      hide HashTable.Valid, Queue.Valid, Queue.Contents, Vec.Valid, Vec.Contents;
      DictKept();
      ZsetKept();
      QueueKept();
      VecKept();
    }

    /** The data commands of `execute_cmd` with their helpers. */
    method Apply(image: string, cmd: Cmd) returns (a: Answer)
      requires Valid() && IsData(cmd)
      modifies Repr()
      ensures Valid() && fresh(Repr() - old(Repr()))
      ensures (View(), a) == DbExec(old(View()), image, cmd)
    {
      hide HashTable.Valid, Queue.Valid, Queue.Contents, Vec.Valid, Vec.Contents, Apart, Repr;
      match cmd
      case Set(k, v) =>
        DictInsert(Key(k, image), v);
        a := OK;
      case Get(k) =>
        var found := DictGet(Key(k, image));
        a := if found.Some? then Value(found.value) else NONE;
      case Del(k) =>
        var ok := DictDelete(Key(k, image));
        a := if ok then OK else EINVKEY;
      case Push(v) =>
        Push(v);
        a := OK;
      case Pop =>
        var r := Pop();
        a := if r.Some? then Value(r.value) else NONE;
      case Enque(v) =>
        Enque(v);
        a := OK;
      case Deque =>
        var r := Deque();
        a := if r.Some? then Value(r.value) else NONE;
      case ZSet(v) =>
        SetInsert(Key(v, image));
        a := OK;
      case ZHas(v) =>
        var found := SetHas(Key(v, image));
        a := if found then Value(Int(1)) else NONE;
      case ZDel(v) =>
        var ok := SetDelete(Key(v, image));
        a := if ok then OK else EINVKEY;
    }
  }

  method NewTables(dictHash: string -> nat, setHash: string -> nat)
      returns (dict: HashTable<Key, Obj>, zset: HashTable<Key, ()>)
    ensures dict.Valid() && dict.policy == KeyPolicy(dictHash) && dict.table == Empty(INITIAL_CAP)
    ensures zset.Valid() && zset.policy == KeyPolicy(setHash) && zset.table == Empty(INITIAL_CAP)
    ensures fresh(dict.Repr()) && fresh(zset.Repr()) && dict.Repr() !! zset.Repr()
  {
    dict := new HashTable(KeyPolicy(dictHash));
    label Before:
    zset := new HashTable(KeyPolicy(setHash));
    hide HashTable.Valid;
    assert dict.Valid() == old@Before(dict.Valid());
  }

  method NewSequences() returns (queue: Queue<Obj>, vec: Vec<Obj>)
    ensures queue.Valid() && vec.Valid() && queue.Contents() == [] && vec.Contents() == []
    ensures fresh(queue.Repr()) && fresh(vec.Repr()) && queue.Repr() !! vec.Repr()
  {
    queue := new Queue();
    vec := new Vec(Null);
  }

  /** A database of four containers that share nothing. */
  method Joint(dict: HashTable<Key, Obj>, zset: HashTable<Key, ()>, queue: Queue<Obj>, vec: Vec<Obj>)
      returns (db: Database)
    requires dict.Valid() && zset.Valid() && queue.Valid() && vec.Valid()
    requires dict.Repr() !! zset.Repr() && queue.Repr() !! vec.Repr()
    requires dict.Repr() + zset.Repr() !! queue.Repr() + vec.Repr()
    ensures fresh(db) && db.dict == dict && db.zset == zset && db.queue == queue && db.vec == vec
    ensures db.Valid() && dict.table == old(dict.table) && zset.table == old(zset.table)
    ensures queue.Contents() == old(queue.Contents()) && vec.Contents() == old(vec.Contents())
    ensures db.Repr() == old(dict.Repr() + zset.Repr() + queue.Repr() + vec.Repr())
  {
    hide HashTable.Valid, Queue.Valid, Queue.Contents, Vec.Valid, Vec.Contents;
    db := new Database(dict, zset, queue, vec);
    assert dict.Valid() == old(dict.Valid()) && zset.Valid() == old(zset.Valid());
    assert queue.Valid() == old(queue.Valid()) && queue.Contents() == old(queue.Contents());
    assert vec.Valid() == old(vec.Valid()) && vec.Contents() == old(vec.Contents());
  }

  /** An empty database; each table draws a seed of its own. */
  method NewDatabase(dictHash: string -> nat, setHash: string -> nat) returns (db: Database)
    ensures db.Valid() && fresh(db) && fresh(db.Repr())
    ensures db.View() == Db(KeyPolicy(dictHash), Empty(INITIAL_CAP), KeyPolicy(setHash), Empty(INITIAL_CAP), [], [])
  {
    hide HashTable.Valid, Queue.Valid, Queue.Contents, Vec.Valid, Vec.Contents, KeyPolicy, Buckets.Empty;
    var dict, zset := NewTables(dictHash, setHash);
    label Tables:
    var queue, vec := NewSequences();
    assert dict.Valid() == old@Tables(dict.Valid()) && zset.Valid() == old@Tables(zset.Valid());
    db := Joint(dict, zset, queue, vec);
  }
}
