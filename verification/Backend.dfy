// A storage backend: whole objects under keys, every operation atomic, any of them able
// to fail before or after it took effect.

module BackendStore {
  import opened Bytes

  // Repository keys, split into their components.
  datatype Key =
    | Lock
    | Header
    | Snapshot(name: string)
    | Object(bucket: string, name: string)
    | Tmp(name: string)

  // What can be listed: snapshots/, objects/, objects/<bucket>/ and tmp/.
  datatype Dir = Snapshots | Buckets | Bucket(name: string) | Tmps

  type Store = map<Key, seq<byte>>

  // An operation that fails may have taken effect all the same; a listing that fails
  // may have named some entries.
  datatype Fault = Fine | Fails(late: bool, listed: nat)

  // No operation fails.
  ghost predicate Reliable(be: Backend) {
    forall n :: be.fault(n).Fine?
  }

  // The name under which a key shows up in a directory.
  function Child(d: Dir, k: Key): Option<string> {
    match (d, k)
    case (Snapshots, Snapshot(n)) => Some(n)
    case (Buckets, Object(b, _)) => Some(b)
    case (Bucket(b), Object(b', n)) => if b == b' then Some(n) else None
    case (Tmps, Tmp(n)) => Some(n)
    case _ => None
  }

  ghost predicate Listed(d: Dir, s: Store, n: string) {
    exists k :: k in s && Child(d, k) == Some(n)
  }

  class Backend {
    var store: Store
    ghost var past: seq<Store>  // every store an operation left behind
    const fault: nat -> Fault
    var clock: nat

    constructor (s: Store, f: nat -> Fault)
      ensures store == s && past == [] && fault == f
    {
      store, past, fault, clock := s, [], f, 0;
    }

    method Tick() returns (f: Fault)
      modifies `clock
      ensures f == fault(old(clock))
    {
      f := fault(clock);
      clock := clock + 1;
    }

    method Put(k: Key, v: seq<byte>) returns (r: Option<Error>)
      modifies `store, `past, `clock
      ensures r.None? ==> store == old(store)[k := v]
      ensures r.Some? ==> r == Some(Io) && (store == old(store) || store == old(store)[k := v])
      ensures r.Some? ==> fault(old(clock)).Fails?
      ensures past == old(past) + [store]
    {
      var f := Tick();
      if f.Fine? || f.late {
        store := store[k := v];
      }
      past := past + [store];
      return if f.Fine? then None else Some(Io);
    }

    method Remove(k: Key) returns (r: Option<Error>)
      modifies `store, `past, `clock
      ensures r.None? ==> k in old(store) && store == old(store) - {k}
      ensures r == Some(NotFound) ==> k !in old(store) && store == old(store)
      ensures r.Some? ==> r.value in {NotFound, Io} && (store == old(store) || store == old(store) - {k})
      ensures r == Some(Io) ==> fault(old(clock)).Fails?
      ensures past == old(past) + [store]
    {
      var f := Tick();
      if f.Fails? && !f.late {
        r := Some(Io);
      } else if k !in store {
        r := if f.Fine? then Some(NotFound) else Some(Io);
      } else {
        store := store - {k};
        r := if f.Fine? then None else Some(Io);
      }
      past := past + [store];
    }

    method Get(k: Key) returns (r: Result<seq<byte>>)
      modifies `clock
      ensures r.Ok? ==> k in store && r.value == store[k]
      ensures r.Err? ==> r.error == Io || (r.error == NotFound && k !in store)
      ensures r == Err(Io) ==> fault(old(clock)).Fails?
    {
      var f := Tick();
      return if f.Fails? then Err(Io) else if k in store then Ok(store[k]) else Err(NotFound);
    }

    method Exists(k: Key) returns (r: Result<bool>)
      modifies `clock
      ensures r.Ok? ==> (r.value <==> k in store)
      ensures r.Err? ==> r.error == Io && fault(old(clock)).Fails?
    {
      var f := Tick();
      return if f.Fails? then Err(Io) else Ok(k in store);
    }

    // The names present when the listing starts, each once, in any order.
    method List(d: Dir) returns (names: seq<string>, error: Option<Error>)
      modifies `clock
      ensures forall i, j :: 0 <= i < j < |names| ==> names[i] != names[j]
      ensures forall n :: n in names ==> Listed(d, store, n)
      ensures error.None? ==> forall n :: Listed(d, store, n) ==> n in names
      ensures error.Some? ==> error == Some(Io) && fault(old(clock)).Fails?
    {
      var f := Tick();
      names := AllNames(d);
      if f.Fails? {
        return names[..if f.listed < |names| then f.listed else |names|], Some(Io);
      }
      return names, None;
    }

    method AllNames(d: Dir) returns (names: seq<string>)
      ensures forall i, j :: 0 <= i < j < |names| ==> names[i] != names[j]
      ensures forall n :: n in names <==> Listed(d, store, n)
    {
      var keys := store.Keys;
      names := [];
      while keys != {}
        invariant keys <= store.Keys
        invariant forall i, j :: 0 <= i < j < |names| ==> names[i] != names[j]
        invariant forall n :: n in names ==> Listed(d, store, n)
        invariant forall k :: k in store && k !in keys && Child(d, k).Some? ==> Child(d, k).value in names
        decreases |keys|
      {
        var k :| k in keys;
        keys := keys - {k};
        if Child(d, k).Some? && Child(d, k).value !in names {
          names := names + [Child(d, k).value];
        }
      }
    }
  }
}
