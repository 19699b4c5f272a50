// What a prune spares, wherever it stops.

module PruneProofs {
  import opened BackendStore
  import opened Bytes
  import opened HexNames
  import opened Manifest
  import opened Meta
  import opened Prune
  import opened Repo
  import opened Safety
  import opened SnapIds
  import opened SnapshotMain
  import opened SnapshotRun

  lemma TargetKeyOnly(targets: seq<string>, id: string)
    ensures ManifestKey(id) in TargetKeys(targets) <==> id in targets
  {
    if ManifestKey(id) in TargetKeys(targets) {
      var id' :| id' in targets && ManifestKey(id') == ManifestKey(id);
      SuffixOnce(id, id');
    }
  }

  // A snapshot still there says what it said, and everything it refers to is untouched.
  lemma SurvivorUnharmed(cfg: Config, u: Contents, s: Store, targets: seq<string>, t: Store, id: string, r: Ref)
    requires GoodConfig(cfg) && Safe(cfg, s, u) && PrunePoint(cfg, s, targets, t)
    requires |id| == 16 && ManifestKey(id) in t
    requires SnapshotEvents(cfg, s, id).Some? && r in Refs(SnapshotEvents(cfg, s, id).value)
    ensures SnapshotEvents(cfg, t, id) == SnapshotEvents(cfg, s, id)
    ensures |r.hash| == 32 && ObjectKey(r.hash) in t && ObjectKey(r.hash) in s
    ensures t[ObjectKey(r.hash)] == s[ObjectKey(r.hash)]
  {
    SafeMeansFetchable(cfg, s, u, id, r);
    var k, rs := ObjectKey(r.hash), Refs(SnapshotEvents(cfg, s, id).value);
    assert !(k in TargetKeys(targets));
    if !Between(s.Keys - TargetKeys(targets), s, t) {
      var s1 := s - TargetKeys(targets);
      var i :| 0 <= i < |rs| && rs[i] == r;
      assert NamesOf(rs)[i] == HexOf(r.hash);
      assert MarkedBy(cfg, s1, id, HexOf(r.hash));
      assert Stays(cfg, s1, k);
      assert k in Pruned(cfg, s, targets).Keys;
    }
  }

  lemma OnlyTaken(cfg: Config, s: Store, targets: seq<string>, t: Store)
    requires GoodConfig(cfg) && PrunePoint(cfg, s, targets, t)
    ensures t.Keys <= s.Keys && forall k :: k in t ==> t[k] == s[k]
  {
  }

  // A prune stopped anywhere, by an error or a crash, leaves a safe repository.
  lemma PrunePointIsSafe(cfg: Config, u: Contents, s: Store, targets: seq<string>, t: Store)
    requires GoodConfig(cfg) && Safe(cfg, s, u) && PrunePoint(cfg, s, targets, t)
    ensures Safe(cfg, t, u)
  {
    OnlyTaken(cfg, s, targets, t);
    forall id: string | |id| == 16
      ensures GoodSnapshot(cfg, t, u, id)
    {
      if ManifestKey(id) in t && SnapshotEvents(cfg, s, id).Some? {
        assert GoodSnapshot(cfg, s, u, id);
        SurvivorRefs(cfg, u, s, targets, t, id, Refs(SnapshotEvents(cfg, s, id).value));
      }
    }
  }

  lemma SurvivorRefs(cfg: Config, u: Contents, s: Store, targets: seq<string>, t: Store, id: string, rs: seq<Ref>)
    requires GoodConfig(cfg) && Safe(cfg, s, u) && PrunePoint(cfg, s, targets, t) && |id| == 16 && ManifestKey(id) in t
    requires SnapshotEvents(cfg, s, id).Some? && rs == Refs(SnapshotEvents(cfg, s, id).value) && GoodRefs(cfg, s, u, rs)
    ensures GoodRefs(cfg, t, u, rs)
  {
    forall i | 0 <= i < |rs|
      ensures GoodRef(cfg, t, u, rs[i])
    {
      assert GoodRef(cfg, s, u, rs[i]);
      SurvivorUnharmed(cfg, u, s, targets, t, id, rs[i]);
    }
  }

  // A successful prune: exactly the snapshots that were not targets, exactly the objects a
  // survivor refers to (in the fan-out buckets), and an empty tmp/.
  lemma PrunedExactly(cfg: Config, s: Store, targets: seq<string>)
    requires GoodConfig(cfg)
    ensures forall id :: ManifestKey(id) in Pruned(cfg, s, targets) <==> ManifestKey(id) in s && id !in targets
    ensures forall b: string, n :: |b| == 2 ==>
              (Object(b, n) in Pruned(cfg, s, targets) <==> Object(b, n) in s && Marked(cfg, Pruned(cfg, s, targets), n))
    ensures forall n :: Tmp(n) !in Pruned(cfg, s, targets)
    ensures forall k :: k in Pruned(cfg, s, targets) ==> Pruned(cfg, s, targets)[k] == s[k]
  {
    var s1, t := s - TargetKeys(targets), Pruned(cfg, s, targets);
    forall id
      ensures ManifestKey(id) in t <==> ManifestKey(id) in s && id !in targets
      ensures SnapshotEvents(cfg, t, id) == SnapshotEvents(cfg, s1, id)
    {
      TargetKeyOnly(targets, id);
      assert Stays(cfg, s1, ManifestKey(id));
    }
    forall n
      ensures Marked(cfg, t, n) <==> Marked(cfg, s1, n)
    {
      SameMarks(cfg, s1, t, n);
    }
    forall b: string, n | |b| == 2
      ensures Object(b, n) in t <==> Object(b, n) in s && Marked(cfg, t, n)
    {
      assert Object(b, n) !in TargetKeys(targets);
      assert Stays(cfg, s1, Object(b, n)) <==> Marked(cfg, s1, n);
    }
  }

  lemma SameMarks(cfg: Config, s: Store, t: Store, n: string)
    requires GoodConfig(cfg) && forall id :: SnapshotEvents(cfg, t, id) == SnapshotEvents(cfg, s, id)
    ensures Marked(cfg, t, n) <==> Marked(cfg, s, n)
  {
    if Marked(cfg, s, n) {
      var id: string :| MarkedBy(cfg, s, id, n);
      assert MarkedBy(cfg, t, id, n);
    }
    if Marked(cfg, t, n) {
      var id: string :| MarkedBy(cfg, t, id, n);
      assert MarkedBy(cfg, s, id, n);
    }
  }

  // ---- cmd_prune ---------------------------------------------------------------------------

  // One snapshot by id, or all but the latest `keep`.
  datatype Choice = ById(id: string) | KeepLast(keep: nat)

  ghost predicate Chosen(c: Choice, s: Store, targets: seq<string>) {
    match c
    case ById(id) => targets == [id]
    case KeepLast(n) => exists listed: seq<string> ::
      && Distinct(listed) && (forall id :: id in listed <==> |id| == 16 && ManifestKey(id) in s)
      && targets == ToDelete(listed, n)
  }

  method ChooseTargets(be: Backend, c: Choice) returns (targets: seq<string>, status: Option<Error>)
    modifies be`clock
    ensures status.None? ==> Chosen(c, be.store, targets)
    ensures status.Some? ==> !Reliable(be)
  {
    match c {
      case ById(id) => return [id], None;
      case KeepLast(n) =>
        var ids, error := ListSnapshots(be);
        return ToDelete(ids, n), error;
    }
  }

  // The whole command: safe at every point, and on success exactly the pruned store, but
  // for the lock.
  method RunPrune(be: Backend, cfg: Config, who: seq<byte>, c: Choice, ghost u: Contents)
    returns (result: Counts, status: Option<Error>, ghost targets: seq<string>)
    requires GoodConfig(cfg) && Safe(cfg, be.store, u)
    modifies be
    ensures Lock in old(be.store) ==> status.Some? && be.store == old(be.store)
    ensures old(be.past) <= be.past && Safe(cfg, be.store, u) && AllSafe(cfg, u, be.past, |old(be.past)|)
    ensures status.None? ==> PrunedAs(cfg, c, old(be.store), targets, be.store)
    ensures PruneRan(cfg, who, old(be.store), old(be.past), targets, be.store, be.past)
    ensures Reliable(be) ==> (Lock in be.store <==> Lock in old(be.store))
    ensures Reliable(be) && Lock !in old(be.store) ==>
              Chosen(c, old(be.store), targets) && (status.None? <==> CanPrune(cfg, old(be.store), targets))
  {
    ghost var s0, p0 := be.store, be.past;
    targets, result := [], Counts(0, 0, 0);
    status := AcquireLock(be, who);
    LockKeepsSafe(cfg, u, s0, be.store);
    if status.Some? {
      return;
    }
    ghost var s1 := be.store;
    result, status, targets := PruneLocked(be, cfg, c, u, p0);
    LockIsNoSnapshot(cfg, c, s0, s1, targets);
    ghost var s2, p2 := be.store, be.past;
    var released := ReleaseLock(be);
    LockKeepsSafe(cfg, u, s2, be.store);
    OneMoreSafe(cfg, u, p2, be.store, |p0|);
    PruneReleased(cfg, who, s0, p0, targets, s2, p2, be.store);
    if status.None? {
      WasPruned(cfg, c, s0, s1, targets, be.store);
    }
  }

  // How the stores follow one another: an attempt at the lock and no more; or the lock was
  // taken, the prune's own steps, and the lock was given back or left.
  ghost predicate PruneRan(cfg: Config, who: seq<byte>, s0: Store, p0: seq<Store>, targets: seq<string>, s3: Store,
                           p3: seq<Store>)
    requires GoodConfig(cfg)
  {
    || LockTried(who, s0, p0, s3, p3)
    || (exists s2, p2 :: PruneHeld(cfg, who, s0, p0, targets, s2, p2) && p3 == p2 + [s3] && (s3 == s2 || s3 == s2 - {Lock}))
  }

  ghost predicate PruneHeld(cfg: Config, who: seq<byte>, s0: Store, p0: seq<Store>, targets: seq<string>, s2: Store,
                            p2: seq<Store>)
    requires GoodConfig(cfg)
  {
    var s1 := s0[Lock := who];
    var p1 := p0 + [s1];
    Lock !in s0 && p1 <= p2 && PruneSteps(cfg, s1, targets, p2[|p1|..], s2)
  }

  lemma PruneReleased(cfg: Config, who: seq<byte>, s0: Store, p0: seq<Store>, targets: seq<string>, s2: Store,
                      p2: seq<Store>, s3: Store)
    requires GoodConfig(cfg) && PruneHeld(cfg, who, s0, p0, targets, s2, p2) && (s3 == s2 || s3 == s2 - {Lock})
    ensures PruneRan(cfg, who, s0, p0, targets, s3, p2 + [s3])
  {
  }

  lemma OneMoreSafe(cfg: Config, u: Contents, past: seq<Store>, s: Store, from: nat)
    requires GoodConfig(cfg) && AllSafe(cfg, u, past, from) && Safe(cfg, s, u)
    ensures AllSafe(cfg, u, past + [s], from)
  {
  }

  lemma WasPruned(cfg: Config, c: Choice, s: Store, s1: Store, targets: seq<string>, t: Store)
    requires GoodConfig(cfg) && SameButLock(s, s1) && Chosen(c, s1, targets) && SameButLock(Pruned(cfg, s1, targets), t)
    ensures PrunedAs(cfg, c, s, targets, t)
  {
  }

  lemma LockStays(cfg: Config, s: Store, targets: seq<string>, t: Store)
    requires GoodConfig(cfg) && PrunePoint(cfg, s, targets, t)
    ensures t.Keys <= s.Keys && (Lock in s ==> Lock in t)
  {
    assert Stays(cfg, s - TargetKeys(targets), Lock);
  }

  lemma LockIsNoSnapshot(cfg: Config, c: Choice, s: Store, t: Store, targets: seq<string>)
    requires GoodConfig(cfg) && SameButLock(s, t)
    ensures Chosen(c, s, targets) <==> Chosen(c, t, targets)
    ensures CanPrune(cfg, s, targets) <==> CanPrune(cfg, t, targets)
  {
    SnapshotKept(cfg, s - TargetKeys(targets), t - TargetKeys(targets));
  }

  // Up to the lock: targets chosen in, and pruned from, the store as it was.
  ghost predicate PrunedAs(cfg: Config, c: Choice, s: Store, targets: seq<string>, t: Store)
    requires GoodConfig(cfg)
  {
    exists s1 :: SameButLock(s, s1) && Chosen(c, s1, targets) && SameButLock(Pruned(cfg, s1, targets), t)
  }

  method PruneLocked(be: Backend, cfg: Config, c: Choice, ghost u: Contents, ghost p0: seq<Store>)
    returns (result: Counts, status: Option<Error>, ghost targets: seq<string>)
    requires GoodConfig(cfg) && Safe(cfg, be.store, u) && (be.past == p0 || be.past == p0 + [be.store])
    modifies be
    ensures p0 <= be.past && Safe(cfg, be.store, u) && AllSafe(cfg, u, be.past, |p0|)
    ensures status.None? ==> Chosen(c, old(be.store), targets) && be.store == Pruned(cfg, old(be.store), targets)
    ensures be.store.Keys <= old(be.store.Keys) && (Lock in old(be.store) ==> Lock in be.store)
    ensures old(be.past) <= be.past && PruneSteps(cfg, old(be.store), targets, be.past[|old(be.past)|..], be.store)
    ensures Reliable(be) ==> Chosen(c, old(be.store), targets) && (status.None? <==> CanPrune(cfg, old(be.store), targets))
  {
    ghost var s1, p1 := be.store, be.past;
    result, targets := Counts(0, 0, 0), [];
    var chosen;
    chosen, status := ChooseTargets(be, c);
    if status.Some? {
      NoPruneSteps(cfg, s1);
      return;
    }
    targets := chosen;
    result, status := PruneExecute(be, cfg, chosen);
    PruneWasSafe(cfg, u, s1, p0, p1, targets, be.store, be.past);
    LockStays(cfg, s1, targets, be.store);
  }

  lemma NoPruneSteps(cfg: Config, s: Store)
    requires GoodConfig(cfg)
    ensures PruneSteps(cfg, s, [], [], s)
  {
    var none: seq<Store> := [];
    assert none == none + none && Removals(s.Keys - TargetKeys([]), s, none, s) && Swept(cfg, s, [], s, none, s);
  }

  lemma PruneWasSafe(cfg: Config, u: Contents, s1: Store, p0: seq<Store>, p1: seq<Store>, targets: seq<string>,
                     s2: Store, p2: seq<Store>)
    requires GoodConfig(cfg) && Safe(cfg, s1, u) && (p1 == p0 || p1 == p0 + [s1]) && p1 <= p2
    requires PrunePoint(cfg, s1, targets, s2) && PrunePoints(cfg, s1, targets, p2, |p1|)
    ensures p0 <= p2 && Safe(cfg, s2, u) && AllSafe(cfg, u, p2, |p0|)
  {
    PrunePointIsSafe(cfg, u, s1, targets, s2);
    forall i | |p0| <= i < |p2|
      ensures Safe(cfg, p2[i], u)
    {
      if i < |p1| {
        assert p2[i] == p1[i] == s1;
      } else {
        PrunePointIsSafe(cfg, u, s1, targets, p2[i]);
      }
    }
  }
}
