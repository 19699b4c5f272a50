// Pruning: delete the chosen manifests, mark what the others refer to, sweep the rest.

module Prune {
  import opened BackendStore
  import opened Bytes
  import opened HexNames
  import opened Manifest
  import opened Meta
  import opened Repo
  import opened Safety
  import opened SnapIds
  import opened SnapshotRun

  // ---- The mark set ------------------------------------------------------------------------

  function NamesOf(rs: seq<Ref>): seq<string> {
    seq(|rs|, i requires 0 <= i < |rs| => HexOf(rs[i].hash))
  }

  // Object names in hex; sorted once complete, then searched.
  class HashSet {
    var names: seq<string>

    constructor ()
      ensures names == []
    {
      names := [];
    }

    method Add(hash: seq<byte>)
      modifies this
      ensures names == old(names) + [HexOf(hash)]
    {
      names := names + [HexOf(hash)];
    }

    method AddAll(rs: seq<Ref>)
      modifies this
      ensures names == old(names) + NamesOf(rs)
    {
      for i := 0 to |rs|
        invariant names == old(names) + NamesOf(rs[..i])
      {
        assert NamesOf(rs[..i + 1]) == NamesOf(rs[..i]) + [HexOf(rs[i].hash)];
        Add(rs[i].hash);
      }
      assert rs[..|rs|] == rs;
    }

    // qsort
    method Sort()
      modifies this
      ensures Sorted(names) && forall n :: n in names <==> n in old(names)
    {
      ghost var before := names;
      names := SortNames(names);
      SortIsSorted(before);
      forall n
        ensures n in names <==> n in before
      {
        assert n in names <==> n in multiset(names);
        assert n in before <==> n in multiset(before);
      }
    }

    // bsearch
    method Contains(n: string) returns (r: bool)
      requires Sorted(names)
      ensures r <==> n in names
    {
      var lo, hi := 0, |names|;
      while lo < hi
        invariant 0 <= lo <= hi <= |names|
        invariant n !in names[..lo] && n !in names[hi..]
      {
        var mid := lo + (hi - lo) / 2;
        if names[mid] == n {
          return true;
        }
        StrLessTotal(names[mid], n);
        if StrLess(names[mid], n) {
          NotBelow(names, mid, n);
          lo := mid + 1;
        } else {
          NotAbove(names, mid, n);
          hi := mid;
        }
      }
      assert names == names[..lo] + names[hi..];
      return false;
    }
  }

  lemma NotBelow(names: seq<string>, mid: nat, n: string)
    requires Sorted(names) && mid < |names| && StrLess(names[mid], n)
    ensures n !in names[..mid + 1]
  {
    forall i | 0 <= i <= mid
      ensures names[i] != n
    {
      if i < mid {
        assert !StrLess(names[mid], names[i]);
      }
      StrLessTotal(n, n);
    }
  }

  lemma NotAbove(names: seq<string>, mid: nat, n: string)
    requires Sorted(names) && mid < |names| && StrLess(n, names[mid])
    ensures n !in names[mid..]
  {
    forall i | mid <= i < |names|
      ensures names[i] != n
    {
      if i > mid {
        assert !StrLess(names[i], names[mid]);
      }
      StrLessTotal(n, n);
    }
  }

  // ---- What stays ------------------------------------------------------------------------------

  // The name of an object that some readable snapshot of the store refers to.
  ghost predicate MarkedBy(cfg: Config, s: Store, id: string, n: string)
    requires GoodConfig(cfg)
  {
    |id| == 16 && SnapshotEvents(cfg, s, id).Some? && n in NamesOf(Refs(SnapshotEvents(cfg, s, id).value))
  }

  ghost predicate Marked(cfg: Config, s: Store, n: string)
    requires GoodConfig(cfg)
  {
    exists id: string :: MarkedBy(cfg, s, id, n)
  }

  ghost predicate Stays(cfg: Config, s: Store, k: Key)
    requires GoodConfig(cfg)
  {
    match k
    case Object(b, n) => |b| != 2 || Marked(cfg, s, n)
    case Tmp(_) => false
    case _ => true
  }

  function TargetKeys(targets: seq<string>): set<Key> {
    set id | id in targets :: ManifestKey(id)
  }

  // The store a successful prune leaves: the targets' manifests gone, then unmarked objects
  // in two-character buckets and everything under tmp/.
  ghost function Pruned(cfg: Config, s: Store, targets: seq<string>): Store
    requires GoodConfig(cfg)
  {
    var s1 := s - TargetKeys(targets);
    map k | k in s1 && Stays(cfg, s1, k) :: s1[k]
  }

  // Only removals from s0 to t, and nothing of `keep`.
  ghost predicate Between(keep: set<Key>, s0: Store, t: Store) {
    keep <= t.Keys && t.Keys <= s0.Keys && forall k :: k in t ==> t[k] == s0[k]
  }

  // One operation that changes nothing, or removes one key that need not stay.
  ghost predicate OneRemoval(keep: set<Key>, s: Store, t: Store) {
    t == s || exists k :: k !in keep && k in s && t == s - {k}
  }

  // From s to t by such operations, each of which left the next of these stores behind.
  ghost predicate Removals(keep: set<Key>, s: Store, stores: seq<Store>, t: Store)
    decreases |stores|
  {
    if stores == [] then t == s
    else
      var init := stores[..|stores| - 1];
      t == stores[|stores| - 1] && exists m :: Removals(keep, s, init, m) && OneRemoval(keep, m, t)
  }

  lemma {:induction false} RemovalsInTwo(keep: set<Key>, s: Store, a: seq<Store>, m: Store, b: seq<Store>, t: Store)
    requires Removals(keep, s, a, m) && Removals(keep, m, b, t)
    ensures Removals(keep, s, a + b, t)
    decreases |b|
  {
    if b == [] {
      assert a + b == a;
    } else {
      var init := b[..|b| - 1];
      var m' :| Removals(keep, m, init, m') && OneRemoval(keep, m', t);
      RemovalsInTwo(keep, s, a, m, init, m');
      assert (a + b)[..|a + b| - 1] == a + init;
    }
  }

  lemma {:induction false} RemovalsShrink(keep: set<Key>, s: Store, stores: seq<Store>, t: Store)
    requires Removals(keep, s, stores, t)
    ensures t.Keys <= s.Keys && forall k :: k in t ==> t[k] == s[k]
    decreases |stores|
  {
    if stores != [] {
      var init := stores[..|stores| - 1];
      var m :| Removals(keep, s, init, m) && OneRemoval(keep, m, t);
      RemovalsShrink(keep, s, init, m);
    }
  }

  ghost predicate Trimmed(keep: set<Key>, s0: Store, p0: seq<Store>, s1: Store, p1: seq<Store>) {
    && p0 <= p1 && Between(keep, s0, s1) && Removals(keep, s0, p1[|p0|..], s1)
    && forall i :: |p0| <= i < |p1| ==> Between(keep, s0, p1[i])
  }

  lemma TrimmedIsTransitive(keep: set<Key>, s0: Store, p0: seq<Store>, s1: Store, p1: seq<Store>,
                            s2: Store, p2: seq<Store>)
    requires Trimmed(keep, s0, p0, s1, p1) && Trimmed(keep, s1, p1, s2, p2)
    ensures Trimmed(keep, s0, p0, s2, p2)
  {
    RemovalsInTwo(keep, s0, p1[|p0|..], s1, p2[|p1|..], s2);
    TailInTwo(p0, p1, p2);
    AllBetween(keep, s0, p0, s1, p1, p2);
  }

  lemma AllBetween(keep: set<Key>, s0: Store, p0: seq<Store>, s1: Store, p1: seq<Store>, p2: seq<Store>)
    requires p0 <= p1 <= p2 && Between(keep, s0, s1)
    requires forall i :: |p0| <= i < |p1| ==> Between(keep, s0, p1[i])
    requires forall i :: |p1| <= i < |p2| ==> Between(keep, s1, p2[i])
    ensures forall i :: |p0| <= i < |p2| ==> Between(keep, s0, p2[i])
  {
    forall i | |p0| <= i < |p2|
      ensures Between(keep, s0, p2[i])
    {
      if i < |p1| {
        assert p2[i] == p1[i];
      }
    }
  }

  // ---- Removing ----------------------------------------------------------------------------------

  // One removal; an object that is gone already is no error.
  method RemoveOne(be: Backend, k: Key, ghost keep: set<Key>) returns (gone: bool, status: Option<Error>)
    requires keep <= be.store.Keys && k !in keep
    modifies be
    ensures Trimmed(keep, old(be.store), old(be.past), be.store, be.past)
    ensures status.None? ==> be.store == old(be.store) - {k} && (gone <==> k in old(be.store))
    ensures gone ==> status.None?
    ensures status.None? ==> |old(be.store)| == |be.store| + if gone then 1 else 0
    ensures status.Some? ==> !Reliable(be)
  {
    ghost var before, past := be.store, be.past;
    OneLess(before, k);
    status := be.Remove(k);
    OneRemoved(keep, k, before, past, be.store);
    gone := status.None?;
    if status == Some(NotFound) {
      assert before - {k} == before;
      status := None;
    }
  }

  lemma OneRemoved(keep: set<Key>, k: Key, s: Store, p: seq<Store>, t: Store)
    requires keep <= s.Keys && k !in keep && (t == s || (k in s && t == s - {k}))
    ensures Trimmed(keep, s, p, t, p + [t])
  {
    assert Removals(keep, s, [], s) && OneRemoval(keep, s, t);
    assert (p + [t])[|p|..] == [t] && [t][..0] == [];
  }

  lemma OneLess(s: Store, k: Key)
    ensures |s| == |s - {k}| + if k in s then 1 else 0
  {
    assert (s - {k}).Keys == s.Keys - {k};
    assert |s - {k}| == |s.Keys - {k}| && |s| == |s.Keys|;
  }

  ghost predicate NoneThere(s: Store, targets: seq<string>) {
    forall id :: id in targets ==> ManifestKey(id) !in s
  }

  // Step 1: the targets' manifests, before any object is looked at.
  method DeleteTargets(be: Backend, targets: seq<string>) returns (deleted: nat, status: Option<Error>)
    modifies be
    ensures Trimmed(old(be.store).Keys - TargetKeys(targets), old(be.store), old(be.past), be.store, be.past)
    ensures status.None? ==> be.store == old(be.store) - TargetKeys(targets)
    ensures status.None? ==> (deleted == 0 <==> NoneThere(old(be.store), targets))
    ensures status.None? ==> |old(be.store)| == |be.store| + deleted
    ensures status.Some? ==> !Reliable(be)
  {
    ghost var s, p, keep := be.store, be.past, be.store.Keys - TargetKeys(targets);
    deleted := 0;
    NothingTrimmed(s, p, targets);
    for i := 0 to |targets|
      invariant Trimmed(keep, s, p, be.store, be.past)
      invariant be.store == s - TargetKeys(targets[..i]) && |s| == |be.store| + deleted
    {
      ghost var s1, p1 := be.store, be.past;
      var gone;
      gone, status := RemoveOne(be, ManifestKey(targets[i]), keep);
      TrimmedIsTransitive(keep, s, p, s1, p1, be.store, be.past);
      if status.Some? {
        return;
      }
      OneTargetLess(s, targets, i);
      if gone {
        deleted := deleted + 1;
      }
    }
    assert targets[..|targets|] == targets;
    SomeTargetWasThere(s, targets);
    return deleted, None;
  }

  lemma NothingTrimmed(s: Store, p: seq<Store>, targets: seq<string>)
    ensures Trimmed(s.Keys - TargetKeys(targets), s, p, s, p) && s - TargetKeys(targets[..0]) == s
  {
    assert Removals(s.Keys - TargetKeys(targets), s, p[|p|..], s);
  }

  lemma OneTargetLess(s: Store, targets: seq<string>, i: nat)
    requires i < |targets|
    ensures s - TargetKeys(targets[..i]) - {ManifestKey(targets[i])} == s - TargetKeys(targets[..i + 1])
  {
    assert TargetKeys(targets[..i + 1]) == TargetKeys(targets[..i]) + {ManifestKey(targets[i])};
  }

  lemma SomeTargetWasThere(s: Store, targets: seq<string>)
    ensures |s - TargetKeys(targets)| == |s| <==> NoneThere(s, targets)
    ensures NoneThere(s, targets) ==> s - TargetKeys(targets) == s
  {
    var t, gone := s - TargetKeys(targets), s.Keys * TargetKeys(targets);
    assert s.Keys == t.Keys + gone && t.Keys !! gone;
    assert |t| == |t.Keys| && |s| == |s.Keys|;
    NoneGone(s, targets);
    if gone == {} {
      assert t == s;
    }
  }

  lemma NoneGone(s: Store, targets: seq<string>)
    ensures s.Keys * TargetKeys(targets) == {} <==> NoneThere(s, targets)
  {
    if s.Keys * TargetKeys(targets) != {} {
      var k :| k in s.Keys * TargetKeys(targets);
      assert k in TargetKeys(targets);
    }
    forall id | id in targets && ManifestKey(id) in s
      ensures ManifestKey(id) in s.Keys * TargetKeys(targets)
    {
      assert ManifestKey(id) in TargetKeys(targets);
    }
  }

  // ---- Marking ------------------------------------------------------------------------------------

  // One snapshot's references; a manifest that cannot be read ends the run.
  method MarkSnapshot(be: Backend, cfg: Config, hs: HashSet, id: string) returns (status: Option<Error>)
    requires GoodConfig(cfg)
    modifies be`clock, hs
    ensures status.None? ==> SnapshotEvents(cfg, be.store, id).Some?
    ensures status.None? ==> hs.names == old(hs.names) + NamesOf(Refs(SnapshotEvents(cfg, be.store, id).value))
    ensures Reliable(be) && SnapshotEvents(cfg, be.store, id).Some? ==> status.None?
  {
    var raw := be.Get(ManifestKey(id));
    if raw.Err? {
      return Some(raw.error);
    }
    var plain := OpenManifestFile(cfg, id, raw.value);
    if plain.Err? {
      return Some(plain.error);
    }
    var d := DecodeManifestLoop(plain.value, cfg.hash);
    hs.AddAll(Refs(d.events));
    return d.error;
  }

  // Names collected from the first snapshots of a listing.
  ghost predicate MarksOf(cfg: Config, s: Store, ids: seq<string>, names: seq<string>)
    requires GoodConfig(cfg)
  {
    && (forall id :: id in ids ==> SnapshotEvents(cfg, s, id).Some?)
    && (forall n :: n in names <==> exists id :: id in ids && MarkedBy(cfg, s, id, n))
  }

  // Step 2: every snapshot that is left.
  method Mark(be: Backend, cfg: Config, hs: HashSet) returns (seen: nat, status: Option<Error>)
    requires GoodConfig(cfg) && hs.names == []
    modifies be`clock, hs
    ensures status.None? ==> forall n :: n in hs.names <==> Marked(cfg, be.store, n)
    ensures status.None? && seen == 0 ==> forall id: string :: |id| == 16 ==> ManifestKey(id) !in be.store
    ensures seen > 0 ==> exists id: string :: |id| == 16 && ManifestKey(id) in be.store
    ensures status.None? ==> AllReadable(cfg, be.store)
    ensures Reliable(be) && AllReadable(cfg, be.store) ==> status.None?
  {
    var ids, error := ListSnapshots(be);
    seen := 0;
    for i := 0 to |ids|
      invariant seen > 0 ==> exists id: string :: |id| == 16 && ManifestKey(id) in be.store
      invariant seen == i && MarksOf(cfg, be.store, ids[..i], hs.names)
    {
      seen := seen + 1;
      assert |ids[i]| == 16 && ManifestKey(ids[i]) in be.store;
      ghost var names := hs.names;
      status := MarkSnapshot(be, cfg, hs, ids[i]);
      if status.Some? {
        return;
      }
      OneMoreMarked(cfg, be.store, ids, i, names, hs.names);
    }
    assert ids[..|ids|] == ids;
    if error.None? {
      AllMarked(cfg, be.store, ids, hs.names);
    }
    return seen, error;
  }

  lemma OneMoreMarked(cfg: Config, s: Store, ids: seq<string>, i: nat, names: seq<string>, names': seq<string>)
    requires GoodConfig(cfg) && i < |ids| && |ids[i]| == 16 && MarksOf(cfg, s, ids[..i], names)
    requires SnapshotEvents(cfg, s, ids[i]).Some?
    requires names' == names + NamesOf(Refs(SnapshotEvents(cfg, s, ids[i]).value))
    ensures MarksOf(cfg, s, ids[..i + 1], names')
  {
    assert ids[..i + 1] == ids[..i] + [ids[i]];
    forall n
      ensures n in names' <==> exists id :: id in ids[..i + 1] && MarkedBy(cfg, s, id, n)
    {
      assert n in names' <==> n in names || MarkedBy(cfg, s, ids[i], n);
    }
  }

  lemma AllMarked(cfg: Config, s: Store, ids: seq<string>, names: seq<string>)
    requires GoodConfig(cfg) && MarksOf(cfg, s, ids, names)
    requires forall id: string :: |id| == 16 && ManifestKey(id) in s ==> id in ids
    ensures forall n :: n in names <==> Marked(cfg, s, n)
  {
    forall n
      ensures n in names <==> Marked(cfg, s, n)
    {
      if Marked(cfg, s, n) {
        var id: string :| MarkedBy(cfg, s, id, n);
        assert id in ids;
      }
    }
  }

  // ---- Sweeping --------------------------------------------------------------------------------

  // sweep_obj_cb over one bucket.
  method SweepBucket(be: Backend, b: string, hs: HashSet, ghost keep: set<Key>) returns (deleted: nat,
                     status: Option<Error>)
    requires Sorted(hs.names) && keep <= be.store.Keys && forall n :: n !in hs.names ==> Object(b, n) !in keep
    modifies be
    ensures Trimmed(keep, old(be.store), old(be.past), be.store, be.past)
    ensures status.None? ==> forall n :: Object(b, n) in be.store ==> n in hs.names
    ensures status.None? ==> |old(be.store)| == |be.store| + deleted
    ensures status.Some? ==> !Reliable(be)
  {
    ghost var s, p := be.store, be.past;
    deleted := 0;
    var names, error := be.List(Bucket(b));
    for i := 0 to |names|
      invariant Trimmed(keep, s, p, be.store, be.past)
      invariant forall n :: n in names[..i] && n !in hs.names ==> Object(b, n) !in be.store
      invariant |s| == |be.store| + deleted
    {
      assert names[..i + 1] == names[..i] + [names[i]];
      var marked := hs.Contains(names[i]);
      if !marked {
        ghost var s1, p1 := be.store, be.past;
        var gone;
        gone, status := RemoveOne(be, Object(b, names[i]), keep);
        TrimmedIsTransitive(keep, s, p, s1, p1, be.store, be.past);
        if status.Some? {
          return;
        }
        if gone {
          deleted := deleted + 1;
        }
      }
    }
    assert names[..|names|] == names;
    if error.None? {
      BucketIsListed(s, b, names);
    }
    return deleted, error;
  }

  lemma BucketIsListed(s: Store, b: string, names: seq<string>)
    requires forall n :: Listed(Bucket(b), s, n) ==> n in names
    ensures forall n :: Object(b, n) in s ==> n in names
  {
    forall n | Object(b, n) in s
      ensures n in names
    {
      assert Child(Bucket(b), Object(b, n)) == Some(n);
      assert Listed(Bucket(b), s, n);
    }
  }

  // No unmarked object is left in this bucket.
  ghost predicate Clean(s: Store, b: string, names: seq<string>) {
    forall n :: Object(b, n) in s ==> n in names
  }

  lemma StaysClean(s: Store, t: Store, b: string, names: seq<string>)
    requires Clean(s, b, names) && t.Keys <= s.Keys
    ensures Clean(t, b, names)
  {
  }

  // sweep_bucket_cb: anything whose name is not two characters is left alone.
  method SweepBuckets(be: Backend, hs: HashSet, ghost keep: set<Key>) returns (deleted: nat, status: Option<Error>)
    requires Sorted(hs.names) && keep <= be.store.Keys
    requires forall b: string, n :: |b| == 2 && n !in hs.names ==> Object(b, n) !in keep
    modifies be
    ensures Trimmed(keep, old(be.store), old(be.past), be.store, be.past)
    ensures status.None? ==> forall b: string :: |b| == 2 ==> Clean(be.store, b, hs.names)
    ensures status.None? ==> |old(be.store)| == |be.store| + deleted
    ensures status.Some? ==> !Reliable(be)
  {
    ghost var s, p := be.store, be.past;
    deleted := 0;
    var buckets, error := be.List(Buckets);
    for i := 0 to |buckets|
      invariant Trimmed(keep, s, p, be.store, be.past)
      invariant forall b :: b in buckets[..i] && |b| == 2 ==> Clean(be.store, b, hs.names)
      invariant |s| == |be.store| + deleted
    {
      assert buckets[..i + 1] == buckets[..i] + [buckets[i]];
      if |buckets[i]| == 2 {
        ghost var s1, p1 := be.store, be.past;
        var more;
        more, status := SweepBucket(be, buckets[i], hs, keep);
        TrimmedIsTransitive(keep, s, p, s1, p1, be.store, be.past);
        deleted := deleted + more;
        if status.Some? {
          return;
        }
        forall b | b in buckets[..i] && |b| == 2
          ensures Clean(be.store, b, hs.names)
        {
          StaysClean(s1, be.store, b, hs.names);
        }
      }
    }
    assert buckets[..|buckets|] == buckets;
    if error.None? {
      AllBucketsClean(s, be.store, buckets, hs.names);
    }
    return deleted, error;
  }

  lemma AllBucketsClean(s: Store, t: Store, buckets: seq<string>, names: seq<string>)
    requires forall b :: Listed(Buckets, s, b) ==> b in buckets
    requires t.Keys <= s.Keys && forall b :: b in buckets && |b| == 2 ==> Clean(t, b, names)
    ensures forall b: string :: |b| == 2 ==> Clean(t, b, names)
  {
    forall b: string | |b| == 2
      ensures Clean(t, b, names)
    {
      forall n | Object(b, n) in t
        ensures n in names
      {
        assert Child(Buckets, Object(b, n)) == Some(b);
        assert Listed(Buckets, s, b);
        assert Clean(t, b, names);
      }
    }
  }

  // sweep_tmp_cb: everything under tmp/ goes.
  method SweepTmp(be: Backend, ghost keep: set<Key>) returns (deleted: nat, status: Option<Error>)
    requires keep <= be.store.Keys && forall n :: Tmp(n) !in keep
    modifies be
    ensures Trimmed(keep, old(be.store), old(be.past), be.store, be.past)
    ensures status.None? ==> forall n :: Tmp(n) !in be.store
    ensures status.None? ==> |old(be.store)| == |be.store| + deleted
    ensures status.Some? ==> !Reliable(be)
  {
    ghost var s, p := be.store, be.past;
    deleted := 0;
    var names, error := be.List(Tmps);
    for i := 0 to |names|
      invariant Trimmed(keep, s, p, be.store, be.past)
      invariant forall n :: n in names[..i] ==> Tmp(n) !in be.store
      invariant |s| == |be.store| + deleted
    {
      assert names[..i + 1] == names[..i] + [names[i]];
      ghost var s1, p1 := be.store, be.past;
      var gone;
      gone, status := RemoveOne(be, Tmp(names[i]), keep);
      TrimmedIsTransitive(keep, s, p, s1, p1, be.store, be.past);
      if status.Some? {
        return;
      }
      if gone {
        deleted := deleted + 1;
      }
    }
    assert names[..|names|] == names;
    if error.None? {
      TmpIsListed(s, names);
    }
    return deleted, error;
  }

  lemma TmpIsListed(s: Store, names: seq<string>)
    requires forall n :: Listed(Tmps, s, n) ==> n in names
    ensures forall n :: Tmp(n) in s ==> n in names
  {
    forall n | Tmp(n) in s
      ensures n in names
    {
      assert Child(Tmps, Tmp(n)) == Some(n);
      assert Listed(Tmps, s, n);
    }
  }

  // ---- The whole prune --------------------------------------------------------------------------

  datatype Counts = Counts(snapshots: nat, objects: nat, tmp: nat)

  // Where a prune may be when it stops: still deleting targets, or past that and sweeping.
  ghost predicate PrunePoint(cfg: Config, s: Store, targets: seq<string>, t: Store)
    requires GoodConfig(cfg)
  {
    || Between(s.Keys - TargetKeys(targets), s, t)
    || Between(Pruned(cfg, s, targets).Keys, s - TargetKeys(targets), t)
  }

  ghost predicate PrunePoints(cfg: Config, s: Store, targets: seq<string>, past: seq<Store>, from: nat)
    requires GoodConfig(cfg)
  {
    forall i :: from <= i < |past| ==> PrunePoint(cfg, s, targets, past[i])
  }

  lemma DeletingIsPruning(cfg: Config, s: Store, targets: seq<string>, p: seq<Store>, s1: Store, p1: seq<Store>)
    requires GoodConfig(cfg) && Trimmed(s.Keys - TargetKeys(targets), s, p, s1, p1)
    ensures p <= p1 && PrunePoint(cfg, s, targets, s1) && PrunePoints(cfg, s, targets, p1, |p|)
  {
  }

  lemma SweepingIsPruning(cfg: Config, s: Store, targets: seq<string>, p: seq<Store>, p1: seq<Store>,
                          s2: Store, p2: seq<Store>)
    requires GoodConfig(cfg) && p <= p1 && PrunePoints(cfg, s, targets, p1, |p|)
    requires Trimmed(Pruned(cfg, s, targets).Keys, s - TargetKeys(targets), p1, s2, p2)
    ensures p <= p2 && PrunePoint(cfg, s, targets, s2) && PrunePoints(cfg, s, targets, p2, |p|)
  {
    forall i | |p| <= i < |p2|
      ensures PrunePoint(cfg, s, targets, p2[i])
    {
      if i < |p1| {
        assert p2[i] == p1[i];
      }
    }
  }

  // Step 3, from the store the marks were taken in.
  method Sweep(be: Backend, hs: HashSet, ghost keep: set<Key>) returns (objects: nat, tmp: nat, status: Option<Error>)
    requires Sorted(hs.names) && keep <= be.store.Keys
    requires forall b: string, n :: |b| == 2 && n !in hs.names ==> Object(b, n) !in keep
    requires forall n :: Tmp(n) !in keep
    modifies be
    ensures Trimmed(keep, old(be.store), old(be.past), be.store, be.past)
    ensures status.None? ==> forall b: string :: |b| == 2 ==> Clean(be.store, b, hs.names)
    ensures status.None? ==> forall n :: Tmp(n) !in be.store
    ensures status.None? ==> |old(be.store)| == |be.store| + objects + tmp
    ensures status.Some? ==> !Reliable(be)
  {
    ghost var s, p := be.store, be.past;
    tmp := 0;
    objects, status := SweepBuckets(be, hs, keep);
    if status.Some? {
      return;
    }
    ghost var s1, p1 := be.store, be.past;
    tmp, status := SweepTmp(be, keep);
    TrimmedIsTransitive(keep, s, p, s1, p1, be.store, be.past);
    forall b: string | |b| == 2 && status.None?
      ensures Clean(be.store, b, hs.names)
    {
      StaysClean(s1, be.store, b, hs.names);
    }
  }

  lemma SweptExactly(cfg: Config, s: Store, targets: seq<string>, names: seq<string>, t: Store)
    requires GoodConfig(cfg)
    requires var s1 := s - TargetKeys(targets);
      && (forall n :: n in names <==> Marked(cfg, s1, n))
      && Between(Pruned(cfg, s, targets).Keys, s1, t)
    requires forall b: string :: |b| == 2 ==> Clean(t, b, names)
    requires forall n :: Tmp(n) !in t
    ensures t == Pruned(cfg, s, targets)
  {
    var s1 := s - TargetKeys(targets);
    forall k | k in t
      ensures Stays(cfg, s1, k)
    {
      if k.Object? && |k.bucket| == 2 {
        assert Clean(t, k.bucket, names);
      }
    }
    assert t.Keys == Pruned(cfg, s, targets).Keys;
  }

  // Every snapshot that is to stay can be read, and there is one or one was deleted.
  ghost predicate CanPrune(cfg: Config, s: Store, targets: seq<string>)
    requires GoodConfig(cfg)
  {
    AllReadable(cfg, s - TargetKeys(targets)) && !NothingToPrune(s, targets)
  }

  // How the stores of a prune follow one another: targets go one by one; then, only when all
  // of them are gone and every snapshot that is left can be read, what need not stay.
  ghost predicate PruneSteps(cfg: Config, s: Store, targets: seq<string>, stores: seq<Store>, t: Store)
    requires GoodConfig(cfg)
  {
    exists a, s1, b :: stores == a + b && Removals(s.Keys - TargetKeys(targets), s, a, s1) && Swept(cfg, s, targets, s1, b, t)
  }

  ghost predicate Swept(cfg: Config, s: Store, targets: seq<string>, s1: Store, stores: seq<Store>, t: Store)
    requires GoodConfig(cfg)
  {
    && Removals(Pruned(cfg, s, targets).Keys, s1, stores, t)
    && (stores == [] || (s1 == s - TargetKeys(targets) && AllReadable(cfg, s1)))
  }

  lemma BothPhases(cfg: Config, s: Store, targets: seq<string>, p: seq<Store>, s1: Store, p1: seq<Store>, t: Store,
                   p2: seq<Store>)
    requires GoodConfig(cfg) && p <= p1 <= p2 && Removals(s.Keys - TargetKeys(targets), s, p1[|p|..], s1)
    requires Swept(cfg, s, targets, s1, p2[|p1|..], t)
    ensures PruneSteps(cfg, s, targets, p2[|p|..], t)
  {
    TailInTwo(p, p1, p2);
  }

  // amisnap_prune_execute
  method PruneExecute(be: Backend, cfg: Config, targets: seq<string>) returns (result: Counts, status: Option<Error>)
    requires GoodConfig(cfg)
    modifies be
    ensures status.None? ==> be.store == Pruned(cfg, old(be.store), targets)
    ensures old(be.past) <= be.past && PrunePoint(cfg, old(be.store), targets, be.store)
    ensures PrunePoints(cfg, old(be.store), targets, be.past, |old(be.past)|)
    ensures PruneSteps(cfg, old(be.store), targets, be.past[|old(be.past)|..], be.store)
    ensures NothingToPrune(old(be.store), targets) ==> status.Some? && be.store == old(be.store)
    ensures status.None? ==> |old(be.store)| == |be.store| + result.snapshots + result.objects + result.tmp
    ensures status.None? ==> CanPrune(cfg, old(be.store), targets)
    ensures Reliable(be) && CanPrune(cfg, old(be.store), targets) ==> status.None?
  {
    ghost var s, p := be.store, be.past;
    var deleted;
    deleted, status := DeleteTargets(be, targets);
    result := Counts(deleted, 0, 0);
    DeletingIsPruning(cfg, s, targets, p, be.store, be.past);
    ghost var s1, p1 := be.store, be.past;
    if status.Some? {
      NoTargetGone(s, targets, be.store);
      BothPhases(cfg, s, targets, p, s1, p1, s1, p1);
      return;
    }
    var objects, tmp;
    objects, tmp, status := MarkAndSweep(be, cfg, targets, deleted, s, p);
    result := Counts(deleted, objects, tmp);
    BothPhases(cfg, s, targets, p, s1, p1, be.store, be.past);
  }

  // Steps 2 and 3; nothing is swept when no snapshot was seen and none deleted.
  method MarkAndSweep(be: Backend, cfg: Config, ghost targets: seq<string>, deleted: nat, ghost s: Store,
                      ghost p: seq<Store>)
    returns (objects: nat, tmp: nat, status: Option<Error>)
    requires GoodConfig(cfg) && be.store == s - TargetKeys(targets) && (deleted == 0 <==> NoneThere(s, targets))
    requires p <= be.past && PrunePoint(cfg, s, targets, be.store) && PrunePoints(cfg, s, targets, be.past, |p|)
    modifies be
    ensures status.None? ==> be.store == Pruned(cfg, s, targets)
    ensures p <= be.past && PrunePoint(cfg, s, targets, be.store) && PrunePoints(cfg, s, targets, be.past, |p|)
    ensures old(be.past) <= be.past && Swept(cfg, s, targets, old(be.store), be.past[|old(be.past)|..], be.store)
    ensures NothingToPrune(s, targets) ==> status.Some? && be.store == s
    ensures status.None? ==> |old(be.store)| == |be.store| + objects + tmp
    ensures status.None? ==> CanPrune(cfg, s, targets)
    ensures Reliable(be) && CanPrune(cfg, s, targets) ==> status.None?
  {
    objects, tmp := 0, 0;
    SomeTargetWasThere(s, targets);
    var hs := new HashSet();
    var seen;
    seen, status := Mark(be, cfg, hs);
    if status.Some? {
      return;
    }
    if seen == 0 && deleted == 0 {
      return objects, tmp, Some(MissingField);
    }
    hs.Sort();
    objects, tmp, status := SweepUnmarked(be, cfg, hs, targets, s, p);
  }

  lemma MarkedStay(cfg: Config, s: Store, targets: seq<string>, names: seq<string>)
    requires GoodConfig(cfg) && forall n :: n in names <==> Marked(cfg, s - TargetKeys(targets), n)
    ensures var keep := Pruned(cfg, s, targets).Keys;
      && keep <= (s - TargetKeys(targets)).Keys && (forall n :: Tmp(n) !in keep)
      && forall b: string, n :: |b| == 2 && n !in names ==> Object(b, n) !in keep
  {
  }

  // Step 3, once everything still referred to is marked.
  method SweepUnmarked(be: Backend, cfg: Config, hs: HashSet, ghost targets: seq<string>, ghost s: Store,
                       ghost p: seq<Store>)
    returns (objects: nat, tmp: nat, status: Option<Error>)
    requires GoodConfig(cfg) && be.store == s - TargetKeys(targets)
    requires Sorted(hs.names) && forall n :: n in hs.names <==> Marked(cfg, be.store, n)
    requires p <= be.past && PrunePoints(cfg, s, targets, be.past, |p|)
    modifies be
    ensures status.None? ==> be.store == Pruned(cfg, s, targets)
    ensures p <= be.past && PrunePoint(cfg, s, targets, be.store) && PrunePoints(cfg, s, targets, be.past, |p|)
    ensures status.None? ==> |old(be.store)| == |be.store| + objects + tmp
    ensures status.Some? ==> !Reliable(be)
    ensures old(be.past) <= be.past
            && Removals(Pruned(cfg, s, targets).Keys, old(be.store), be.past[|old(be.past)|..], be.store)
  {
    ghost var p1 := be.past;
    MarkedStay(cfg, s, targets, hs.names);
    objects, tmp, status := Sweep(be, hs, Pruned(cfg, s, targets).Keys);
    SweepingIsPruning(cfg, s, targets, p, p1, be.store, be.past);
    if status.None? {
      SweptExactly(cfg, s, targets, hs.names, be.store);
    }
  }

  // No snapshot at all, and none of the targets is there either.
  ghost predicate NothingToPrune(s: Store, targets: seq<string>) {
    (forall id: string :: |id| == 16 ==> ManifestKey(id) !in s) && NoneThere(s, targets)
  }

  lemma NoTargetGone(s: Store, targets: seq<string>, t: Store)
    requires Between(s.Keys - TargetKeys(targets), s, t)
    ensures NothingToPrune(s, targets) ==> t == s
  {
    if NothingToPrune(s, targets) {
      assert s.Keys - TargetKeys(targets) == s.Keys;
    }
  }
}
