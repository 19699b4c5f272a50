// A source that is written to and a repository it is backed up to, over any history: when
// do incremental snapshots say what full ones would have said?

module History {
  import opened BackendStore
  import opened Bytes
  import opened Frame
  import opened Incremental
  import opened Index
  import opened Manifest
  import opened Meta
  import opened Prune
  import opened PruneProofs
  import opened Records
  import opened Repo
  import opened RepoWriters
  import opened Safety
  import opened SnapIds
  import opened SnapshotMain
  import opened SnapshotRun
  import opened Tlv

  // A file as a directory scan shows it, and its bytes.
  datatype File = File(entry: Entry, data: seq<byte>)

  type Disk = map<seq<byte>, File>

  datatype World = World(disk: Disk, store: Store)

  // A call of RunSnapshot and what came of it.
  datatype Attempt = Attempt(c: Commit, noArchiveBit: bool, who: seq<byte>, p0: seq<Store>, p1: seq<Store>,
                             r: Result<string>, marked: seq<seq<byte>>)

  datatype Act =
    | Write(path: seq<byte>, file: File)               // new bytes, a datestamp, and the archive bit cleared
    | Delete(path: seq<byte>)
    | Alter(disk: Disk)                                // anything else that can be done to the source
    | BackUp(a: Attempt, bits: set<seq<byte>>)         // the archive bits that could be set
    | PruneRun(who: seq<byte>, targets: seq<string>, p0: seq<Store>, p1: seq<Store>)
    | Unlock

  // The files a scan shows are those on the disk.
  ghost predicate Scans(disk: Disk, files: seq<Source>) {
    forall f :: f in files && f.entry.etype != DIR ==> f.entry.path in disk && disk[f.entry.path] == File(f.entry, f.data)
  }

  // What RunSnapshot promises of one call.
  ghost predicate Attempted(t: Tools, u: Contents, s: Store, a: Attempt, s': Store)
    requires GoodTools(t)
  {
    && GoodSources(u, a.c.files) && ValidStamp(a.c.snap.created) && ValidVolume(a.c.vol)
    && RunResult(t.cfg, u, s, a.p0, a.c.run, s', a.p1, a.r)
    && Steps(t.cfg, u, a.who, s, a.p0, a.c.run, s', a.p1)
    && AllPicked(t, a.c.files, a.c.run.idx, a.c.run.picks, a.c.paranoid)
    && a.marked == MarkedPaths(t, a.c.run.picks, a.c.paranoid, a.noArchiveBit)
    && (LeavesSnapshot(t.cfg, s, a, s') ==> Completed(t, a.c.run, a.c.snap, a.c.vol, a.c.files, a.c.paranoid))
    && (a.r.Ok? ==> IsIdFor(a.c.run.mid, a.c.snap.created, a.r.value))
    && (a.noArchiveBit ==> a.c.run.idx == [])
  }

  ghost predicate LeavesSnapshot(cfg: Config, s: Store, a: Attempt, s': Store)
    requires GoodConfig(cfg)
  {
    a.r.Ok? || !SameSnapshots(cfg, s, s')
  }

  function WithArchive(prot: nat): nat {
    if Archived(prot) then prot else prot + ARCHIVE
  }

  function SetBits(disk: Disk, bits: set<seq<byte>>): Disk {
    map p | p in disk :: if p in bits then disk[p].(entry := disk[p].entry.(prot := WithArchive(disk[p].entry.prot))) else disk[p]
  }

  ghost predicate Happens(t: Tools, u: Contents, w: World, x: Act, w': World)
    requires GoodTools(t)
  {
    match x
    case Write(path, f) =>
      && f.entry.path == path && Scanned(f.entry) && f.entry.etype == FILE && !Archived(f.entry.prot)
      && w' == w.(disk := w.disk[path := f])
    case Delete(path) => w' == w.(disk := w.disk - {path})
    case Alter(disk) => w' == w.(disk := disk)
    case BackUp(a, bits) =>
      && Scans(w.disk, a.c.files) && Attempted(t, u, w.store, a, w'.store)
      && (forall p :: p in bits ==> p in a.marked) && w'.disk == SetBits(w.disk, bits)
    case PruneRun(who, targets, p0, p1) =>
      PruneRan(t.cfg, who, w.store, p0, targets, w'.store, p1) && w'.disk == w.disk
    case Unlock => w' == w.(store := w.store - {Lock})
  }

  // Every file the disk ever holds is one of these versions.
  ghost predicate Within(vs: Versions, disk: Disk) {
    forall p :: p in disk ==> Version(p, disk[p].entry.date, disk[p].data) in vs
  }

  // From a repository without readable snapshots, each act leading to the next world.
  ghost predicate IsHistory(t: Tools, u: Contents, vs: Versions, worlds: seq<World>, acts: seq<Act>)
    requires GoodTools(t)
    decreases |acts|
  {
    && |worlds| == |acts| + 1 && Within(vs, worlds[|acts|].disk)
    && if acts == [] then forall id: string :: SnapshotEvents(t.cfg, worlds[0].store, id).None?
       else
         var n := |acts| - 1;
         Happens(t, u, worlds[n], acts[n], worlds[n + 1]) && IsHistory(t, u, vs, worlds[..n + 1], acts[..n])
  }

  // A snapshot that is left behind is what a full scan would have left.
  ghost predicate IsFull(t: Tools, s: Store, x: Act, s': Store)
    requires GoodTools(t)
  {
    x.BackUp? && LeavesSnapshot(t.cfg, s, x.a, s') ==> SameButSum(x.a.c.run.events, FullEvents(t, x.a.c))
  }

  ghost predicate AllFull(t: Tools, worlds: seq<World>, acts: seq<Act>)
    requires GoodTools(t) && |worlds| == |acts| + 1
  {
    forall i :: 0 <= i < |acts| ==> IsFull(t, worlds[i].store, acts[i], worlds[i + 1].store)
  }

  // ---- When stamps tell ---------------------------------------------------------------------------

  lemma ScannedIsSeen(vs: Versions, u: Contents, disk: Disk, files: seq<Source>)
    requires Within(vs, disk) && Scans(disk, files) && GoodSources(u, files)
    ensures SeenAll(vs, files)
  {
    forall f | f in files
      ensures Scanned(f.entry) && (f.entry.etype != DIR ==> VersionOf(f) in vs)
    {
      var i :| 0 <= i < |files| && files[i] == f;
      assert GoodSource(u, files[i]);
    }
  }

  // Every snapshot is as it was or gone.
  ghost predicate NothingNew(cfg: Config, s: Store, s': Store)
    requires GoodConfig(cfg)
  {
    forall id: string ::
      SnapshotEvents(cfg, s', id).None? || SnapshotEvents(cfg, s', id) == SnapshotEvents(cfg, s, id)
  }

  lemma NoNewSnapshotIsTrue(t: Tools, vs: Versions, s: Store, s': Store)
    requires GoodConfig(t.cfg) && TrueStore(t, vs, s)
    requires NothingNew(t.cfg, s, s')
    ensures TrueStore(t, vs, s')
  {
    forall id: string | SnapshotEvents(t.cfg, s', id).Some?
      ensures TrueEvents(t, vs, SnapshotEvents(t.cfg, s', id).value)
    {
      assert SnapshotEvents(t.cfg, s, id).Some?;
    }
  }

  // A prune leaves no new snapshot behind.
  lemma PruneAddsNothing(cfg: Config, who: seq<byte>, s: Store, p0: seq<Store>, targets: seq<string>, s': Store,
                         p1: seq<Store>)
    requires GoodConfig(cfg) && PruneRan(cfg, who, s, p0, targets, s', p1)
    ensures NothingNew(cfg, s, s')
  {
    if !LockTried(who, s, p0, s', p1) {
      var s2, p2 :| PruneHeld(cfg, who, s, p0, targets, s2, p2) && p1 == p2 + [s'] && (s' == s2 || s' == s2 - {Lock});
      HeldPruneShrinks(cfg, who, s, p0, targets, s2, p2);
    }
  }

  lemma HeldPruneShrinks(cfg: Config, who: seq<byte>, s: Store, p0: seq<Store>, targets: seq<string>, s2: Store,
                         p2: seq<Store>)
    requires GoodConfig(cfg) && PruneHeld(cfg, who, s, p0, targets, s2, p2)
    ensures forall k :: k in s2 && k != Lock ==> k in s && s2[k] == s[k]
  {
    var s1 := s[Lock := who];
    var a, m, b :| p2[|p0| + 1..] == a + b && Removals(s1.Keys - TargetKeys(targets), s1, a, m) && Swept(cfg, s1, targets, m, b, s2);
    RemovalsShrink(s1.Keys - TargetKeys(targets), s1, a, m);
    RemovalsShrink(Pruned(cfg, s1, targets).Keys, m, b, s2);
  }

  lemma AttemptIsProper(t: Tools, u: Contents, vs: Versions, s: Store, a: Attempt, s': Store)
    requires GoodTools(t) && Attempted(t, u, s, a, s') && SeenAll(vs, a.c.files)
    ensures OneMoreSnapshot(t.cfg, s, a.c.run.events, s')
    ensures LeavesSnapshot(t.cfg, s, a, s') ==> ProperRun(t, vs, s, a.c)
  {
  }

  lemma OneMoreIsTrue(t: Tools, vs: Versions, s: Store, es: seq<Event>, s': Store)
    requires GoodConfig(t.cfg) && TrueStore(t, vs, s) && OneMoreSnapshot(t.cfg, s, es, s') && TrueEvents(t, vs, es)
    ensures TrueStore(t, vs, s')
  {
    forall id: string | SnapshotEvents(t.cfg, s', id).Some?
      ensures TrueEvents(t, vs, SnapshotEvents(t.cfg, s', id).value)
    {
      assert SnapshotEvents(t.cfg, s, id).Some? ==> TrueEvents(t, vs, SnapshotEvents(t.cfg, s, id).value);
    }
  }

  lemma BackUpIsTrue(t: Tools, u: Contents, vs: Versions, s: Store, a: Attempt, s': Store)
    requires GoodTools(t) && StampsTell(vs) && TrueStore(t, vs, s) && Attempted(t, u, s, a, s') && SeenAll(vs, a.c.files)
    ensures TrueStore(t, vs, s')
    ensures LeavesSnapshot(t.cfg, s, a, s') ==> SameButSum(a.c.run.events, FullEvents(t, a.c))
  {
    AttemptIsProper(t, u, vs, s, a, s');
    if LeavesSnapshot(t.cfg, s, a, s') {
      RunIsFull(t, vs, s, a.c);
      OneMoreIsTrue(t, vs, s, a.c.run.events, s');
    } else {
      NoNewSnapshotIsTrue(t, vs, s, s');
    }
  }

  lemma ActIsTrue(t: Tools, u: Contents, vs: Versions, w: World, x: Act, w': World)
    requires GoodTools(t) && StampsTell(vs) && Within(vs, w.disk) && TrueStore(t, vs, w.store) && Happens(t, u, w, x, w')
    ensures TrueStore(t, vs, w'.store) && IsFull(t, w.store, x, w'.store)
  {
    match x
    case Write(_, _) =>
    case Delete(_) =>
    case Alter(_) =>
    case BackUp(a, bits) =>
      ScannedIsSeen(vs, u, w.disk, a.c.files);
      BackUpIsTrue(t, u, vs, w.store, a, w'.store);
    case PruneRun(who, targets, p0, p1) =>
      PruneAddsNothing(t.cfg, who, w.store, p0, targets, w'.store, p1);
      NoNewSnapshotIsTrue(t, vs, w.store, w'.store);
    case Unlock =>
      SnapshotKept(t.cfg, w.store, w'.store);
  }

  // Whatever is done to the source, whatever runs are cut short and whatever is pruned:
  // when stamps tell, every snapshot that is left behind has the paths, metadata, sizes and
  // references that reading every file would have given.
  lemma {:induction false} IncrementalIsFull(t: Tools, u: Contents, vs: Versions, worlds: seq<World>, acts: seq<Act>)
    requires GoodTools(t) && StampsTell(vs) && IsHistory(t, u, vs, worlds, acts)
    ensures TrueStore(t, vs, worlds[|acts|].store) && AllFull(t, worlds, acts)
    decreases |acts|
  {
    if acts != [] {
      var n := |acts| - 1;
      IncrementalIsFull(t, u, vs, worlds[..n + 1], acts[..n]);
      LastWithin(t, u, vs, worlds[..n + 1], acts[..n]);
      ActIsTrue(t, u, vs, worlds[n], acts[n], worlds[n + 1]);
      FullSoFar(t, worlds, acts);
    }
  }

  lemma LastWithin(t: Tools, u: Contents, vs: Versions, worlds: seq<World>, acts: seq<Act>)
    requires GoodTools(t) && IsHistory(t, u, vs, worlds, acts)
    ensures Within(vs, worlds[|acts|].disk)
  {
  }

  lemma FullSoFar(t: Tools, worlds: seq<World>, acts: seq<Act>)
    requires GoodTools(t) && |worlds| == |acts| + 1 && acts != []
    requires AllFull(t, worlds[..|acts|], acts[..|acts| - 1])
    requires IsFull(t, worlds[|acts| - 1].store, acts[|acts| - 1], worlds[|acts|].store)
    ensures AllFull(t, worlds, acts)
  {
    var ws, xs := worlds[..|acts|], acts[..|acts| - 1];
    forall i | 0 <= i < |acts|
      ensures IsFull(t, worlds[i].store, acts[i], worlds[i + 1].store)
    {
      if i < |xs| {
        assert IsFull(t, ws[i].store, xs[i], ws[i + 1].store);
      }
    }
  }

  // ---- The commands are such acts --------------------------------------------------------------------

  // SNAPSHOT, with what it promises put together.
  method TakeSnapshot(be: Backend, t: Tools, who: seq<byte>, snap: Snap, vol: Volume, files: seq<Source>,
                      paranoid: bool,
                      noArchiveBit: bool, stops: nat -> bool, ghost u: Contents)
    returns (r: Result<string>, marked: seq<seq<byte>>, ghost a: Attempt)
    requires GoodTools(t) && NoCollision(t.cfg, u) && GoodSources(u, files) && Safe(t.cfg, be.store, u)
    requires ValidStamp(snap.created) && ValidVolume(vol)
    modifies be
    ensures Attempted(t, u, old(be.store), a, be.store) && a.p0 == old(be.past) && a.p1 == be.past
    ensures a.r == r && a.marked == marked && a.c.files == files && Safe(t.cfg, be.store, u)
    ensures Reliable(be) && Lock !in old(be.store) && HeadFits(snap, vol) ==>
              Succeeds(t, old(be.store), files, paranoid, noArchiveBit, stops, a.c.run, be.store, snap, r)
  {
    ghost var p0, run := be.past, *;
    r, marked, run := RunSnapshot(be, t, who, snap, vol, files, paranoid, noArchiveBit, stops, u);
    a := Attempt(Commit(run, snap, vol, files, paranoid), noArchiveBit, who, p0, be.past, r, marked);
  }

  // Over the files of a disk that holds still it is the next act of a history, whichever of
  // the archive bits could be set.
  method BackUpDisk(be: Backend, t: Tools, who: seq<byte>, snap: Snap, vol: Volume, files: seq<Source>, paranoid: bool,
                    noArchiveBit: bool, stops: nat -> bool, ghost u: Contents, ghost disk: Disk)
    returns (r: Result<string>, marked: seq<seq<byte>>, ghost a: Attempt)
    requires GoodTools(t) && NoCollision(t.cfg, u) && GoodSources(u, files) && Safe(t.cfg, be.store, u)
    requires ValidStamp(snap.created) && ValidVolume(vol) && Scans(disk, files)
    modifies be
    ensures Safe(t.cfg, be.store, u) && a.r == r && a.marked == marked && a.c.files == files
    ensures forall bits: set<seq<byte>> :: (forall p :: p in bits ==> p in marked) ==>
              Happens(t, u, World(disk, old(be.store)), BackUp(a, bits), World(SetBits(disk, bits), be.store))
  {
    r, marked, a := TakeSnapshot(be, t, who, snap, vol, files, paranoid, noArchiveBit, stops, u);
  }

  // PRUNE leaves the disk alone.
  method PruneStore(be: Backend, t: Tools, who: seq<byte>, c: Choice, ghost u: Contents, ghost disk: Disk)
    returns (status: Option<Error>, ghost x: Act)
    requires GoodTools(t) && Safe(t.cfg, be.store, u)
    modifies be
    ensures Safe(t.cfg, be.store, u) && x.PruneRun?
    ensures Happens(t, u, World(disk, old(be.store)), x, World(disk, be.store))
  {
    ghost var p0 := be.past;
    var counts;
    ghost var targets;
    counts, status, targets := RunPrune(be, t.cfg, who, c, u);
    x := PruneRun(who, targets, p0, be.past);
  }
}
