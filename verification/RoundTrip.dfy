// Scan, snapshot, restore: what was recorded of a source comes back byte for byte and with
// its datestamps.

module RoundTrip {
  import opened BackendStore
  import opened Bytes
  import opened History
  import opened Incremental
  import opened Index
  import opened Manifest
  import opened Meta
  import opened MetaStamps
  import opened Paths
  import opened Records
  import opened Repo
  import opened RepoWriters
  import opened Restore
  import opened RestoreMain
  import opened RestoreRun
  import opened Safety
  import opened Scan
  import opened ScanOrder
  import opened SafePaths
  import opened SnapIds
  import opened SnapshotMain
  import opened SnapshotRun
  import opened Tlv

  // The files a run is given are what a walk that ended well reported, in its order.
  ghost predicate IsScanOf(x: Context, root: Node, files: seq<Source>) {
    && GoodTree(root.children) && WalkVolume(x, root).status.None?
    && |files| == |WalkVolume(x, root).seen.out| && forall i :: 0 <= i < |files| ==> files[i].entry == WalkVolume(x, root).seen.out[i]
  }

  // What two entries of a scan never are to each other, the first being reported first.
  predicate Apart(a: Entry, b: Entry) {
    a.path != b.path && Parent(a.path) != Some(b.path)
  }

  ghost predicate FilesApart(files: seq<Source>) {
    forall i, j :: 0 <= i < j < |files| ==> Apart(files[i].entry, files[j].entry)
  }

  lemma ScanIsApart(x: Context, root: Node, files: seq<Source>)
    requires IsScanOf(x, root, files)
    ensures FilesApart(files)
  {
    ScanIsOrdered(x, root);
    var out := WalkVolume(x, root).seen.out;
    forall i, j | 0 <= i < j < |files|
      ensures Apart(files[i].entry, files[j].entry)
    {
      assert out[i].path != out[j].path && Parent(out[i].path) != Some(out[j].path);
    }
  }

  ghost predicate PicksApart(picks: seq<Pick>) {
    forall i, j :: 0 <= i < j < |picks| ==> Apart(picks[i].file.entry, picks[j].file.entry)
  }

  // What was recorded is the scan in its order, but for what failed.
  lemma {:induction false} PicksStayApart(files: seq<Source>, picks: seq<Pick>, failed: nat, idx: seq<Entry>)
    requires Picked(files, picks, failed, idx) && FilesApart(files)
    ensures PicksApart(picks)
    decreases |files|
  {
    if files != [] {
      var init, k := files[..|files| - 1], |picks| - 1;
      if picks != [] && picks[k].file == files[|init|] && FromIndex(idx, picks[k]) && Picked(init, picks[..k], failed, idx) {
        PicksStayApart(init, picks[..k], failed, idx);
        PickedIsFromIndex(init, picks[..k], failed, idx);
        LastApart(files, picks);
      } else {
        PicksStayApart(init, picks, failed - 1, idx);
      }
    }
  }

  ghost predicate AllIn(picks: seq<Pick>, files: seq<Source>) {
    forall i :: 0 <= i < |picks| ==> picks[i].file in files
  }

  lemma LastApart(files: seq<Source>, picks: seq<Pick>)
    requires files != [] && picks != [] && FilesApart(files) && PicksApart(picks[..|picks| - 1])
    requires picks[|picks| - 1].file == files[|files| - 1]
    requires AllIn(picks[..|picks| - 1], files[..|files| - 1])
    ensures PicksApart(picks)
  {
    var init, k := picks[..|picks| - 1], |picks| - 1;
    forall i, j | 0 <= i < j < |picks|
      ensures Apart(picks[i].file.entry, picks[j].file.entry)
    {
      assert picks[i] == init[i] && init[i].file in files[..|files| - 1];
      if j < k {
        assert picks[j] == init[j];
      } else {
        var n :| 0 <= n < |files| - 1 && files[n] == init[i].file;
        assert Apart(files[n].entry, files[|files| - 1].entry);
      }
    }
  }

  // The entries of a run's manifest, and their order.
  ghost predicate AreRecorded(t: Tools, picks: seq<Pick>, paranoid: bool, es: seq<Entry>) {
    |es| == |picks| && forall i :: 0 <= i < |es| ==> es[i] == Recorded(t, picks[i], paranoid)
  }

  lemma EntriesAreRecorded(t: Tools, c: Commit)
    requires Completed(t, c.run, c.snap, c.vol, c.files, c.paranoid)
    ensures AreRecorded(t, c.run.picks, c.paranoid, EntriesOf(c.run.events))
  {
    NoEntries(OnSnap(c.snap), OnVolume(c.vol));
    EntriesOfRun(t, [OnSnap(c.snap), OnVolume(c.vol)], c.run.picks, c.paranoid);
  }

  lemma RecordedInOrder(t: Tools, picks: seq<Pick>, paranoid: bool, es: seq<Entry>)
    requires AreRecorded(t, picks, paranoid, es) && PicksApart(picks)
    ensures PathsDiffer(es) && ParentsFirst(es)
  {
    forall i, j | 0 <= i < j < |es|
      ensures es[i].path != es[j].path && Parent(es[i].path) != Some(es[j].path)
    {
      assert Apart(picks[i].file.entry, picks[j].file.entry);
    }
  }

  // The manifest of a scanned source keeps the order of the scan.
  lemma RunKeepsOrder(t: Tools, c: Commit, x: Context, root: Node, es: seq<Entry>)
    requires Completed(t, c.run, c.snap, c.vol, c.files, c.paranoid) && IsScanOf(x, root, c.files)
    requires es == EntriesOf(c.run.events)
    ensures AreRecorded(t, c.run.picks, c.paranoid, es) && PathsDiffer(es) && ParentsFirst(es)
  {
    EntriesAreRecorded(t, c);
    ScanIsApart(x, root, c.files);
    PicksStayApart(c.files, c.run.picks, c.run.failed, c.run.idx);
    RecordedInOrder(t, c.run.picks, c.paranoid, es);
  }

  lemma RecordedSplits(t: Tools, u: Contents, vs: Versions, s: Store, c: Commit, i: nat)
    requires GoodConfig(t.cfg) && StampsTell(vs) && TrueStore(t, vs, s) && ProperRun(t, vs, s, c) && GoodSources(u, c.files)
    requires i < |c.run.picks| && c.run.picks[i].file.entry.etype != DIR
    ensures Splits(t.cfg, u, Recorded(t, c.run.picks[i], c.paranoid).content, c.run.picks[i].file.data)
  {
    var p := c.run.picks[i];
    PickedIsFromIndex(c.files, c.run.picks, c.run.failed, c.run.idx);
    assert p.file in c.files;
    var j :| 0 <= j < |c.files| && c.files[j] == p.file;
    assert GoodSource(u, c.files[j]);
    PicksAreFull(t, vs, s, c, i);
    FileRefsSplit(t, u, p.file.data);
  }

  // A committed run over a scanned source, and a later safe store in which its snapshot is
  // still there.
  ghost predicate TakenAndKept(t: Tools, u: Contents, vs: Versions, x: Context, root: Node, s: Store, a: Attempt,
                               s': Store, id: string, later: Store)
    requires GoodTools(t)
  {
    && StampsTell(vs) && TrueStore(t, vs, s) && SeenAll(vs, a.c.files) && IsScanOf(x, root, a.c.files)
    && Attempted(t, u, s, a, s') && a.r == Ok(id)
    && Safe(t.cfg, later, u) && |id| == 16 && SnapshotEvents(t.cfg, later, id) == SnapshotEvents(t.cfg, s', id)
  }

  lemma KeptSaysSo(t: Tools, u: Contents, vs: Versions, x: Context, root: Node, s: Store, a: Attempt, s': Store,
                   id: string, later: Store)
    requires GoodTools(t) && TakenAndKept(t, u, vs, x, root, s, a, s', id, later)
    ensures SnapshotEvents(t.cfg, later, id) == Some(a.c.run.events) && ProperRun(t, vs, s, a.c)
    ensures Completed(t, a.c.run, a.c.snap, a.c.vol, a.c.files, a.c.paranoid) && GoodSources(u, a.c.files)
  {
    AttemptIsProper(t, u, vs, s, a, s');
  }

  // What a run recorded, from any safe store that still has its snapshot.
  lemma RunComesBack(t: Tools, u: Contents, vs: Versions, x: Context, root: Node, s: Store, c: Commit, id: string,
                     later: Store, o: Options, es: seq<Entry>, files: map<seq<byte>, seq<byte>>, i: nat)
    requires GoodTools(t) && StampsTell(vs) && TrueStore(t, vs, s) && ProperRun(t, vs, s, c) && GoodSources(u, c.files)
    requires IsScanOf(x, root, c.files) && es == EntriesOf(c.run.events)
    requires Safe(t.cfg, later, u) && |id| == 16 && SnapshotEvents(t.cfg, later, id) == Some(c.run.events)
    requires i < |c.run.picks| && c.run.picks[i].file.entry.etype != DIR && Wanted(o, c.run.picks[i].file.entry)
    ensures EntriesSound(t.cfg, later, es)
    ensures var f := c.run.picks[i].file;
      f.entry.path in FilesAfter(t.cfg, later, o, es, files) && FilesAfter(t.cfg, later, o, es, files)[f.entry.path] == f.data
  {
    SnapshotIsSound(t.cfg, later, u, id, c.run.events);
    RunHolds(t, u, vs, x, root, s, c, es, i);
    RestoreUndoesSnapshot(t.cfg, later, u, o, es, files, i, c.run.picks[i].file.data);
  }

  // The i-th entry is the i-th recorded file's, and its references are that file.
  lemma RunHolds(t: Tools, u: Contents, vs: Versions, x: Context, root: Node, s: Store, c: Commit, es: seq<Entry>,
                 i: nat)
    requires GoodTools(t) && StampsTell(vs) && TrueStore(t, vs, s) && ProperRun(t, vs, s, c) && GoodSources(u, c.files)
    requires IsScanOf(x, root, c.files) && es == EntriesOf(c.run.events)
    requires i < |c.run.picks| && c.run.picks[i].file.entry.etype != DIR
    ensures PathsDiffer(es) && i < |es|
    ensures var f := c.run.picks[i].file;
      es[i].path == f.entry.path && es[i].etype == f.entry.etype && Splits(t.cfg, u, es[i].content, f.data)
  {
    RunKeepsOrder(t, c, x, root, es);
    RecordedSplits(t, u, vs, s, c, i);
    SamePath(t, c.run.picks[i], c.paranoid);
  }

  lemma SamePath(t: Tools, p: Pick, paranoid: bool)
    ensures Recorded(t, p, paranoid).path == p.file.entry.path && Recorded(t, p, paranoid).etype == p.file.entry.etype
  {
  }

  lemma SnapshotIsSound(cfg: Config, later: Store, u: Contents, id: string, events: seq<Event>)
    requires GoodConfig(cfg) && Safe(cfg, later, u) && |id| == 16 && SnapshotEvents(cfg, later, id) == Some(events)
    ensures EntriesSound(cfg, later, EntriesOf(events))
  {
    SafeSnapshotsPass(cfg, later, u, id);
    EntriesAreSound(cfg, later, events);
  }

  // Restoring it writes exactly the bytes each recorded file had.
  lemma SnapshotThenRestore(t: Tools, u: Contents, vs: Versions, x: Context, root: Node, s: Store, a: Attempt,
                            s': Store,
                            id: string, later: Store, o: Options, files: map<seq<byte>, seq<byte>>, i: nat)
    requires GoodTools(t) && TakenAndKept(t, u, vs, x, root, s, a, s', id, later)
    requires i < |a.c.run.picks| && a.c.run.picks[i].file.entry.etype != DIR && Wanted(o, a.c.run.picks[i].file.entry)
    ensures EntriesSound(t.cfg, later, EntriesOf(a.c.run.events))
    ensures var f := a.c.run.picks[i].file;
      var after := FilesAfter(t.cfg, later, o, EntriesOf(a.c.run.events), files);
      f.entry.path in after && after[f.entry.path] == f.data
  {
    KeptSaysSo(t, u, vs, x, root, s, a, s', id, later);
    RunComesBack(t, u, vs, x, root, s, a.c, id, later, o, EntriesOf(a.c.run.events), files, i);
  }

  lemma StampComesBack(t: Tools, picks: seq<Pick>, paranoid: bool, es: seq<Entry>, o: Options, stamps: Stamps,
                       clock: Clock, i: nat)
    requires AreRecorded(t, picks, paranoid, es) && PathsDiffer(es) && ParentsFirst(es)
    requires i < |picks| && Wanted(o, picks[i].file.entry)
    ensures var f := picks[i].file;
      var after := TouchAll(stamps, MetaOrder(o, es), clock);
      f.entry.path in after && after[f.entry.path] == f.entry.date
  {
    assert es[i] in es;
    ReversePassKeepsStamps(o, es, stamps, clock, es[i]);
  }

  // And every entry that is restored, directories too, carries its datestamp again.
  lemma StampsComeBack(t: Tools, c: Commit, x: Context, root: Node, o: Options, stamps: Stamps, clock: Clock, i: nat)
    requires Completed(t, c.run, c.snap, c.vol, c.files, c.paranoid) && IsScanOf(x, root, c.files)
    requires i < |c.run.picks| && Wanted(o, c.run.picks[i].file.entry)
    ensures var f := c.run.picks[i].file;
      var after := TouchAll(stamps, MetaOrder(o, EntriesOf(c.run.events)), clock);
      f.entry.path in after && after[f.entry.path] == f.entry.date
  {
    RunKeepsOrder(t, c, x, root, EntriesOf(c.run.events));
    StampComesBack(t, c.run.picks, c.paranoid, EntriesOf(c.run.events), o, stamps, clock, i);
  }

  // ---- Both commands ---------------------------------------------------------------------------------

  // A file or directory of the subtree that was asked for.
  predicate Asked(o: Options, e: Entry) {
    e.etype != SOFTLINK && e.etype != HARDLINK && (o.pre == [] || Components(o.pre) <= Components(e.path))
  }

  lemma AskedIsWanted(o: Options, e: Entry)
    ensures Asked(o, e) <==> Wanted(o, e)
  {
    if o.pre != [] {
      SubtreeIsByComponents(e.path, o.pre);
    }
  }

  // Everything recorded and asked for is at the destination with its bytes.
  ghost predicate BytesBack(picks: seq<Pick>, o: Options, files: map<seq<byte>, seq<byte>>) {
    forall i :: 0 <= i < |picks| && picks[i].file.entry.etype != DIR && Asked(o, picks[i].file.entry) ==>
      picks[i].file.entry.path in files && files[picks[i].file.entry.path] == picks[i].file.data
  }

  // And the order metadata was applied in leaves it the stamps it had.
  ghost predicate StampsBack(picks: seq<Pick>, o: Options, applied: seq<Entry>) {
    forall i, stamps, clock: Clock :: 0 <= i < |picks| && Asked(o, picks[i].file.entry) ==>
      StampBack(picks[i].file.entry, TouchAll(stamps, applied, clock))
  }

  predicate StampBack(e: Entry, stamps: Stamps) {
    e.path in stamps && stamps[e.path] == e.date
  }

  lemma AllBytesBack(t: Tools, u: Contents, vs: Versions, x: Context, root: Node, s: Store, a: Attempt, s': Store,
                     id: string,
                     o: Options, files: map<seq<byte>, seq<byte>>)
    requires GoodTools(t) && TakenAndKept(t, u, vs, x, root, s, a, s', id, s')
    ensures EntriesSound(t.cfg, s', EntriesOf(a.c.run.events))
    ensures BytesBack(a.c.run.picks, o, FilesAfter(t.cfg, s', o, EntriesOf(a.c.run.events), files))
  {
    KeptSaysSo(t, u, vs, x, root, s, a, s', id, s');
    SnapshotIsSound(t.cfg, s', u, id, a.c.run.events);
    var picks := a.c.run.picks;
    var after := FilesAfter(t.cfg, s', o, EntriesOf(a.c.run.events), files);
    forall i | 0 <= i < |picks| && picks[i].file.entry.etype != DIR && Asked(o, picks[i].file.entry)
      ensures picks[i].file.entry.path in after && after[picks[i].file.entry.path] == picks[i].file.data
    {
      AskedIsWanted(o, picks[i].file.entry);
      RunComesBack(t, u, vs, x, root, s, a.c, id, s', o, EntriesOf(a.c.run.events), files, i);
    }
  }

  lemma AllStampsBack(t: Tools, c: Commit, x: Context, root: Node, o: Options)
    requires Completed(t, c.run, c.snap, c.vol, c.files, c.paranoid) && IsScanOf(x, root, c.files)
    ensures StampsBack(c.run.picks, o, MetaOrder(o, EntriesOf(c.run.events)))
  {
    forall i, stamps, clock: Clock | 0 <= i < |c.run.picks| && Asked(o, c.run.picks[i].file.entry)
      ensures StampBack(c.run.picks[i].file.entry, TouchAll(stamps, MetaOrder(o, EntriesOf(c.run.events)), clock))
    {
      AskedIsWanted(o, c.run.picks[i].file.entry);
      StampsComeBack(t, c, x, root, o, stamps, clock, i);
    }
  }

  // And every directory.
  ghost predicate DirsBack(picks: seq<Pick>, o: Options, dirs: set<seq<byte>>) {
    forall i :: 0 <= i < |picks| && picks[i].file.entry.etype == DIR && Asked(o, picks[i].file.entry) ==>
      picks[i].file.entry.path in dirs
  }

  lemma {:induction false} DirAt(o: Options, es: seq<Entry>, dirs: set<seq<byte>>, i: nat)
    requires i < |es| && Wanted(o, es[i]) && es[i].etype == DIR
    ensures es[i].path in DirsAfter(o, es, dirs)
    decreases |es|
  {
    if i < |es| - 1 {
      DirAt(o, es[..|es| - 1], dirs, i);
    }
  }

  lemma AllDirsBack(t: Tools, picks: seq<Pick>, paranoid: bool, es: seq<Entry>, o: Options, dirs: set<seq<byte>>)
    requires AreRecorded(t, picks, paranoid, es)
    ensures DirsBack(picks, o, DirsAfter(o, es, dirs))
  {
    forall i | 0 <= i < |picks| && picks[i].file.entry.etype == DIR && Asked(o, picks[i].file.entry)
      ensures picks[i].file.entry.path in DirsAfter(o, es, dirs)
    {
      SamePath(t, picks[i], paranoid);
      AskedIsWanted(o, es[i]);
      DirAt(o, es, dirs, i);
    }
  }

  // The same path, kind, protection bits, datestamp, comment, owner and link target.
  predicate SameMeta(e: Entry, f: Entry) {
    && e.path == f.path && e.etype == f.etype && e.prot == f.prot && e.date == f.date && e.comment == f.comment
    && e.owner == f.owner && e.link == f.link
  }

  // The entry of a file as it was scanned, and its size.
  predicate ShowsFile(e: Entry, f: Source) {
    SameMeta(e, f.entry) && (e.etype == FILE ==> e.size == Some(|f.data|))
  }

  // Metadata is applied once for everything recorded and asked for, and it is what the scan
  // showed.
  ghost predicate MetaBack(picks: seq<Pick>, o: Options, applied: seq<Entry>) {
    forall i :: 0 <= i < |picks| && Asked(o, picks[i].file.entry) ==> MetaApplied(picks[i].file, applied)
  }

  ghost predicate MetaApplied(f: Source, applied: seq<Entry>) {
    && (exists e :: e in applied && ShowsFile(e, f))
    && (forall e :: e in applied && e.path == f.entry.path ==> ShowsFile(e, f))
  }

  lemma RecordedShows(t: Tools, p: Pick, paranoid: bool)
    ensures ShowsFile(Recorded(t, p, paranoid), p.file)
  {
  }

  lemma {:induction false} OrderHas(o: Options, es: seq<Entry>, e: Entry)
    ensures e in MetaOrder(o, es) <==> e in es && Wanted(o, e)
    decreases |es|
  {
    if es != [] {
      OrderHas(o, es[..|es| - 1], e);
      assert e in es <==> e in es[..|es| - 1] || e == es[|es| - 1];
    }
  }

  lemma EntryHasMeta(t: Tools, picks: seq<Pick>, paranoid: bool, es: seq<Entry>, o: Options, i: nat)
    requires AreRecorded(t, picks, paranoid, es) && PathsDiffer(es)
    requires i < |picks| && Asked(o, picks[i].file.entry)
    ensures MetaApplied(picks[i].file, MetaOrder(o, es))
  {
    SamePath(t, picks[i], paranoid);
    RecordedShows(t, picks[i], paranoid);
    AskedIsWanted(o, es[i]);
    OrderHas(o, es, es[i]);
    forall e | e in MetaOrder(o, es) && e.path == picks[i].file.entry.path
      ensures ShowsFile(e, picks[i].file)
    {
      OrderHas(o, es, e);
      var k :| 0 <= k < |es| && es[k] == e;
      assert k == i;
    }
  }

  lemma AllMetaBack(t: Tools, c: Commit, x: Context, root: Node, o: Options)
    requires Completed(t, c.run, c.snap, c.vol, c.files, c.paranoid) && IsScanOf(x, root, c.files)
    ensures MetaBack(c.run.picks, o, MetaOrder(o, EntriesOf(c.run.events)))
  {
    RunKeepsOrder(t, c, x, root, EntriesOf(c.run.events));
    forall i | 0 <= i < |c.run.picks| && Asked(o, c.run.picks[i].file.entry)
      ensures MetaApplied(c.run.picks[i].file, MetaOrder(o, EntriesOf(c.run.events)))
    {
      EntryHasMeta(t, c.run.picks, c.paranoid, EntriesOf(c.run.events), o, i);
    }
  }

  // Every path a run over a scan of ordinary names recorded can be restored.
  lemma RunIsRestorable(t: Tools, c: Commit, x: Context, root: Node, o: Options)
    requires Completed(t, c.run, c.snap, c.vol, c.files, c.paranoid) && IsScanOf(x, root, c.files)
    requires OrdinaryTree(root.children)
    ensures PathsFit(o, EntriesOf(c.run.events))
  {
    var es := EntriesOf(c.run.events);
    EntriesAreRecorded(t, c);
    ScanIsRestorable(x, root);
    PickedIsFromIndex(c.files, c.run.picks, c.run.failed, c.run.idx);
    forall i | 0 <= i < |es|
      ensures SafePath(es[i].path) && |es[i].path| + 1 <= PATH_BUF
    {
      SamePath(t, c.run.picks[i], c.paranoid);
      var j :| 0 <= j < |c.files| && c.files[j] == c.run.picks[i].file;
      assert Restorable(WalkVolume(x, root).seen.out[j]);
    }
  }

  // Nothing on the way fails.
  ghost predicate AllWell(be: Backend, dest: Destination, o: Options) {
    Reliable(be) && dest.Steady() && forall n :: !o.aborts(n)
  }

  // What a snapshot that was taken left, at any destination.
  method RestoreTaken(be: Backend, t: Tools, dest: Destination, o: Options, id: string, ghost s: Store,
                      ghost a: Attempt,
                      ghost u: Contents, ghost vs: Versions, ghost x: Context, ghost root: Node)
    returns (status: Option<Error>, applied: seq<Entry>)
    requires GoodTools(t) && TakenAndKept(t, u, vs, x, root, s, a, be.store, id, be.store) && dest.pending.None?
    modifies be`clock, dest
    ensures status.None? ==> BytesBack(a.c.run.picks, o, dest.files)
    ensures status.None? ==> DirsBack(a.c.run.picks, o, dest.dirs)
    ensures status.None? && o.metadata ==> StampsBack(a.c.run.picks, o, applied) && MetaBack(a.c.run.picks, o, applied)
    ensures AllWell(be, dest, o) && OrdinaryTree(root.children) ==> status.None?
  {
    applied := [];
    var file := be.Get(ManifestKey(id));
    if file.Err? {
      return Some(file.error), applied;
    }
    KeptSaysSo(t, u, vs, x, root, s, a, be.store, id, be.store);
    AllBytesBack(t, u, vs, x, root, s, a, be.store, id, o, dest.files);
    AllStampsBack(t, a.c, x, root, o);
    AllMetaBack(t, a.c, x, root, o);
    EntriesAreRecorded(t, a.c);
    AllDirsBack(t, a.c.run.picks, a.c.paranoid, EntriesOf(a.c.run.events), o, dest.dirs);
    SafeSnapshotsPass(t.cfg, be.store, u, id);
    if OrdinaryTree(root.children) {
      RunIsRestorable(t, a.c, x, root, o);
    }
    var tally;
    status, tally, applied := RestoreManifest(be, t.cfg, dest, id, file.value, o);
  }

  // A snapshot of a scanned source, and its restore into any destination.
  method SnapshotAndRestore(be: Backend, t: Tools, who: seq<byte>, snap: Snap, vol: Volume, files: seq<Source>,
                            paranoid: bool,
                            noArchiveBit: bool, stops: nat -> bool, dest: Destination, o: Options,
                            ghost u: Contents, ghost vs: Versions, ghost x: Context, ghost root: Node)
    returns (r: Result<string>, status: Option<Error>, applied: seq<Entry>, ghost a: Attempt)
    requires GoodTools(t) && NoCollision(t.cfg, u) && GoodSources(u, files) && Safe(t.cfg, be.store, u)
    requires ValidStamp(snap.created) && ValidVolume(vol) && dest.pending.None?
    requires StampsTell(vs) && TrueStore(t, vs, be.store) && SeenAll(vs, files) && IsScanOf(x, root, files)
    modifies be, dest
    ensures a.c.files == files && Attempted(t, u, old(be.store), a, be.store) && a.r == r
    ensures r.Ok? && status.None? ==> BytesBack(a.c.run.picks, o, dest.files)
    ensures r.Ok? && status.None? ==> DirsBack(a.c.run.picks, o, dest.dirs)
    ensures r.Ok? && status.None? && o.metadata ==>
              StampsBack(a.c.run.picks, o, applied) && MetaBack(a.c.run.picks, o, applied)
    ensures Reliable(be) && Lock !in old(be.store) && HeadFits(snap, vol) && Calm(files, stops) ==>
              OnlyUnsureLeftOut(t, files, a.c.run.picks, a.c.run.idx, paranoid)
              && (r.Err? ==> NoFreeId(be.store, snap.created))
    ensures AllWell(be, dest, o) && OrdinaryTree(root.children) && r.Ok? ==> status.None?
  {
    status, applied := None, [];
    ghost var s := be.store;
    var marked;
    r, marked, a := TakeSnapshot(be, t, who, snap, vol, files, paranoid, noArchiveBit, stops, u);
    if r.Ok? {
      status, applied := RestoreTaken(be, t, dest, o, r.value, s, a, u, vs, x, root);
    }
  }
}
