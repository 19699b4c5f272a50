// What the archive bit alone is worth: as long as only committed runs set it, and each run
// goes by the last snapshot taken, incremental snapshots are right whatever stamps say.

module ArchiveBit {
  import opened BackendStore
  import opened Bytes
  import opened HexNames
  import opened History
  import opened Incremental
  import opened Index
  import opened Manifest
  import opened Meta
  import opened Repo
  import opened RepoWriters
  import opened Safety
  import opened SnapIds
  import opened SnapshotMain
  import opened SnapshotRun
  import opened Tlv

  // The events of the last snapshot that was left behind.
  ghost function LastTaken(t: Tools, worlds: seq<World>, acts: seq<Act>): Option<seq<Event>>
    requires GoodTools(t) && |worlds| == |acts| + 1
    decreases |acts|
  {
    if acts == [] then None
    else
      var n := |acts| - 1;
      if acts[n].BackUp? && LeavesSnapshot(t.cfg, worlds[n].store, acts[n].a, worlds[n + 1].store) then
        Some(acts[n].a.c.run.events)
      else LastTaken(t, worlds[..n + 1], acts[..n])
  }

  // That snapshot is there, it is the latest, and a listing takes them all.
  ghost predicate IsThere(cfg: Config, s: Store, es: seq<Event>)
    requires GoodConfig(cfg)
  {
    |Ids(s)| <= 1024 && exists id: string :: IsLatest(s, id) && SnapshotEvents(cfg, s, id) == Some(es)
  }

  // Nothing but writes, deletions and the commands; bits are set by runs that commit, and
  // the last snapshot is still there when the next run begins.
  ghost predicate Orderly(t: Tools, worlds: seq<World>, acts: seq<Act>)
    requires GoodTools(t) && |worlds| == |acts| + 1
    decreases |acts|
  {
    acts == []
    || (var n := |acts| - 1;
        OrderlyAct(t, worlds[n].store, LastTaken(t, worlds[..n + 1], acts[..n]), acts[n], worlds[n + 1].store)
        && Orderly(t, worlds[..n + 1], acts[..n]))
  }

  ghost predicate OrderlyAct(t: Tools, s: Store, last: Option<seq<Event>>, x: Act, s': Store)
    requires GoodTools(t)
  {
    !x.Alter?
    && (x.BackUp? ==> (x.bits == {} || LeavesSnapshot(t.cfg, s, x.a, s')) && (last.Some? ==> IsThere(t.cfg, s, last.value)))
  }

  // A file whose bit is set is as the last snapshot has it, if it has it at all.
  ghost predicate Tracks(t: Tools, disk: Disk, es: seq<Event>) {
    forall p, e :: p in disk && Archived(disk[p].entry.prot) && e in EntriesOf(es) && e.path == p && e.etype != DIR ==>
      e.content == RefsOfFile(t, disk[p].data)
  }

  // Before any snapshot there is none to go by.
  ghost predicate Tracked(t: Tools, w: World, last: Option<seq<Event>>)
    requires GoodTools(t)
  {
    match last
    case Some(es) => Tracks(t, w.disk, es)
    case None => forall id: string :: SnapshotEvents(t.cfg, w.store, id).None?
  }

  lemma OneLatest(s: Store, a: string, b: string)
    requires IsLatest(s, a) && IsLatest(s, b)
    ensures a == b
  {
    StrLessTotal(a, b);
  }

  // What is skipped has the right references.
  lemma SkippedIsRight(t: Tools, w: World, last: Option<seq<Event>>, a: Attempt, p: Pick)
    requires GoodTools(t) && Tracked(t, w, last) && Scans(w.disk, a.c.files) && p.file in a.c.files
    requires UsedIndex(t.cfg, w.store, a.c.run.id, a.c.run.idx) && FromIndex(a.c.run.idx, p)
    requires last.Some? ==> IsThere(t.cfg, w.store, last.value)
    requires p.file.entry.etype != DIR && CanSkip(p)
    ensures p.prev.value.content == RefsOfFile(t, p.file.data)
  {
    var e, id := p.prev.value, a.c.run.id;
    assert e in multiset(a.c.run.idx);
    assert e in EntriesOf(SnapshotEvents(t.cfg, w.store, id).value);
    var id' :| IsLatest(w.store, id') && SnapshotEvents(t.cfg, w.store, id') == Some(last.value);
    OneLatest(w.store, id, id');
    assert w.disk[e.path] == File(p.file.entry, p.file.data);
  }

  // A pick that would be skipped only with the right references.
  ghost predicate Right(t: Tools, p: Pick) {
    && Scanned(p.file.entry)
    && (p.file.entry.etype != DIR && CanSkip(p) ==> p.prev.value.content == RefsOfFile(t, p.file.data))
  }

  lemma RightIsFull(t: Tools, p: Pick, paranoid: bool)
    requires Right(t, p)
    ensures Recorded(t, p, paranoid).(xhash := None) == FullEntry(t, p.file).(xhash := None)
    ensures Recorded(t, p, paranoid).path == p.file.entry.path && Recorded(t, p, paranoid).etype == p.file.entry.etype
    ensures p.file.entry.etype != DIR ==> Recorded(t, p, paranoid).content == RefsOfFile(t, p.file.data)
  {
    if p.file.entry.etype != DIR {
      RecordedIsFull(t, p, paranoid);
    }
  }

  ghost predicate AllRight(t: Tools, picks: seq<Pick>) {
    forall i :: 0 <= i < |picks| ==> Right(t, picks[i])
  }

  lemma RightRunIsFull(t: Tools, c: Commit)
    requires Completed(t, c.run, c.snap, c.vol, c.files, c.paranoid) && AllRight(t, c.run.picks)
    ensures SameButSum(c.run.events, FullEvents(t, c))
  {
    var es, full := c.run.events, FullEvents(t, c);
    forall i | 2 <= i < |es|
      ensures es[i].OnEntry? && full[i].OnEntry? && es[i].entry.(xhash := None) == full[i].entry.(xhash := None)
    {
      RightIsFull(t, c.run.picks[i - 2], c.paranoid);
    }
    assert es[0] == full[0] && es[1] == full[1];
  }

  lemma PicksAreRight(t: Tools, u: Contents, w: World, last: Option<seq<Event>>, a: Attempt)
    requires GoodTools(t) && Tracked(t, w, last) && Scans(w.disk, a.c.files) && GoodSources(u, a.c.files)
    requires UsedIndex(t.cfg, w.store, a.c.run.id, a.c.run.idx)
    requires AllPicked(t, a.c.files, a.c.run.idx, a.c.run.picks, a.c.paranoid)
    requires last.Some? ==> IsThere(t.cfg, w.store, last.value)
    ensures AllRight(t, a.c.run.picks)
  {
    forall i | 0 <= i < |a.c.run.picks|
      ensures Right(t, a.c.run.picks[i])
    {
      var p := a.c.run.picks[i];
      PickedAt(t, a.c.files, a.c.run.idx, a.c.run.picks, a.c.paranoid, i);
      var j :| 0 <= j < |a.c.files| && a.c.files[j] == p.file;
      assert GoodSource(u, a.c.files[j]);
      if p.file.entry.etype != DIR && CanSkip(p) {
        SkippedIsRight(t, w, last, a, p);
      }
    }
  }

  // What was just recorded is what the disk holds.
  lemma RunTracks(t: Tools, disk: Disk, c: Commit, bits: set<seq<byte>>)
    requires Completed(t, c.run, c.snap, c.vol, c.files, c.paranoid) && AllRight(t, c.run.picks) && Scans(disk, c.files)
    ensures Tracks(t, SetBits(disk, bits), c.run.events)
  {
    NoEntries(OnSnap(c.snap), OnVolume(c.vol));
    EntriesOfRun(t, [OnSnap(c.snap), OnVolume(c.vol)], c.run.picks, c.paranoid);
    PickedIsFromIndex(c.files, c.run.picks, c.run.failed, c.run.idx);
    forall p, e | p in disk && e in EntriesOf(c.run.events) && e.path == p && e.etype != DIR
      ensures e.content == RefsOfFile(t, disk[p].data)
    {
      var i :| 0 <= i < |c.run.picks| && EntriesOf(c.run.events)[i] == e;
      RightIsFull(t, c.run.picks[i], c.paranoid);
      assert c.run.picks[i].file in c.files;
    }
  }

  lemma BackUpTracks(t: Tools, u: Contents, w: World, last: Option<seq<Event>>, x: Act, w': World)
    requires GoodTools(t) && Tracked(t, w, last) && x.BackUp? && Happens(t, u, w, x, w')
    requires OrderlyAct(t, w.store, last, x, w'.store)
    ensures Tracked(t, w', if LeavesSnapshot(t.cfg, w.store, x.a, w'.store) then Some(x.a.c.run.events) else last)
    ensures IsFull(t, w.store, x, w'.store)
  {
    if LeavesSnapshot(t.cfg, w.store, x.a, w'.store) {
      CommitTracks(t, u, w, last, x.a, x.bits, w');
    } else {
      assert SetBits(w.disk, {}) == w.disk;
    }
  }

  lemma CommitTracks(t: Tools, u: Contents, w: World, last: Option<seq<Event>>, a: Attempt, bits: set<seq<byte>>,
                     w': World)
    requires GoodTools(t) && Tracked(t, w, last) && Happens(t, u, w, BackUp(a, bits), w')
    requires OrderlyAct(t, w.store, last, BackUp(a, bits), w'.store) && LeavesSnapshot(t.cfg, w.store, a, w'.store)
    ensures Tracks(t, w'.disk, a.c.run.events) && SameButSum(a.c.run.events, FullEvents(t, a.c))
  {
    PicksAreRight(t, u, w, last, a);
    RightRunIsFull(t, a.c);
    RunTracks(t, w.disk, a.c, bits);
  }

  lemma OtherTracks(t: Tools, u: Contents, w: World, last: Option<seq<Event>>, x: Act, w': World)
    requires GoodTools(t) && Tracked(t, w, last) && !x.BackUp? && !x.Alter? && Happens(t, u, w, x, w')
    ensures Tracked(t, w', last)
  {
    match x
    case Write(_, _) =>
    case Delete(_) =>
    case PruneRun(who, targets, p0, p1) => PruneAddsNothing(t.cfg, who, w.store, p0, targets, w'.store, p1);
    case Unlock => SnapshotKept(t.cfg, w.store, w'.store);
  }

  // In an orderly history every snapshot is what a full scan would have given: it may be
  // that no stamp is ever moved at all.
  lemma {:induction false} BitIsEnough(t: Tools, u: Contents, vs: Versions, worlds: seq<World>, acts: seq<Act>)
    requires GoodTools(t) && IsHistory(t, u, vs, worlds, acts) && Orderly(t, worlds, acts)
    ensures AllFull(t, worlds, acts) && Tracked(t, worlds[|acts|], LastTaken(t, worlds, acts))
    decreases |acts|
  {
    if acts != [] {
      var n := |acts| - 1;
      BitIsEnough(t, u, vs, worlds[..n + 1], acts[..n]);
      var last := LastTaken(t, worlds[..n + 1], acts[..n]);
      if acts[n].BackUp? {
        BackUpTracks(t, u, worlds[n], last, acts[n], worlds[n + 1]);
      } else {
        OtherTracks(t, u, worlds[n], last, acts[n], worlds[n + 1]);
      }
      FullSoFar(t, worlds, acts);
    }
  }
}
