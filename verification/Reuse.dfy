// What the previous snapshot is worth: a file that was backed up and marked is recorded
// again without being opened, and any change a directory shows has it read.

module Reuse {
  import opened BackendStore
  import opened Bytes
  import opened HexNames
  import opened Incremental
  import opened Index
  import opened Manifest
  import opened Meta
  import opened Records
  import opened Repo
  import opened RepoWriters
  import opened Safety
  import opened SnapIds
  import opened SnapshotMain
  import opened SnapshotRun
  import opened Tlv

  // The protection bits with 0x10, the archive bit, set.
  function Marked(prot: nat): nat {
    if prot / 16 % 2 == 1 then prot else prot + 16
  }

  // What a directory shows of a file is the same, and the archive bit is set now.
  predicate ShowsNoChange(last: Entry, cur: Entry) {
    && cur.prot == Marked(last.prot)
    && last.etype == cur.etype && last.date == cur.date && last.comment == cur.comment && last.owner == cur.owner
  }

  // Exactly what counts as unchanged.
  lemma UnchangedMeans(last: Entry, cur: Entry)
    ensures Unchanged(last, cur) <==>
            && ShowsNoChange(last, cur) && (cur.etype == FILE ==> last.size == cur.size)
            && (cur.etype == SOFTLINK || cur.etype == HARDLINK ==> last.link == cur.link)
  {
    var a, b := last.prot, cur.prot;
    assert a == 16 * (a / 16) + a % 16 && b == 16 * (b / 16) + b % 16;
    if Archived(b) {
      assert WithoutArchive(a) == WithoutArchive(b) <==> b == Marked(a);
    }
  }

  // The same file the next time, its archive bit set and nothing else touched; it may not
  // even open any more.
  predicate SameMarked(f: Source, g: Source) {
    g.entry == f.entry.(prot := Marked(f.entry.prot)) && |g.data| == |f.data|
  }

  // Whatever was recorded of a file, read or reused, it is not read again.
  lemma RecordedIsSkipped(t: Tools, p: Pick, paranoid: bool, g: Source)
    requires Scanned(p.file.entry) && p.file.entry.etype == FILE && SameMarked(p.file, g)
    ensures CanSkip(Pick(g, Some(Recorded(t, p, paranoid))))
  {
    UnchangedMeans(Recorded(t, p, paranoid), Sized(g));
  }

  // A snapshot's entries for a path all show no change.
  ghost predicate KnownUnchanged(es: seq<Event>, f: Source) {
    && (exists e :: e in EntriesOf(es) && e.path == f.entry.path)
    && (forall e :: e in EntriesOf(es) && e.path == f.entry.path ==> Unchanged(e, Sized(f)))
  }

  lemma IndexHolds(es: seq<Event>, idx: seq<Entry>, e: Entry)
    requires multiset(idx) == multiset(EntriesOf(es))
    ensures e in idx <==> e in EntriesOf(es)
  {
    assert e in idx <==> e in multiset(idx);
    assert e in EntriesOf(es) <==> e in multiset(EntriesOf(es));
  }

  lemma KnownIsSure(t: Tools, es: seq<Event>, idx: seq<Entry>, f: Source, paranoid: bool, p: Pick)
    requires multiset(idx) == multiset(EntriesOf(es)) && KnownUnchanged(es, f) && f.examined
    requires !paranoid || |f.data| > CHUNK
    requires p.file == f && FromIndex(idx, p)
    ensures p.prev.Some? && p.prev.value in EntriesOf(es) && Spared(p, paranoid) && Sure(t, p, paranoid)
  {
    var e :| e in EntriesOf(es) && e.path == f.entry.path;
    IndexHolds(es, idx, e);
    assert e.path in Paths(idx);
    if p.prev.Some? {
      IndexHolds(es, idx, p.prev.value);
    }
  }

  lemma KnownFileIsSure(t: Tools, es: seq<Event>, idx: seq<Entry>, f: Source, paranoid: bool)
    requires multiset(idx) == multiset(EntriesOf(es)) && KnownUnchanged(es, f) && f.examined
    requires !paranoid || |f.data| > CHUNK
    ensures SureFile(t, f, idx, paranoid)
  {
    forall p: Pick | p.file == f && FromIndex(idx, p)
      ensures Sure(t, p, paranoid)
    {
      KnownIsSure(t, es, idx, f, paranoid, p);
    }
  }

  lemma SparedIsRecorded(t: Tools, run: Run, snap: Snap, vol: Volume, files: seq<Source>, paranoid: bool, k: nat)
    requires Completed(t, run, snap, vol, files, paranoid) && k < |run.picks|
    requires Spared(run.picks[k], paranoid) && run.picks[k].file.entry.etype == FILE
    ensures OnEntry(Sized(run.picks[k].file).(content := run.picks[k].prev.value.content)) in run.events
  {
    assert run.events[2 + k] == OnEntry(Recorded(t, run.picks[k], paranoid));
  }

  lemma PickIsFromIndex(t: Tools, run: Run, snap: Snap, vol: Volume, files: seq<Source>, paranoid: bool, k: nat)
    requires Completed(t, run, snap, vol, files, paranoid) && k < |run.picks|
    ensures FromIndex(run.idx, run.picks[k])
  {
    PickedIsFromIndex(files, run.picks, run.failed, run.idx);
  }

  // A run that goes by the snapshot before it records such a file with the references that
  // has for it, whether or not the file opens, and whatever happens to the others.
  lemma UnchangedIsReused(t: Tools, s0: Store, files: seq<Source>, paranoid: bool, stops: nat -> bool, run: Run,
                          s: Store, snap: Snap, vol: Volume, r: Result<string>, i: nat)
    returns (k: nat, e: Entry)
    requires GoodTools(t) && Succeeds(t, s0, files, paranoid, false, stops, run, s, snap, r) && Calm(files, stops)
    requires Completed(t, run, snap, vol, files, paranoid)
    requires Ids(s0) != {} && SnapshotEvents(t.cfg, s0, run.id).Some? && i < |files|
    requires KnownUnchanged(SnapshotEvents(t.cfg, s0, run.id).value, files[i])
    requires files[i].examined && files[i].entry.etype == FILE && (!paranoid || |files[i].data| > CHUNK)
    ensures k < |run.picks| && run.picks[k].file == files[i]
    ensures e in EntriesOf(SnapshotEvents(t.cfg, s0, run.id).value) && e.path == files[i].entry.path
    ensures OnEntry(Sized(files[i]).(content := e.content)) in run.events
  {
    var es := SnapshotEvents(t.cfg, s0, run.id).value;
    KnownFileIsSure(t, es, run.idx, files[i], paranoid);
    k := SureIsRecorded(t, files, run.picks, run.idx, paranoid, i);
    PickIsFromIndex(t, run, snap, vol, files, paranoid, k);
    KnownIsSure(t, es, run.idx, files[i], paranoid, run.picks[k]);
    e := run.picks[k].prev.value;
    SparedIsRecorded(t, run, snap, vol, files, paranoid, k);
  }

  // The entries a snapshot has for a file it recorded: that one.
  lemma OnlyEntryFor(t: Tools, run: Run, snap: Snap, vol: Volume, files: seq<Source>, paranoid: bool, j: nat, e: Entry)
    requires Completed(t, run, snap, vol, files, paranoid) && PathsDiffer(EntriesOf(run.events)) && j < |run.picks|
    ensures Recorded(t, run.picks[j], paranoid) in EntriesOf(run.events)
    ensures e in EntriesOf(run.events) && e.path == run.picks[j].file.entry.path ==> e == Recorded(t, run.picks[j], paranoid)
  {
    NoEntries(OnSnap(snap), OnVolume(vol));
    EntriesOfRun(t, [OnSnap(snap), OnVolume(vol)], run.picks, paranoid);
    var es := EntriesOf(run.events);
    assert es[j] == Recorded(t, run.picks[j], paranoid);
    if e in es && e.path == run.picks[j].file.entry.path {
      var k :| 0 <= k < |es| && es[k] == e;
      assert k == j;
    }
  }

  lemma RecordedIsKnown(t: Tools, run: Run, snap: Snap, vol: Volume, files: seq<Source>, paranoid: bool, j: nat, g: Source)
    requires Completed(t, run, snap, vol, files, paranoid) && PathsDiffer(EntriesOf(run.events)) && j < |run.picks|
    requires Scanned(run.picks[j].file.entry) && run.picks[j].file.entry.etype == FILE && SameMarked(run.picks[j].file, g)
    ensures KnownUnchanged(run.events, g)
  {
    var e := Recorded(t, run.picks[j], paranoid);
    OnlyEntryFor(t, run, snap, vol, files, paranoid, j, e);
    RecordedIsSkipped(t, run.picks[j], paranoid, g);
    forall e' | e' in EntriesOf(run.events) && e'.path == g.entry.path
      ensures Unchanged(e', Sized(g))
    {
      OnlyEntryFor(t, run, snap, vol, files, paranoid, j, e');
    }
  }

  // Backed up by one run and marked, then shown as it was: the next run records it with the
  // same references, even if it cannot be opened.
  lemma MarkedIsNotReadAgain(t: Tools, run: Run, snap: Snap, vol: Volume, files: seq<Source>, paranoid: bool, j: nat,
                             s: Store, id: string, run': Run, snap': Snap, vol': Volume, files': seq<Source>,
                             stops: nat -> bool, s': Store, r: Result<string>, i: nat)
    requires GoodTools(t) && Completed(t, run, snap, vol, files, paranoid) && PathsDiffer(EntriesOf(run.events))
    requires j < |run.picks| && Scanned(run.picks[j].file.entry) && run.picks[j].file.entry.etype == FILE
    requires |Ids(s)| <= 1024 && IsLatest(s, id) && SnapshotEvents(t.cfg, s, id) == Some(run.events)
    requires Completed(t, run', snap', vol', files', false) && Calm(files', stops)
    requires Succeeds(t, s, files', false, false, stops, run', s', snap', r)
    requires i < |files'| && files'[i].examined && SameMarked(run.picks[j].file, files'[i])
    ensures OnEntry(Sized(files'[i]).(content := Recorded(t, run.picks[j], paranoid).content)) in run'.events
  {
    IdsAreSnapshots(s, id);
    IdsAreSnapshots(s, run'.id);
    StrLessTotal(id, run'.id);
    RecordedIsKnown(t, run, snap, vol, files, paranoid, j, files'[i]);
    var k, e := UnchangedIsReused(t, s, files', false, stops, run', s', snap', vol', r, i);
    OnlyEntryFor(t, run, snap, vol, files, paranoid, j, e);
  }

  // ---- PARANOID -----------------------------------------------------------------------------------

  // Under PARANOID a file that was read in full and shows no change is reused when its bytes
  // are the same, and, if it is not longer than a chunk, only when their checksum is.
  lemma ParanoidCompares(t: Tools, f: Source, g: Source)
    requires Scanned(f.entry) && f.entry.etype == FILE && SameMarked(f, g)
    ensures g.data == f.data ==> Reuses(t, Pick(g, Some(FullEntry(t, f))), true)
    ensures |g.data| <= 262144 ==>
              (Reuses(t, Pick(g, Some(FullEntry(t, f))), true) <==> t.xxh(g.data) == t.xxh(f.data))
  {
    UnchangedMeans(FullEntry(t, f), Sized(g));
  }

  // ---- Which archive bits a run sets --------------------------------------------------------------

  ghost predicate SomePick(t: Tools, picks: seq<Pick>, paranoid: bool, noArchiveBit: bool, path: seq<byte>) {
    exists k :: 0 <= k < |picks| && Marks(t, picks[k], paranoid, noArchiveBit) && picks[k].file.entry.path == path
  }

  lemma {:induction false} MarkedAt(t: Tools, picks: seq<Pick>, paranoid: bool, noArchiveBit: bool, path: seq<byte>)
    ensures path in MarkedPaths(t, picks, paranoid, noArchiveBit) <==> SomePick(t, picks, paranoid, noArchiveBit, path)
    decreases |picks|
  {
    if picks != [] {
      var init, n := picks[..|picks| - 1], |picks| - 1;
      MarkedAt(t, init, paranoid, noArchiveBit, path);
      assert forall k :: 0 <= k < n ==> init[k] == picks[k];
    }
  }

  // Recorded, not a directory, and of at most so many bytes.
  ghost predicate RecordedUpTo(picks: seq<Pick>, path: seq<byte>, most: nat) {
    exists k :: 0 <= k < |picks| && picks[k].file.entry.path == path && picks[k].file.entry.etype != 2 && |picks[k].file.data| <= most
  }

  // A run that goes by the archive bit sets it on every file it recorded.
  lemma EveryFileIsMarked(t: Tools, picks: seq<Pick>, paranoid: bool, path: seq<byte>)
    ensures path in MarkedPaths(t, picks, paranoid, false) <==>
            exists k :: 0 <= k < |picks| && picks[k].file.entry.path == path && picks[k].file.entry.etype != 2
  {
    MarkedAt(t, picks, paranoid, false, path);
  }

  // A run that is not to use it sets it all the same, on the files it recorded that are no
  // longer than a chunk of 256 KiB, and on no others.
  lemma ShortFilesAreMarked(t: Tools, run: Run, snap: Snap, vol: Volume, files: seq<Source>, paranoid: bool, path: seq<byte>)
    requires Completed(t, run, snap, vol, files, paranoid) && run.idx == []
    ensures path in MarkedPaths(t, run.picks, paranoid, true) <==> RecordedUpTo(run.picks, path, 262144)
  {
    MarkedAt(t, run.picks, paranoid, true, path);
    forall k | 0 <= k < |run.picks|
      ensures Marks(t, run.picks[k], paranoid, true) <==>
              run.picks[k].file.entry.etype != 2 && |run.picks[k].file.data| <= 262144
    {
      PickIsFromIndex(t, run, snap, vol, files, paranoid, k);
      assert run.picks[k].prev.None?;
    }
  }
}
