// What one incremental run records, next to what reading every file would have recorded.

module Incremental {
  import opened BackendStore
  import opened Bytes
  import opened Index
  import opened Manifest
  import opened Meta
  import opened Records
  import opened Repo
  import opened RepoWriters
  import opened Safety
  import opened SnapshotMain
  import opened SnapshotRun
  import opened Tlv

  // What a path held while it carried a datestamp.
  datatype Version = Version(path: seq<byte>, date: Stamp, data: seq<byte>)

  type Versions = iset<Version>

  predicate Alike(a: Version, b: Version) {
    a.path == b.path && a.date == b.date && |a.data| == |b.data|
  }

  // A path that carries a stamp again, at the same length, holds the same bytes again.
  ghost predicate StampsTell(vs: Versions) {
    forall a, b :: a in vs && b in vs && Alike(a, b) ==> a == b
  }

  function RefsOfFile(t: Tools, data: seq<byte>): seq<Ref> {
    if |data| > CHUNK then ChunkRefs(t.cfg, CHUNK, data) else WholeRefs(t, data)
  }

  // A manifest entry made from this version of the file.
  predicate IsOf(t: Tools, v: Version, n: Entry) {
    v.path == n.path && v.date == n.date && n.content == RefsOfFile(t, v.data) && n.size == Some(|v.data|)
  }

  ghost predicate TrueEntry(t: Tools, vs: Versions, n: Entry) {
    n.etype != DIR ==> exists v :: v in vs && IsOf(t, v, n)
  }

  ghost predicate TrueEvents(t: Tools, vs: Versions, es: seq<Event>) {
    forall i :: 0 <= i < |es| && es[i].OnEntry? ==> TrueEntry(t, vs, es[i].entry)
  }

  // Every readable snapshot tells the truth.
  ghost predicate TrueStore(t: Tools, vs: Versions, s: Store)
    requires GoodConfig(t.cfg)
  {
    forall id: string :: SnapshotEvents(t.cfg, s, id).Some? ==> TrueEvents(t, vs, SnapshotEvents(t.cfg, s, id).value)
  }

  function VersionOf(f: Source): Version {
    Version(f.entry.path, f.entry.date, f.data)
  }

  ghost predicate SeenAll(vs: Versions, files: seq<Source>) {
    forall f :: f in files ==> Scanned(f.entry) && (f.entry.etype != DIR ==> VersionOf(f) in vs)
  }

  lemma {:induction false} EntriesAreTrue(t: Tools, vs: Versions, es: seq<Event>, e: Entry)
    requires TrueEvents(t, vs, es) && e in EntriesOf(es)
    ensures TrueEntry(t, vs, e)
    decreases |es|
  {
    var init := es[..|es| - 1];
    if e in EntriesOf(init) {
      EntriesAreTrue(t, vs, init, e);
    }
  }

  // One entry: reused or read, it is what a full scan gives, and the truth.
  lemma PickIsFull(t: Tools, vs: Versions, p: Pick, paranoid: bool)
    requires StampsTell(vs) && Scanned(p.file.entry) && (p.file.entry.etype != DIR ==> VersionOf(p.file) in vs)
    requires p.prev.Some? ==> TrueEntry(t, vs, p.prev.value) && p.prev.value.path == p.file.entry.path
    ensures Recorded(t, p, paranoid).(xhash := None) == FullEntry(t, p.file).(xhash := None)
    ensures TrueEntry(t, vs, Recorded(t, p, paranoid))
  {
    if p.file.entry.etype != DIR {
      if CanSkip(p) {
        var v :| v in vs && IsOf(t, v, p.prev.value);
        assert Alike(v, VersionOf(p.file));
      }
      RecordedIsFull(t, p, paranoid);
      assert IsOf(t, VersionOf(p.file), Recorded(t, p, paranoid));
    }
  }

  lemma PrevIsTrue(t: Tools, vs: Versions, s: Store, run: Run, p: Pick)
    requires GoodConfig(t.cfg) && TrueStore(t, vs, s)
    requires UsedIndex(t.cfg, s, run.id, run.idx)
    requires FromIndex(run.idx, p) && p.prev.Some?
    ensures TrueEntry(t, vs, p.prev.value)
  {
    var es := SnapshotEvents(t.cfg, s, run.id).value;
    assert p.prev.value in multiset(run.idx);
    assert p.prev.value in EntriesOf(es);
    EntriesAreTrue(t, vs, es, p.prev.value);
  }

  // ---- One run -----------------------------------------------------------------------------

  // A run that got as far as a manifest: the files it scanned and what it recorded.
  datatype Commit = Commit(run: Run, snap: Snap, vol: Volume, files: seq<Source>, paranoid: bool)

  ghost predicate ProperRun(t: Tools, vs: Versions, s: Store, c: Commit)
    requires GoodConfig(t.cfg)
  {
    && Completed(t, c.run, c.snap, c.vol, c.files, c.paranoid) && SeenAll(vs, c.files)
    && UsedIndex(t.cfg, s, c.run.id, c.run.idx)
  }

  // What a scan that read every file would have recorded of those that did not fail.
  function FullEvents(t: Tools, c: Commit): seq<Event> {
    [OnSnap(c.snap), OnVolume(c.vol)]
    + seq(|c.run.picks|, i requires 0 <= i < |c.run.picks| => OnEntry(FullEntry(t, c.run.picks[i].file)))
  }

  // The same events but for the advisory checksum.
  ghost predicate SameButSum(a: seq<Event>, b: seq<Event>) {
    |a| == |b| && forall i :: 0 <= i < |a| ==>
      a[i] == b[i]
      || (a[i].OnEntry? && b[i].OnEntry? && a[i].entry.(xhash := None) == b[i].entry.(xhash := None))
  }

  lemma PicksAreFull(t: Tools, vs: Versions, s: Store, c: Commit, i: nat)
    requires GoodConfig(t.cfg) && StampsTell(vs) && TrueStore(t, vs, s) && ProperRun(t, vs, s, c) && i < |c.run.picks|
    ensures Recorded(t, c.run.picks[i], c.paranoid).(xhash := None) == FullEntry(t, c.run.picks[i].file).(xhash := None)
    ensures TrueEntry(t, vs, Recorded(t, c.run.picks[i], c.paranoid))
  {
    var p := c.run.picks[i];
    PickedIsFromIndex(c.files, c.run.picks, c.run.failed, c.run.idx);
    assert p.file in c.files;
    if p.prev.Some? {
      PrevIsTrue(t, vs, s, c.run, p);
    }
    PickIsFull(t, vs, p, c.paranoid);
  }

  // The incremental manifest is the full one, and true.
  lemma RunIsFull(t: Tools, vs: Versions, s: Store, c: Commit)
    requires GoodConfig(t.cfg) && StampsTell(vs) && TrueStore(t, vs, s) && ProperRun(t, vs, s, c)
    ensures SameButSum(c.run.events, FullEvents(t, c)) && TrueEvents(t, vs, c.run.events)
  {
    var es, full := c.run.events, FullEvents(t, c);
    forall i | 2 <= i < |es|
      ensures es[i].OnEntry? && full[i].OnEntry? && es[i].entry.(xhash := None) == full[i].entry.(xhash := None)
      ensures TrueEntry(t, vs, es[i].entry)
    {
      PicksAreFull(t, vs, s, c, i - 2);
    }
    assert es[0] == full[0] && es[1] == full[1];
  }

  // ---- What the recorded events hold ---------------------------------------------------------

  lemma EntriesSnoc(es: seq<Event>, e: Entry)
    ensures EntriesOf(es + [OnEntry(e)]) == EntriesOf(es) + [e]
  {
    assert (es + [OnEntry(e)])[..|es|] == es;
  }

  // The entries of a run's manifest are what was recorded, in order.
  lemma {:induction false} EntriesOfRun(t: Tools, head: seq<Event>, picks: seq<Pick>, paranoid: bool)
    requires EntriesOf(head) == []
    ensures EntriesOf(head + EntryEvents(t, picks, paranoid))
            == seq(|picks|, i requires 0 <= i < |picks| => Recorded(t, picks[i], paranoid))
    decreases |picks|
  {
    if picks == [] {
      assert head + EntryEvents(t, picks, paranoid) == head;
    } else {
      var init, p := picks[..|picks| - 1], picks[|picks| - 1];
      EntriesOfRun(t, head, init, paranoid);
      assert init + [p] == picks;
      EntryEventsSnoc(head, t, init, p, paranoid);
      EntriesSnoc(head + EntryEvents(t, init, paranoid), Recorded(t, p, paranoid));
    }
  }

  lemma NoEntries(a: Event, b: Event)
    requires !a.OnEntry? && !b.OnEntry?
    ensures EntriesOf([a, b]) == []
  {
    assert [a, b][..1] == [a] && [a][..0] == [];
    assert EntriesOf([a]) == EntriesOf([a][..0]) + [];
  }

  // Whole or in chunks, the references put together are the file.
  lemma FileRefsSplit(t: Tools, u: Contents, data: seq<byte>)
    requires SlicesIn(u, data)
    ensures Splits(t.cfg, u, RefsOfFile(t, data), data)
  {
    if |data| > CHUNK {
      ChunksSplit(t.cfg, u, CHUNK, data);
    } else if data != [] {
      assert data[0..|data|] == data;
      var r := RefOf(t.cfg, data);
      SplitsSnoc(t.cfg, u, [], [], data, r, data);
      assert [] + [r] == [r];
    }
  }

  // References determine the bytes.
  lemma DifferentRefs(t: Tools, u: Contents, a: seq<byte>, b: seq<byte>)
    requires NoCollision(t.cfg, u) && SlicesIn(u, a) && SlicesIn(u, b) && RefsOfFile(t, a) == RefsOfFile(t, b)
    ensures a == b
  {
    FileRefsSplit(t, u, a);
    FileRefsSplit(t, u, b);
    SplitsOnce(t.cfg, u, RefsOfFile(t, a), a, b);
  }
}
