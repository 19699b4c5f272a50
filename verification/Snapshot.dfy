// One SNAPSHOT run: lock, load the previous snapshot's index, record every scanned entry,
// commit, unlock.

module SnapshotRun {
  import opened BackendStore
  import opened Bytes
  import opened HexNames
  import opened Index
  import opened Manifest
  import opened Meta
  import opened Records
  import opened Reencoding
  import opened Repo
  import opened RepoWriters
  import opened Safety
  import opened SnapIds
  import opened Tlv

  const CHUNK: nat := 0x40000

  // ---- The lock --------------------------------------------------------------------------

  // amisnap_repo_lock_acquire: refused while the lock object is there.
  method AcquireLock(be: Backend, who: seq<byte>) returns (r: Option<Error>)
    modifies be
    ensures r.None? ==> Lock !in old(be.store) && be.store == old(be.store)[Lock := who]
    ensures Lock in old(be.store) ==> r.Some? && be.store == old(be.store)
    ensures be.store == old(be.store) || be.store == old(be.store)[Lock := who]
    ensures be.past == old(be.past) || be.past == old(be.past) + [be.store]
    ensures be.past == old(be.past) ==> be.store == old(be.store)
    ensures Reliable(be) && Lock !in old(be.store) ==> r.None?
  {
    var there := be.Exists(Lock);
    if there.Err? {
      return Some(there.error);
    }
    if there.value {
      return Some(Locked);
    }
    r := be.Put(Lock, who);
  }

  // amisnap_repo_lock_release: releasing twice is fine.
  method ReleaseLock(be: Backend) returns (r: Option<Error>)
    modifies be
    ensures be.store == old(be.store) || be.store == old(be.store) - {Lock}
    ensures r.None? ==> Lock !in be.store
    ensures Reliable(be) ==> r.None?
    ensures be.past == old(be.past) + [be.store]
  {
    r := be.Remove(Lock);
    if r == Some(NotFound) {
      r := None;
    }
  }

  lemma LockKeepsSafe(cfg: Config, u: Contents, s: Store, t: Store)
    requires GoodConfig(cfg) && Safe(cfg, s, u)
    requires forall k :: k != Lock ==> (k in s <==> k in t) && (k in s ==> s[k] == t[k])
    ensures Safe(cfg, t, u)
  {
    forall id: string | |id| == 16
      ensures GoodSnapshot(cfg, t, u, id)
    {
      assert GoodSnapshot(cfg, s, u, id);
      if SnapshotEvents(cfg, t, id).Some? {
        GoodRefsKept(cfg, u, s, t, Refs(SnapshotEvents(cfg, t, id).value));
      }
    }
  }

  // ---- One entry ---------------------------------------------------------------------------

  // A scanned entry, the bytes a file holds, and what goes wrong when it is looked at,
  // opened, read whole or read in chunks.
  datatype Source = Source(entry: Entry, data: seq<byte>, examined: bool, opens: bool, whole: bool, fails: nat -> bool)

  // What a scan fills in: a file's or a directory's own metadata, in the width of its fields.
  predicate Scanned(e: Entry) {
    && (e.etype == DIR || e.etype == FILE) && e.prot < U32 && ValidStamp(e.date)
    && (e.owner.Some? ==> e.owner.value.0 < U16 && e.owner.value.1 < U16)
    && e.size.None? && e.content == [] && e.link.None? && e.xhash.None?
  }

  ghost predicate GoodSource(u: Contents, f: Source) {
    |f.data| < U32 && SlicesIn(u, f.data) && Scanned(f.entry)
  }

  // Nothing goes wrong with the file; an empty one is not even opened.
  ghost predicate Intact(f: Source) {
    f.examined && (f.data == [] || (f.opens && f.whole)) && forall n :: !f.fails(n)
  }

  // A scanned entry with the entry the previous snapshot has for its path.
  datatype Pick = Pick(file: Source, prev: Option<Entry>)

  // The size is filled in before anything is compared.
  function Sized(f: Source): Entry {
    f.entry.(size := Some(|f.data|))
  }

  predicate CanSkip(p: Pick) {
    p.prev.Some? && Unchanged(p.prev.value, Sized(p.file))
  }

  function WholeRefs(t: Tools, data: seq<byte>): seq<Ref> {
    if data == [] then [] else [RefOf(t.cfg, data)]
  }

  // What reading the file gives: one object, or chunks when it is long.
  function FullEntry(t: Tools, f: Source): Entry {
    if f.entry.etype == DIR then f.entry
    else FileEntry(Sized(f), t, f.data,
                   if |f.data| > CHUNK then ChunkRefs(t.cfg, CHUNK, f.data) else WholeRefs(t, f.data))
  }

  // What is recorded: the previous references when the file counts as unchanged (in
  // paranoid mode short files are read and their checksum compared).
  function Recorded(t: Tools, p: Pick, paranoid: bool): Entry {
    if p.file.entry.etype == DIR || !CanSkip(p) then FullEntry(t, p.file)
    else if !paranoid || |p.file.data| > CHUNK then Sized(p.file).(content := p.prev.value.content)
    else if p.prev.value.xhash == Some(t.xxh(p.file.data)) then
      Sized(p.file).(content := p.prev.value.content, xhash := p.prev.value.xhash)
    else FullEntry(t, p.file)
  }

  predicate Reuses(t: Tools, p: Pick, paranoid: bool) {
    CanSkip(p) && (!paranoid || |p.file.data| > CHUNK || p.prev.value.xhash == Some(t.xxh(p.file.data)))
  }

  // Read in full or reused, the entry is the same but for its advisory checksum, as long
  // as the previous entry's references are those of the file's present bytes.
  lemma RecordedIsFull(t: Tools, p: Pick, paranoid: bool)
    requires CanSkip(p) ==> p.prev.value.content == FullEntry(t, p.file).content
    requires p.file.entry.xhash.None?
    ensures Recorded(t, p, paranoid).(xhash := None) == FullEntry(t, p.file).(xhash := None)
  {
  }

  datatype Outcome = Added(marked: bool) | Skipped | Stopped(error: Error)

  // fib_Size is signed: from 2 GiB on its 64-bit form is huge, and the file is chunked.
  function Signed64(size: nat): nat {
    if size < 0x8000_0000 then size else size + U64 - U32
  }

  // Reused without a look at its bytes.
  predicate Spared(p: Pick, paranoid: bool) {
    CanSkip(p) && (!paranoid || |p.file.data| > CHUNK)
  }

  // Whatever else goes wrong, this entry is recorded: a directory, or a file that could be
  // looked at and is reused unread, whether or not it opens, or is intact.
  ghost predicate Sure(t: Tools, p: Pick, paranoid: bool) {
    p.file.entry.etype == DIR
    || (p.file.examined && (Spared(p, paranoid) || (Intact(p.file) && Encodes(t, CHUNK))))
  }

  // The manifest is in order and the entry's strings fit it.
  ghost predicate Healthy(rw: RepoWriter, error: Option<Error>, e: Entry)
    reads rw
  {
    error.None? && rw.haveSnap && !TooLongEntry(e)
  }

  // The file is read and written: in chunks when it is long, whole otherwise.
  method RecordRead(rw: RepoWriter, f: Source) returns (r: Option<Error>)
    requires rw.Ready() && rw.Valid() && GoodSource(rw.u, f) && f.entry.etype != DIR
    modifies rw.be, rw.mw
    ensures rw.Valid() && Grown(rw.t.cfg, rw.u, old(rw.be.store), old(rw.be.past), rw.be.store, rw.be.past)
    ensures rw.mw.events == if r.Some? then old(rw.mw.events) else old(rw.mw.events) + [OnEntry(FullEntry(rw.t, f))]
    ensures r.None? ==> old(rw.mw.error).None? && rw.mw.error.None? && !TooLongEntry(Sized(f))
    ensures Healthy(rw, old(rw.mw.error), f.entry) ==> rw.mw.error.None?
    ensures Healthy(rw, old(rw.mw.error), f.entry) && Intact(f) && Encodes(rw.t, CHUNK) && Reliable(rw.be) ==> r.None?
  {
    var size := Signed64(|f.data|);
    WholeFile(f.data);
    if size > CHUNK {
      var src := new ChunkSource(f.data, f.fails);
      r := rw.FileChunked(Sized(f), size, CHUNK, src);
    } else {
      r := rw.File(Sized(f), f.data);
    }
  }

  lemma WholeFile(data: seq<byte>)
    requires |data| < U32
    ensures Head(data, Signed64(|data|)) == data && data[0..|data|] == data
    ensures |data| <= Signed64(|data|) < U64
  {
  }

  // Whether the file's archive bit is set once it is recorded: a short file that was read
  // is marked even when the bit is not to be used.
  predicate Marks(t: Tools, p: Pick, paranoid: bool, noArchiveBit: bool) {
    p.file.entry.etype != DIR && (!noArchiveBit || (!Reuses(t, p, paranoid) && |p.file.data| <= CHUNK))
  }

  lemma {:induction false} ChunkCount(cfg: Config, data: seq<byte>, pos: nat)
    requires pos <= |data| && GoodConfig(cfg)
    ensures |RefsFrom(cfg, CHUNK, data, pos)| * CHUNK < |data| - pos + CHUNK
    ensures forall r :: r in RefsFrom(cfg, CHUNK, data, pos) ==> |r.hash| == 32 && r.size <= CHUNK
    decreases |data| - pos
  {
    if pos < |data| {
      ChunkCount(cfg, data, if pos + CHUNK <= |data| then pos + CHUNK else |data|);
    }
  }

  // The entry of a file that was read fits a record: below 4 GiB it has at most 16384 chunks.
  lemma FullIsValid(t: Tools, u: Contents, f: Source)
    requires GoodTools(t) && GoodSource(u, f) && !TooLongEntry(f.entry)
    ensures ValidEvent(OnEntry(FullEntry(t, f)))
  {
    FullFits(t, u, f);
    FewRefsFit(FullEntry(t, f));
  }

  lemma FullFits(t: Tools, u: Contents, f: Source)
    requires GoodTools(t) && GoodSource(u, f) && !TooLongEntry(f.entry)
    ensures var e := FullEntry(t, f);
      FitsFields(e) && CompleteEntry(e) && |e.content| <= 16384
  {
    if f.entry.etype == FILE {
      ChunkCount(t.cfg, f.data, 0);
    }
  }

  // So does one that takes over the previous references: written anew it is no longer than
  // the record those were read from.
  lemma KnownIsValid(u: Contents, p: Pick, withSum: bool)
    requires GoodSource(u, p.file) && !TooLongEntry(p.file.entry) && CanSkip(p) && p.file.entry.etype != DIR
    requires p.prev.value.path == p.file.entry.path && ValidEvent(OnEntry(p.prev.value))
    ensures ValidEvent(OnEntry(KnownEntry(p, withSum)))
  {
    KnownFits(u, p, withSum);
    NoLongerFits(p.prev.value, KnownEntry(p, withSum));
  }

  lemma KnownFits(u: Contents, p: Pick, withSum: bool)
    requires GoodSource(u, p.file) && !TooLongEntry(p.file.entry) && CanSkip(p) && p.file.entry.etype != DIR
    requires p.prev.value.path == p.file.entry.path && ValidEvent(OnEntry(p.prev.value))
    ensures var e := KnownEntry(p, withSum);
      FitsFields(e) && CompleteEntry(e) && NoMoreThan(e, p.prev.value)
  {
  }

  lemma RecordedIsValid(t: Tools, u: Contents, p: Pick, paranoid: bool)
    requires GoodTools(t) && GoodSource(u, p.file) && !TooLongEntry(p.file.entry)
    requires p.prev.Some? ==> p.prev.value.path == p.file.entry.path && ValidEvent(OnEntry(p.prev.value))
    ensures ValidEvent(OnEntry(Recorded(t, p, paranoid)))
  {
    FullIsValid(t, u, p.file);
    if p.file.entry.etype != DIR {
      RecordedCases(t, p, paranoid);
      if Reuses(t, p, paranoid) {
        KnownIsValid(u, p, paranoid && |p.file.data| <= CHUNK);
      }
    }
  }

  // snapshot_on_entry
  method OnScanned(rw: RepoWriter, p: Pick, paranoid: bool, noArchiveBit: bool, stop: bool) returns (o: Outcome)
    requires rw.Ready() && rw.Valid() && GoodSource(rw.u, p.file)
    requires p.prev.Some? ==> GoodRefs(rw.t.cfg, rw.be.store, rw.u, p.prev.value.content)
    modifies rw.be, rw.mw
    ensures rw.Valid() && Grown(rw.t.cfg, rw.u, old(rw.be.store), old(rw.be.past), rw.be.store, rw.be.past)
    ensures rw.mw.events == if !o.Added? then old(rw.mw.events)
                            else old(rw.mw.events) + [OnEntry(Recorded(rw.t, p, paranoid))]
    ensures stop ==> o == Stopped(Aborted)
    ensures o.Stopped? ==> stop || p.file.entry.etype == DIR
    ensures o.Added? && p.file.entry.etype != DIR ==> p.file.examined
    ensures o.Added? ==> o.marked == Marks(rw.t, p, paranoid, noArchiveBit)
    ensures o.Added? ==> old(rw.mw.error).None? && rw.mw.error.None? && !TooLongEntry(p.file.entry)
    ensures !stop && Healthy(rw, old(rw.mw.error), p.file.entry) ==> rw.mw.error.None? && !o.Stopped?
    ensures !stop && Healthy(rw, old(rw.mw.error), p.file.entry) && Reliable(rw.be) && Sure(rw.t, p, paranoid) ==> o.Added?
  {
    GrownIsReflexive(rw.t.cfg, rw.u, rw.be.store, rw.be.past);
    if stop {
      return Stopped(Aborted);
    }
    if p.file.entry.etype == DIR {
      var e := rw.AddEntry(p.file.entry);
      return if e.Some? then Stopped(e.value) else Added(false);
    }
    if !p.file.examined {
      return Skipped;
    }
    o := OnFile(rw, p, paranoid, noArchiveBit);
  }

  // A file that could be looked at: reused when it is unchanged, read otherwise.
  method OnFile(rw: RepoWriter, p: Pick, paranoid: bool, noArchiveBit: bool) returns (o: Outcome)
    requires rw.Ready() && rw.Valid() && GoodSource(rw.u, p.file) && p.file.entry.etype != DIR
    requires p.prev.Some? ==> GoodRefs(rw.t.cfg, rw.be.store, rw.u, p.prev.value.content)
    modifies rw.be, rw.mw
    ensures rw.Valid() && Grown(rw.t.cfg, rw.u, old(rw.be.store), old(rw.be.past), rw.be.store, rw.be.past)
    ensures rw.mw.events == if !o.Added? then old(rw.mw.events)
                            else old(rw.mw.events) + [OnEntry(Recorded(rw.t, p, paranoid))]
    ensures !o.Stopped? && (o.Added? ==> o.marked == Marks(rw.t, p, paranoid, noArchiveBit))
    ensures o.Added? ==> old(rw.mw.error).None? && rw.mw.error.None? && !TooLongEntry(p.file.entry)
    ensures Healthy(rw, old(rw.mw.error), p.file.entry) ==> rw.mw.error.None?
    ensures Healthy(rw, old(rw.mw.error), p.file.entry) && Reliable(rw.be) && Sure(rw.t, p, paranoid) ==> o.Added?
  {
    GrownIsReflexive(rw.t.cfg, rw.u, rw.be.store, rw.be.past);
    var f := p.file;
    var large := Signed64(|f.data|) > CHUNK;
    RecordedCases(rw.t, p, paranoid);
    assert TooLongEntry(Sized(f)) == TooLongEntry(f.entry);
    if CanSkip(p) && (!paranoid || large) {
      o := RecordKnown(rw, p, false, noArchiveBit);
    } else {
      o := OnOpened(rw, p, paranoid, noArchiveBit, large);
    }
  }

  // A file that has to be opened.
  method OnOpened(rw: RepoWriter, p: Pick, ghost paranoid: bool, noArchiveBit: bool, large: bool) returns (o: Outcome)
    requires rw.Ready() && rw.Valid() && GoodSource(rw.u, p.file) && p.file.entry.etype != DIR
    requires p.prev.Some? ==> GoodRefs(rw.t.cfg, rw.be.store, rw.u, p.prev.value.content)
    requires large == (|p.file.data| > CHUNK) && !Spared(p, paranoid)
    modifies rw.be, rw.mw
    ensures rw.Valid() && Grown(rw.t.cfg, rw.u, old(rw.be.store), old(rw.be.past), rw.be.store, rw.be.past)
    ensures rw.mw.events == if !o.Added? then old(rw.mw.events)
                            else old(rw.mw.events) + [OnEntry(Recorded(rw.t, p, paranoid))]
    ensures !o.Stopped? && (o.Added? ==> o.marked == Marks(rw.t, p, paranoid, noArchiveBit))
    ensures o.Added? ==> old(rw.mw.error).None? && rw.mw.error.None? && !TooLongEntry(p.file.entry)
    ensures Healthy(rw, old(rw.mw.error), p.file.entry) ==> rw.mw.error.None?
    ensures Healthy(rw, old(rw.mw.error), p.file.entry) && Reliable(rw.be) && Intact(p.file) && Encodes(rw.t, CHUNK) ==> o.Added?
  {
    GrownIsReflexive(rw.t.cfg, rw.u, rw.be.store, rw.be.past);
    RecordedCases(rw.t, p, paranoid);
    var f := p.file;
    if |f.data| > 0 && (!f.opens || (!large && !f.whole)) {
      return Skipped;
    } else if CanSkip(p) && p.prev.value.xhash == Some(rw.t.xxh(f.data)) {
      o := RecordKnown(rw, p, true, noArchiveBit);
    } else {
      var rc := RecordRead(rw, f);
      return if rc.Some? then Skipped else Added(!large || !noArchiveBit);
    }
  }

  function KnownEntry(p: Pick, withSum: bool): Entry
    requires p.prev.Some?
  {
    var e := Sized(p.file).(content := p.prev.value.content);
    if withSum then e.(xhash := p.prev.value.xhash) else e
  }

  lemma RecordedCases(t: Tools, p: Pick, paranoid: bool)
    requires p.file.entry.etype != DIR && |p.file.data| < U32
    ensures Signed64(|p.file.data|) > CHUNK <==> |p.file.data| > CHUNK
    ensures Reuses(t, p, paranoid) ==> Recorded(t, p, paranoid) == KnownEntry(p, paranoid && |p.file.data| <= CHUNK)
    ensures !Reuses(t, p, paranoid) ==> Recorded(t, p, paranoid) == FullEntry(t, p.file)
  {
  }

  // The previous references under the present metadata.
  method RecordKnown(rw: RepoWriter, p: Pick, withSum: bool, noArchiveBit: bool) returns (o: Outcome)
    requires rw.Ready() && rw.Valid() && p.prev.Some?
    requires GoodRefs(rw.t.cfg, rw.be.store, rw.u, p.prev.value.content)
    modifies rw.mw
    ensures rw.Valid()
    ensures rw.mw.events == if o == Skipped then old(rw.mw.events)
                            else old(rw.mw.events) + [OnEntry(KnownEntry(p, withSum))]
    ensures o == if rw.mw.error.Some? then Skipped else Added(!noArchiveBit)
    ensures rw.mw.error.None? <==> old(rw.mw.error).None? && rw.haveSnap && !TooLongEntry(p.file.entry)
  {
    var rc := rw.AddEntry(KnownEntry(p, withSum));
    return if rc.Some? then Skipped else Added(!noArchiveBit);
  }

  // ---- The previous snapshot ---------------------------------------------------------------

  predicate IsManifestName(n: string) {
    |n| == 19 && n[16..] == SUFFIX
  }

  // amisnap_repo_list_snapshots: names of any other shape are passed over.
  method ListSnapshots(be: Backend) returns (ids: seq<string>, error: Option<Error>)
    modifies be`clock
    ensures Distinct(ids)
    ensures forall id :: id in ids ==> |id| == 16 && ManifestKey(id) in be.store
    ensures error.None? ==> forall id: string :: |id| == 16 && ManifestKey(id) in be.store ==> id in ids
    ensures error.Some? ==> error == Some(Io) && !Reliable(be)
  {
    var names;
    names, error := be.List(Snapshots);
    ids := [];
    for i := 0 to |names|
      invariant Distinct(ids)
      invariant forall id :: id in ids ==> |id| == 16 && id + SUFFIX in names[..i] && ManifestKey(id) in be.store
      invariant forall id: string :: |id| == 16 && id + SUFFIX in names[..i] ==> id in ids
    {
      assert names[..i + 1] == names[..i] + [names[i]];
      if IsManifestName(names[i]) {
        NameOfId(names[i]);
        assert Listed(Snapshots, be.store, names[i]);
        ids := ids + [names[i][..16]];
      } else {
        NotAnId(names[i]);
      }
    }
    forall id: string | |id| == 16 && ManifestKey(id) in be.store && error.None?
      ensures id in ids
    {
      assert Child(Snapshots, ManifestKey(id)) == Some(id + SUFFIX);
      assert Listed(Snapshots, be.store, id + SUFFIX);
      assert names[..|names|] == names;
    }
  }

  lemma NameOfId(n: string)
    requires IsManifestName(n)
    ensures n[..16] + SUFFIX == n && forall id: string :: id + SUFFIX == n ==> id == n[..16]
  {
    forall id: string | id + SUFFIX == n
      ensures id == n[..16]
    {
      assert (id + SUFFIX)[..|id|] == id;
    }
  }

  lemma NotAnId(n: string)
    requires !IsManifestName(n)
    ensures forall id: string :: |id| == 16 ==> id + SUFFIX != n
  {
    forall id: string | |id| == 16
      ensures id + SUFFIX != n
    {
      assert (id + SUFFIX)[16..] == SUFFIX;
    }
  }

  // The entries of some readable snapshot, sorted by path.
  ghost predicate IsIndexOf(cfg: Config, s: Store, id: string, idx: seq<Entry>)
    requires GoodConfig(cfg)
  {
    && |id| == 16 && SnapshotEvents(cfg, s, id).Some? && SortedByPath(idx)
    && multiset(idx) == multiset(EntriesOf(SnapshotEvents(cfg, s, id).value))
  }

  // The snapshots of a store, by id.
  ghost function Ids(s: Store): set<string> {
    set k | k in s && k.Snapshot? && IsManifestName(k.name) :: k.name[..16]
  }

  ghost predicate IsLatest(s: Store, id: string) {
    && |id| == 16 && ManifestKey(id) in s
    && forall x: string :: |x| == 16 && ManifestKey(x) in s ==> !StrLess(id, x)
  }

  // The index a run goes by: none, or that of a snapshot that could be read; the latest, as
  // long as a listing takes them all.
  ghost predicate UsedIndex(cfg: Config, s: Store, id: string, idx: seq<Entry>)
    requires GoodConfig(cfg)
  {
    idx == [] || (IsIndexOf(cfg, s, id, idx) && (|Ids(s)| <= 1024 ==> IsLatest(s, id)))
  }

  // The index that ought to be used: that of the snapshot resolved, if there is one and it
  // can be read.
  ghost predicate Previous(cfg: Config, s: Store, id: string, idx: seq<Entry>)
    requires GoodConfig(cfg)
  {
    if Ids(s) == {} then idx == []
    else
      && id in Ids(s) && (|Ids(s)| <= 1024 ==> IsLatest(s, id))
      && if SnapshotEvents(cfg, s, id).Some? then IsIndexOf(cfg, s, id, idx) else idx == []
  }

  lemma IdsAreSnapshots(s: Store, id: string)
    ensures id in Ids(s) <==> |id| == 16 && ManifestKey(id) in s
  {
    if id in Ids(s) {
      var k :| k in s && k.Snapshot? && IsManifestName(k.name) && id == k.name[..16];
      NameOfId(k.name);
    }
    if |id| == 16 && ManifestKey(id) in s {
      assert (id + SUFFIX)[..16] == id && (id + SUFFIX)[16..] == SUFFIX;
      assert IsManifestName(ManifestKey(id).name);
    }
  }

  lemma {:induction false} DistinctCount(ids: seq<string>, all: set<string>)
    requires Distinct(ids) && forall id :: id in ids ==> id in all
    ensures |ids| <= |all|
    decreases |ids|
  {
    if ids != [] {
      var last := ids[|ids| - 1];
      DistinctCount(ids[..|ids| - 1], all - {last});
    }
  }

  // resolve_snapid when no id was asked for: up to the listing limit, the latest.
  method ResolveLatest(be: Backend) returns (r: Result<string>)
    modifies be`clock
    ensures r.Ok? ==> |r.value| == 16 && ManifestKey(r.value) in be.store
    ensures r.Ok? && |Ids(be.store)| <= 1024 ==> IsLatest(be.store, r.value)
    ensures r == Err(NotFound) ==> Ids(be.store) == {}
    ensures r.Err? ==> r.error == NotFound || (r.error == Io && !Reliable(be))
  {
    var ids, error := ListSnapshots(be);
    if error.Some? {
      return Err(error.value);
    }
    forall id
      ensures id in Ids(be.store) <==> id in ids
    {
      IdsAreSnapshots(be.store, id);
    }
    if |ids| == 0 {
      return Err(NotFound);
    }
    var sorted := ListAll(ids);
    LastIsLatest(be.store, ids, sorted);
    return Ok(sorted[|sorted| - 1]);
  }

  lemma LastIsLatest(s: Store, ids: seq<string>, sorted: seq<string>)
    requires ids != [] && Distinct(ids) && sorted == ListAll(ids)
    requires forall id :: id in Ids(s) <==> id in ids
    ensures sorted != [] && sorted[|sorted| - 1] in ids
    ensures |sorted[|sorted| - 1]| == 16 && ManifestKey(sorted[|sorted| - 1]) in s
    ensures |Ids(s)| <= 1024 ==> IsLatest(s, sorted[|sorted| - 1])
  {
    var cut := if |ids| <= MAX_SNAPSHOTS then ids else ids[..MAX_SNAPSHOTS];
    SortIsSorted(cut);
    assert cut[0] in multiset(cut);
    assert cut[0] in multiset(sorted);
    var latest := sorted[|sorted| - 1];
    assert latest in multiset(sorted);
    assert latest in multiset(cut);
    IdsAreSnapshots(s, latest);
    if |Ids(s)| <= MAX_SNAPSHOTS {
      DistinctCount(ids, Ids(s));
      forall x: string | |x| == 16 && ManifestKey(x) in s
        ensures !StrLess(latest, x)
      {
        IdsAreSnapshots(s, x);
        assert x in multiset(cut);
        assert x in multiset(sorted);
        var i :| 0 <= i < |sorted| && sorted[i] == x;
        StrLessTotal(x, x);
      }
    }
  }

  // The index of the latest snapshot; none when there is no snapshot or it cannot be read.
  method LoadIndex(be: Backend, cfg: Config) returns (idx: Option<seq<Entry>>, ghost id: string)
    requires GoodConfig(cfg)
    modifies be`clock
    ensures idx.Some? ==> IsIndexOf(cfg, be.store, id, idx.value)
    ensures id != "" && |Ids(be.store)| <= 1024 ==> IsLatest(be.store, id)
    ensures Reliable(be) ==> Previous(cfg, be.store, id, if idx.Some? then idx.value else [])
  {
    id := "";
    var latest := ResolveLatest(be);
    if latest.Err? {
      return None, id;
    }
    id := latest.value;
    IdsAreSnapshots(be.store, id);
    var raw := be.Get(ManifestKey(latest.value));
    if raw.Err? {
      return None, id;
    }
    var plain := OpenManifestFile(cfg, latest.value, raw.value);
    if plain.Err? {
      return None, id;
    }
    var built := Build(plain.value, cfg.hash);
    return if built.Ok? then Some(built.value) else None, id;
  }

  lemma {:induction false} EntryRefsAreRefs(es: seq<Event>, e: Entry, r: Ref)
    requires e in EntriesOf(es) && r in e.content
    ensures r in Refs(es)
    decreases |es|
  {
    var init := es[..|es| - 1];
    if e in EntriesOf(init) {
      EntryRefsAreRefs(init, e, r);
    }
  }

  // What an index holds fits the records it came from.
  lemma IndexIsValid(cfg: Config, s: Store, id: string, idx: seq<Entry>, e: Entry)
    requires GoodConfig(cfg) && IsIndexOf(cfg, s, id, idx) && e in idx
    ensures ValidEvent(OnEntry(e))
  {
    var es := SnapshotEvents(cfg, s, id).value;
    DecodedIsValid(OpenManifest(cfg, id, s[ManifestKey(id)]).value, cfg.hash);
    assert e in multiset(idx);
    EntryIsEvent(es, e);
  }

  lemma {:induction false} EntryIsEvent(es: seq<Event>, e: Entry)
    requires e in EntriesOf(es)
    ensures OnEntry(e) in es
    decreases |es|
  {
    var init := es[..|es| - 1];
    if e in EntriesOf(init) {
      EntryIsEvent(init, e);
    }
  }

  // In a safe store everything an index refers to is there.
  lemma IndexRefsAreGood(cfg: Config, s: Store, u: Contents, id: string, idx: seq<Entry>, e: Entry)
    requires GoodConfig(cfg) && Safe(cfg, s, u) && IsIndexOf(cfg, s, id, idx) && e in idx
    ensures GoodRefs(cfg, s, u, e.content)
  {
    var es := SnapshotEvents(cfg, s, id).value;
    assert GoodSnapshot(cfg, s, u, id);
    assert e in multiset(idx);
    assert e in EntriesOf(es);
    forall i | 0 <= i < |e.content|
      ensures GoodRef(cfg, s, u, e.content[i])
    {
      EntryRefsAreRefs(es, e, e.content[i]);
      var j :| 0 <= j < |Refs(es)| && Refs(es)[j] == e.content[i];
      assert GoodRef(cfg, s, u, Refs(es)[j]);
    }
  }
}
