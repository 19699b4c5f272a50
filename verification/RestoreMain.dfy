// The whole RESTORE: the full check first, then content, then metadata in reverse.

module RestoreMain {
  import opened BackendStore
  import opened Bytes
  import opened Index
  import opened Manifest
  import opened ManifestProofs
  import opened Meta
  import opened Repo
  import opened RepoWriters
  import opened Restore
  import opened RestoreRun
  import opened Safety

  lemma OneMoreFile(cfg: Config, s: Store, o: Options, es: seq<Entry>, i: nat, files: map<seq<byte>, seq<byte>>)
    requires GoodConfig(cfg) && EntriesSound(cfg, s, es) && i < |es|
    ensures EntriesSound(cfg, s, es[..i]) && EntriesSound(cfg, s, es[..i + 1]) && AllSound(cfg, s, es[i].content, true)
    ensures FilesAfter(cfg, s, o, es[..i + 1], files) ==
            if !Wanted(o, es[i]) || es[i].etype == DIR then FilesAfter(cfg, s, o, es[..i], files)
            else FilesAfter(cfg, s, o, es[..i], files)[es[i].path := ContentOf(cfg, s, es[i].content)]
  {
    var some := es[..i + 1];
    assert some[..i] == es[..i] && some[i] == es[i];
  }

  lemma OneMoreEntry(o: Options, es: seq<Entry>, i: nat, dirs: set<seq<byte>>)
    requires i < |es|
    ensures DirsAfter(o, es[..i + 1], dirs) ==
            if !Wanted(o, es[i]) || es[i].etype != DIR then DirsAfter(o, es[..i], dirs)
            else DirsAfter(o, es[..i], dirs) + {es[i].path}
    ensures TallyOf(o, es[..i + 1]) == Counted(o, es[i], TallyOf(o, es[..i]))
  {
    var some := es[..i + 1];
    assert some[..i] == es[..i] && some[i] == es[i];
  }

  lemma OneMorePath(o: Options, es: seq<Entry>, i: nat)
    requires i < |es| && PathsFit(o, es[..i])
    requires Wanted(o, es[i]) ==> SafePath(es[i].path) && |es[i].path| + 1 <= PATH_BUF
    ensures PathsFit(o, es[..i + 1])
  {
  }

  // The content pass over every entry.
  method RestoreEntries(repo: Backend, cfg: Config, dest: Destination, o: Options, es: seq<Entry>)
    returns (status: Option<Error>, t: Tally)
    requires GoodConfig(cfg) && EntriesSound(cfg, repo.store, es) && dest.pending.None?
    modifies repo`clock, dest
    ensures dest.pending.None? && dest.ops >= old(dest.ops)
    ensures status.None? ==> dest.files == FilesAfter(cfg, repo.store, o, es, old(dest.files))
    ensures status.None? ==> dest.dirs == DirsAfter(o, es, old(dest.dirs)) && t == TallyOf(o, es) && PathsFit(o, es)
    ensures status.Some? ==> status.value in {Aborted, UnsafePath, TooLong, Io}
    ensures status.Some? && status.value in {UnsafePath, TooLong} ==> !PathsFit(o, es)
    ensures status == Some(Aborted) ==> exists n :: o.aborts(n)
    ensures status == Some(Io) ==> !(Reliable(repo) && dest.Steady())
  {
    t := Tally(0, 0, 0, 0);
    for i := 0 to |es|
      invariant dest.pending.None? && dest.ops >= old(dest.ops) && EntriesSound(cfg, repo.store, es[..i])
      invariant dest.files == FilesAfter(cfg, repo.store, o, es[..i], old(dest.files))
      invariant dest.dirs == DirsAfter(o, es[..i], old(dest.dirs)) && t == TallyOf(o, es[..i]) && PathsFit(o, es[..i])
    {
      OneMoreFile(cfg, repo.store, o, es, i, old(dest.files));
      OneMoreEntry(o, es, i, old(dest.dirs));
      status, t := RestoreOne(repo, cfg, dest, o, es[i], o.aborts(i), t);
      if status.Some? {
        return;
      }
      OneMorePath(o, es, i);
    }
    assert es[..|es|] == es;
    return None, t;
  }

  // The order metadata is applied in: last entry first, leaving out what was not restored.
  function MetaOrder(o: Options, es: seq<Entry>): seq<Entry> {
    if es == [] then []
    else (if Wanted(o, es[|es| - 1]) then [es[|es| - 1]] else []) + MetaOrder(o, es[..|es| - 1])
  }

  lemma PrefixOfOrder(a: seq<Entry>, b: seq<Entry>, all: seq<Entry>)
    requires a + b == all
    ensures a <= all
  {
  }

  // apply_metadata_reverse
  method ApplyReverse(o: Options, es: seq<Entry>) returns (status: Option<Error>, applied: seq<Entry>)
    ensures status.None? ==> applied == MetaOrder(o, es)
    ensures status.Some? ==> status == Some(Aborted) && applied <= MetaOrder(o, es)
    ensures status.Some? <==> exists i :: |es| <= i < 2 * |es| && o.aborts(i)
  {
    applied := [];
    var i := |es|;
    assert es[..|es|] == es;
    while i > 0
      invariant 0 <= i <= |es| && applied + MetaOrder(o, es[..i]) == MetaOrder(o, es)
      invariant forall k :: |es| <= k < |es| + (|es| - i) ==> !o.aborts(k)
    {
      assert es[..i][..i - 1] == es[..i - 1];
      var k := |es| + (|es| - i);
      if o.aborts(k) {
        PrefixOfOrder(applied, MetaOrder(o, es[..i]), MetaOrder(o, es));
        return Some(Aborted), applied;
      }
      var e := es[i - 1];
      if Wanted(o, e) {
        applied := applied + [e];
      }
      i := i - 1;
    }
    return None, applied;
  }

  // ---- amisnap_restore_manifest ------------------------------------------------------------

  // The snapshot can be read and every object it refers to fetched and checked.
  ghost predicate CheckPasses(cfg: Config, s: Store, id: string, file: seq<byte>)
    requires GoodConfig(cfg)
  {
    EventsOf(cfg, id, file).Some? && AllSound(cfg, s, Refs(EventsOf(cfg, id, file).value), true)
  }

  lemma {:induction false} EntriesAreSound(cfg: Config, s: Store, es: seq<Event>)
    requires GoodConfig(cfg) && AllSound(cfg, s, Refs(es), true)
    ensures EntriesSound(cfg, s, EntriesOf(es))
    decreases |es|
  {
    if es != [] {
      var init, last := es[..|es| - 1], es[|es| - 1];
      var a, b := Refs(init), if last.OnEntry? then last.entry.content else [];
      assert Refs(es) == a + b;
      SoundParts(cfg, s, a, b);
      EntriesAreSound(cfg, s, init);
    }
  }

  lemma SoundParts(cfg: Config, s: Store, a: seq<Ref>, b: seq<Ref>)
    requires GoodConfig(cfg) && AllSound(cfg, s, a + b, true)
    ensures AllSound(cfg, s, a, true) && AllSound(cfg, s, b, true)
  {
    forall i | 0 <= i < |b|
      ensures Sound(cfg, s, b[i], true)
    {
      assert (a + b)[|a| + i] == b[i];
      assert Sound(cfg, s, (a + b)[|a| + i], true);
    }
    forall i | 0 <= i < |a|
      ensures Sound(cfg, s, a[i], true)
    {
      assert (a + b)[i] == a[i];
      assert Sound(cfg, s, (a + b)[i], true);
    }
  }

  // When the check fails the destination is not touched. When it passes, what can still go
  // wrong is I/O, a path that is unsafe or too long, or the user stopping it: no object that
  // was checked is found missing or damaged later.
  method RestoreManifest(repo: Backend, cfg: Config, dest: Destination, id: string, file: seq<byte>, o: Options)
    returns (status: Option<Error>, t: Tally, applied: seq<Entry>)
    requires GoodConfig(cfg) && dest.pending.None?
    modifies repo`clock, dest
    ensures !CheckPasses(cfg, repo.store, id, file) ==>
              status.Some? && dest.ops == old(dest.ops) && dest.files == old(dest.files) && dest.dirs == old(dest.dirs)
    ensures dest.ops > old(dest.ops) && status.Some? ==> status.value in {Aborted, UnsafePath, TooLong, Io}
    ensures status.None? ==> CheckPasses(cfg, repo.store, id, file)
    ensures status.None? ==> RestoredAs(cfg, repo.store, id, file, o, old(dest.files), old(dest.dirs), dest.files, dest.dirs)
    ensures status.None? ==> var es := EntriesOf(EventsOf(cfg, id, file).value);
              t == TallyOf(o, es) && PathsFit(o, es) && (applied == if o.metadata then MetaOrder(o, es) else [])
    ensures Reliable(repo) && dest.Steady() && CheckPasses(cfg, repo.store, id, file) && (forall n :: !o.aborts(n)) ==>
              (status.None? <==> PathsFit(o, EntriesOf(EventsOf(cfg, id, file).value)))
  {
    t, applied := Tally(0, 0, 0, 0), [];
    status := FullCheck(repo, cfg, id, file);
    if status.Some? {
      return;
    }
    status, t, applied := RestoreChecked(repo, cfg, dest, id, file, o);
  }

  // The check of the whole snapshot, before anything is written.
  method FullCheck(repo: Backend, cfg: Config, id: string, file: seq<byte>) returns (status: Option<Error>)
    requires GoodConfig(cfg)
    modifies repo`clock
    ensures status.None? ==> CheckPasses(cfg, repo.store, id, file)
    ensures Reliable(repo) && CheckPasses(cfg, repo.store, id, file) ==> status.None?
  {
    var f := VerifyManifest(repo, cfg, id, file, true);
    if f.Err? {
      return Some(f.error);
    }
    if Reliable(repo) {
      SoundFindsNothing(cfg, repo.store, Refs(EventsOf(cfg, id, file).value), true);
    }
    return if f.value.corrupt > 0 then Some(HashMismatch) else if f.value.missing > 0 then Some(NotFound) else None;
  }

  // Content, then metadata.
  method RestoreChecked(repo: Backend, cfg: Config, dest: Destination, id: string, file: seq<byte>, o: Options)
    returns (status: Option<Error>, t: Tally, applied: seq<Entry>)
    requires GoodConfig(cfg) && dest.pending.None? && CheckPasses(cfg, repo.store, id, file)
    modifies repo`clock, dest
    ensures status.Some? ==> status.value in {Aborted, UnsafePath, TooLong, Io}
    ensures status.None? ==> RestoredAs(cfg, repo.store, id, file, o, old(dest.files), old(dest.dirs), dest.files, dest.dirs)
    ensures status.None? ==> var es := EntriesOf(EventsOf(cfg, id, file).value);
              t == TallyOf(o, es) && PathsFit(o, es) && (applied == if o.metadata then MetaOrder(o, es) else [])
    ensures Reliable(repo) && dest.Steady() && (forall n :: !o.aborts(n)) ==>
              (status.None? <==> PathsFit(o, EntriesOf(EventsOf(cfg, id, file).value)))
  {
    applied := [];
    var plain := OpenManifestFile(cfg, id, file);
    var d := DecodeManifestLoop(plain.value, cfg.hash);
    EntriesAreSound(cfg, repo.store, d.events);
    var es := EntriesOf(d.events);
    status, t := RestoreEntries(repo, cfg, dest, o, es);
    if status.None? && o.metadata {
      status, applied := ApplyReverse(o, es);
    }
  }

  ghost predicate RestoredAs(cfg: Config, s: Store, id: string, file: seq<byte>, o: Options,
                             files: map<seq<byte>, seq<byte>>, dirs: set<seq<byte>>,
                             files': map<seq<byte>, seq<byte>>, dirs': set<seq<byte>>)
    requires GoodConfig(cfg) && CheckPasses(cfg, s, id, file)
  {
    var es := EntriesOf(EventsOf(cfg, id, file).value);
    EntriesAreSound(cfg, s, EventsOf(cfg, id, file).value);
    files' == FilesAfter(cfg, s, o, es, files) && dirs' == DirsAfter(o, es, dirs)
  }

  // ---- Restore undoes snapshot --------------------------------------------------------------

  lemma {:induction false} FileAt(cfg: Config, s: Store, o: Options, es: seq<Entry>, files: map<seq<byte>, seq<byte>>, i: nat)
    requires GoodConfig(cfg) && EntriesSound(cfg, s, es) && PathsDiffer(es)
    requires i < |es| && Wanted(o, es[i]) && es[i].etype != DIR
    ensures es[i].path in FilesAfter(cfg, s, o, es, files)
    ensures FilesAfter(cfg, s, o, es, files)[es[i].path] == ContentOf(cfg, s, es[i].content)
    decreases |es|
  {
    var k := |es| - 1;
    if i < k {
      FileAt(cfg, s, o, es[..k], files, i);
      assert es[k].path != es[i].path;
    }
  }

  // In a safe store references that split a file fetch exactly that file.
  lemma {:induction false} ContentIsData(cfg: Config, s: Store, u: Contents, rs: seq<Ref>, data: seq<byte>)
    requires GoodConfig(cfg) && GoodObjects(cfg, s, u) && AllSound(cfg, s, rs, true) && Splits(cfg, u, rs, data)
    ensures ContentOf(cfg, s, rs) == data
    decreases |rs|
  {
    if rs != [] {
      var init, last := rs[..|rs| - 1], rs[|rs| - 1];
      var head, c := data[..|data| - last.size], data[|data| - last.size..];
      assert AllSound(cfg, s, init, true);
      ContentIsData(cfg, s, u, init, head);
      assert Sound(cfg, s, last, true);
      assert Stores(cfg, s[ObjectKey(cfg.hash(c))], c);
      assert data == head + c;
    }
  }

  // Every file a snapshot recorded comes back byte for byte.
  lemma RestoreUndoesSnapshot(cfg: Config, s: Store, u: Contents, o: Options, es: seq<Entry>,
                              files: map<seq<byte>, seq<byte>>, i: nat, data: seq<byte>)
    requires GoodConfig(cfg) && GoodObjects(cfg, s, u) && EntriesSound(cfg, s, es) && PathsDiffer(es)
    requires i < |es| && Wanted(o, es[i]) && es[i].etype != DIR && Splits(cfg, u, es[i].content, data)
    ensures es[i].path in FilesAfter(cfg, s, o, es, files)
    ensures FilesAfter(cfg, s, o, es, files)[es[i].path] == data
  {
    FileAt(cfg, s, o, es, files, i);
    assert AllSound(cfg, s, es[i].content, true);
    ContentIsData(cfg, s, u, es[i].content, data);
  }

  // In a safe store the check of a readable snapshot always passes.
  lemma SafeSnapshotsPass(cfg: Config, s: Store, u: Contents, id: string)
    requires GoodConfig(cfg) && Safe(cfg, s, u) && |id| == 16 && SnapshotEvents(cfg, s, id).Some?
    ensures CheckPasses(cfg, s, id, s[ManifestKey(id)])
  {
    var rs := Refs(SnapshotEvents(cfg, s, id).value);
    forall i | 0 <= i < |rs|
      ensures Sound(cfg, s, rs[i], true)
    {
      SafeMeansFetchable(cfg, s, u, id, rs[i]);
    }
  }
}
