// The whole SNAPSHOT command over a repository, and what it does to it.

module SnapshotMain {
  import opened BackendStore
  import opened Bytes
  import opened Index
  import opened Manifest
  import opened Meta
  import opened Records
  import opened Reencoding
  import opened Repo
  import opened RepoWriters
  import opened Safety
  import opened SnapIds
  import opened SnapshotRun
  import opened Tlv

  function EntryEvents(t: Tools, picks: seq<Pick>, paranoid: bool): seq<Event> {
    seq(|picks|, i requires 0 <= i < |picks| => OnEntry(Recorded(t, picks[i], paranoid)))
  }

  lemma EntryEventsSnoc(es: seq<Event>, t: Tools, picks: seq<Pick>, p: Pick, paranoid: bool)
    ensures es + EntryEvents(t, picks + [p], paranoid)
            == es + EntryEvents(t, picks, paranoid) + [OnEntry(Recorded(t, p, paranoid))]
  {
  }

  // The previous entry is the index's entry for the path, if it has one.
  ghost predicate FromIndex(idx: seq<Entry>, p: Pick) {
    match p.prev
    case Some(e) => e in idx && e.path == p.file.entry.path
    case None => p.file.entry.path !in Paths(idx)
  }

  ghost function Paths(idx: seq<Entry>): set<seq<byte>> {
    set e | e in idx :: e.path
  }

  ghost predicate IndexGood(cfg: Config, s: Store, u: Contents, idx: seq<Entry>) {
    forall i :: 0 <= i < |idx| ==> GoodRefs(cfg, s, u, idx[i].content) && ValidEvent(OnEntry(idx[i]))
  }

  lemma IndexStaysGood(cfg: Config, u: Contents, s: Store, t: Store, idx: seq<Entry>)
    requires GoodConfig(cfg) && IndexGood(cfg, s, u, idx) && OnlyAdds(cfg, u, s, t)
    ensures IndexGood(cfg, t, u, idx)
  {
    forall i | 0 <= i < |idx|
      ensures GoodRefs(cfg, t, u, idx[i].content)
    {
      GoodRefsKept(cfg, u, s, t, idx[i].content);
    }
  }

  ghost predicate GoodSources(u: Contents, files: seq<Source>) {
    forall i :: 0 <= i < |files| ==> GoodSource(u, files[i])
  }

  // What was recorded was scanned, looked up in the index, and fits a record.
  ghost predicate AllPicked(t: Tools, files: seq<Source>, idx: seq<Entry>, picks: seq<Pick>, paranoid: bool) {
    picks == [] || (OnePicked(t, files, idx, picks[|picks| - 1], paranoid)
                    && AllPicked(t, files, idx, picks[..|picks| - 1], paranoid))
  }

  ghost predicate OnePicked(t: Tools, files: seq<Source>, idx: seq<Entry>, p: Pick, paranoid: bool) {
    p.file in files && FromIndex(idx, p) && ValidEvent(OnEntry(Recorded(t, p, paranoid)))
  }

  lemma {:induction false} PickedAt(t: Tools, files: seq<Source>, idx: seq<Entry>, picks: seq<Pick>, paranoid: bool,
                                    i: nat)
    requires AllPicked(t, files, idx, picks, paranoid) && i < |picks|
    ensures OnePicked(t, files, idx, picks[i], paranoid)
    decreases |picks|
  {
    if i < |picks| - 1 {
      PickedAt(t, files, idx, picks[..|picks| - 1], paranoid, i);
    }
  }

  // The files whose archive bit a run sets.
  function MarkedPaths(t: Tools, picks: seq<Pick>, paranoid: bool, noArchiveBit: bool): seq<seq<byte>> {
    if picks == [] then []
    else
      var last := picks[|picks| - 1];
      MarkedPaths(t, picks[..|picks| - 1], paranoid, noArchiveBit)
      + if Marks(t, last, paranoid, noArchiveBit) then [last.file.entry.path] else []
  }

  lemma MarkedMore(t: Tools, picks: seq<Pick>, p: Pick, paranoid: bool, noArchiveBit: bool)
    ensures MarkedPaths(t, picks + [p], paranoid, noArchiveBit)
            == MarkedPaths(t, picks, paranoid, noArchiveBit)
               + if Marks(t, p, paranoid, noArchiveBit) then [p.file.entry.path] else []
  {
    assert (picks + [p])[..|picks|] == picks;
  }

  // The picks are the scanned files in order, but for `failed` of them.
  ghost predicate Picked(files: seq<Source>, picks: seq<Pick>, failed: nat, idx: seq<Entry>) {
    if files == [] then picks == [] && failed == 0
    else
      var i, k := |files| - 1, |picks| - 1;
      || (picks != [] && picks[k].file == files[i] && FromIndex(idx, picks[k])
          && Picked(files[..i], picks[..k], failed, idx))
      || (failed > 0 && Picked(files[..i], picks, failed - 1, idx))
  }

  lemma PickedMore(files: seq<Source>, i: nat, picks: seq<Pick>, failed: nat, idx: seq<Entry>, p: Pick)
    requires i < |files| && p.file == files[i] && FromIndex(idx, p) && Picked(files[..i], picks, failed, idx)
    ensures Picked(files[..i + 1], picks + [p], failed, idx)
    ensures Picked(files[..i + 1], picks, failed + 1, idx)
  {
    assert files[..i + 1][..i] == files[..i];
    assert (picks + [p])[..|picks|] == picks;
  }

  lemma {:induction false} PickedIsFromIndex(files: seq<Source>, picks: seq<Pick>, failed: nat, idx: seq<Entry>)
    requires Picked(files, picks, failed, idx)
    ensures |picks| + failed == |files|
    ensures forall i :: 0 <= i < |picks| ==> FromIndex(idx, picks[i]) && picks[i].file in files
    ensures failed == 0 ==> forall i :: 0 <= i < |picks| ==> picks[i].file == files[i]
    decreases |files|
  {
    if files != [] {
      var init, k := files[..|files| - 1], |picks| - 1;
      if picks != [] && picks[k].file == files[|init|] && FromIndex(idx, picks[k]) && Picked(init, picks[..k], failed, idx) {
        PickedIsFromIndex(init, picks[..k], failed, idx);
        assert picks == picks[..k] + [picks[k]];
      } else {
        PickedIsFromIndex(init, picks, failed - 1, idx);
      }
    }
  }

  // Where a scan has got to: from store s on only additions, and an event for every pick.
  ghost predicate Scanning(rw: RepoWriter, s: Store, p: seq<Store>, es: seq<Event>, picks: seq<Pick>, paranoid: bool)
    requires rw.Ready()
    reads rw, rw.be, rw.mw
  {
    && rw.Valid() && Grown(rw.t.cfg, rw.u, s, p, rw.be.store, rw.be.past)
    && rw.mw.events == es + EntryEvents(rw.t, picks, paranoid)
  }

  // Nothing stops the scan, and every entry's strings fit a record.
  ghost predicate Calm(files: seq<Source>, stops: nat -> bool) {
    (forall n :: !stops(n)) && forall i :: 0 <= i < |files| ==> !TooLongEntry(files[i].entry)
  }

  // Whichever entry of the index is looked up for it, the file is sure to be recorded.
  ghost predicate SureFile(t: Tools, f: Source, idx: seq<Entry>, paranoid: bool) {
    forall p: Pick :: p.file == f && FromIndex(idx, p) ==> Sure(t, p, paranoid)
  }

  // The picks are the files in order, but for some that were not sure.
  ghost predicate OnlyUnsureLeftOut(t: Tools, files: seq<Source>, picks: seq<Pick>, idx: seq<Entry>, paranoid: bool) {
    if files == [] then picks == []
    else
      var i, k := |files| - 1, |picks| - 1;
      || (picks != [] && picks[k].file == files[i] && OnlyUnsureLeftOut(t, files[..i], picks[..k], idx, paranoid))
      || (!SureFile(t, files[i], idx, paranoid) && OnlyUnsureLeftOut(t, files[..i], picks, idx, paranoid))
  }

  lemma UnsureMore(t: Tools, files: seq<Source>, i: nat, picks: seq<Pick>, idx: seq<Entry>, paranoid: bool, p: Pick)
    requires i < |files| && p.file == files[i] && FromIndex(idx, p)
    requires OnlyUnsureLeftOut(t, files[..i], picks, idx, paranoid)
    ensures OnlyUnsureLeftOut(t, files[..i + 1], picks + [p], idx, paranoid)
    ensures !Sure(t, p, paranoid) ==> OnlyUnsureLeftOut(t, files[..i + 1], picks, idx, paranoid)
  {
    assert files[..i + 1][..i] == files[..i];
    assert (picks + [p])[..|picks|] == picks;
  }

  // A sure file is among what was recorded.
  lemma {:induction false} SureIsRecorded(t: Tools, files: seq<Source>, picks: seq<Pick>, idx: seq<Entry>, paranoid: bool, i: nat)
    returns (k: nat)
    requires OnlyUnsureLeftOut(t, files, picks, idx, paranoid) && i < |files| && SureFile(t, files[i], idx, paranoid)
    ensures k < |picks| && picks[k].file == files[i]
    decreases |files|
  {
    var n, m := |files| - 1, |picks| - 1;
    if picks != [] && picks[m].file == files[n] && OnlyUnsureLeftOut(t, files[..n], picks[..m], idx, paranoid) {
      k := m;
      if i < n {
        k := SureIsRecorded(t, files[..n], picks[..m], idx, paranoid, i);
      }
    } else {
      k := SureIsRecorded(t, files[..n], picks, idx, paranoid, i);
    }
  }

  // The scan's callbacks, one after the other, until one stops the scan.
  method RecordAll(rw: RepoWriter, files: seq<Source>, idx: seq<Entry>, paranoid: bool, noArchiveBit: bool,
                   stops: nat -> bool)
    returns (r: Option<Error>, failed: nat, marked: seq<seq<byte>>, ghost picks: seq<Pick>)
    requires rw.Ready() && rw.Valid() && GoodSources(rw.u, files) && SortedByPath(idx)
    requires IndexGood(rw.t.cfg, rw.be.store, rw.u, idx)
    modifies rw.be, rw.mw
    ensures Scanning(rw, old(rw.be.store), old(rw.be.past), old(rw.mw.events), picks, paranoid)
    ensures r.None? ==> Picked(files, picks, failed, idx)
    ensures AllPicked(rw.t, files, idx, picks, paranoid)
    ensures marked == MarkedPaths(rw.t, picks, paranoid, noArchiveBit)
    ensures old(rw.mw.error).None? && rw.haveSnap && Calm(files, stops) ==> r.None? && rw.mw.error.None?
    ensures old(rw.mw.error).None? && rw.haveSnap && Calm(files, stops) && Reliable(rw.be) ==>
              OnlyUnsureLeftOut(rw.t, files, picks, idx, paranoid)
  {
    ghost var s, p, es := rw.be.store, rw.be.past, rw.mw.events;
    r, picks, failed, marked := None, [], 0, [];
    GrownIsReflexive(rw.t.cfg, rw.u, s, p);
    assert es + EntryEvents(rw.t, [], paranoid) == es;
    for i := 0 to |files|
      invariant r.None? && Scanning(rw, s, p, es, picks, paranoid)
      invariant Kept(rw.t, files, i, idx, picks, failed, marked, paranoid, noArchiveBit)
      invariant old(rw.mw.error).None? && rw.haveSnap && Calm(files, stops) ==> rw.mw.error.None?
      invariant old(rw.mw.error).None? && rw.haveSnap && Calm(files, stops) && Reliable(rw.be) ==>
                  OnlyUnsureLeftOut(rw.t, files[..i], picks, idx, paranoid)
    {
      r, failed, marked, picks := NextFile(rw, files, i, idx, paranoid, noArchiveBit, stops(i), failed, marked, s, p, es, picks);
      if r.Some? {
        return;
      }
    }
    assert files[..|files|] == files;
  }

  // One file and the counts kept of it.
  method NextFile(rw: RepoWriter, files: seq<Source>, i: nat, idx: seq<Entry>, paranoid: bool, noArchiveBit: bool,
                  stop: bool, failed: nat, marked: seq<seq<byte>>, ghost s: Store, ghost p: seq<Store>,
                  ghost es: seq<Event>, ghost picks: seq<Pick>)
    returns (r: Option<Error>, failed': nat, marked': seq<seq<byte>>, ghost picks': seq<Pick>)
    requires rw.Ready() && Scanning(rw, s, p, es, picks, paranoid) && i < |files|
    requires Kept(rw.t, files, i, idx, picks, failed, marked, paranoid, noArchiveBit)
    requires GoodSources(rw.u, files) && SortedByPath(idx) && IndexGood(rw.t.cfg, s, rw.u, idx)
    modifies rw.be, rw.mw
    ensures Scanning(rw, s, p, es, picks', paranoid) && AllPicked(rw.t, files, idx, picks', paranoid)
    ensures marked' == MarkedPaths(rw.t, picks', paranoid, noArchiveBit)
    ensures r.None? ==> Kept(rw.t, files, i + 1, idx, picks', failed', marked', paranoid, noArchiveBit)
    ensures Healthy(rw, old(rw.mw.error), files[i].entry) && !stop ==> r.None? && rw.mw.error.None?
    ensures Healthy(rw, old(rw.mw.error), files[i].entry) && !stop && Reliable(rw.be)
            && OnlyUnsureLeftOut(rw.t, files[..i], picks, idx, paranoid) ==>
              OnlyUnsureLeftOut(rw.t, files[..i + 1], picks', idx, paranoid)
  {
    var o;
    ghost var pick;
    o, pick, picks' := Turn(rw, files[i], idx, paranoid, noArchiveBit, stop, s, p, es, picks);
    OneMorePick(rw.t, files, i, idx, picks, failed, marked, paranoid, noArchiveBit, pick);
    if OnlyUnsureLeftOut(rw.t, files[..i], picks, idx, paranoid) {
      UnsureMore(rw.t, files, i, picks, idx, paranoid, pick);
    }
    if o.Stopped? {
      return Some(o.error), failed, marked, picks';
    }
    marked' := if o.Added? && o.marked then marked + [files[i].entry.path] else marked;
    failed' := if o.Added? then failed else failed + 1;
    return None, failed', marked', picks';
  }

  // What is known of the first i files.
  ghost predicate Kept(t: Tools, files: seq<Source>, i: nat, idx: seq<Entry>, picks: seq<Pick>, failed: nat,
                       marked: seq<seq<byte>>, paranoid: bool, noArchiveBit: bool)
    requires i <= |files|
  {
    && Picked(files[..i], picks, failed, idx) && AllPicked(t, files, idx, picks, paranoid)
    && marked == MarkedPaths(t, picks, paranoid, noArchiveBit)
  }

  lemma OneMorePick(t: Tools, files: seq<Source>, i: nat, idx: seq<Entry>, picks: seq<Pick>, failed: nat,
                    marked: seq<seq<byte>>, paranoid: bool, noArchiveBit: bool, p: Pick)
    requires i < |files| && Kept(t, files, i, idx, picks, failed, marked, paranoid, noArchiveBit)
    requires p.file == files[i] && FromIndex(idx, p)
    ensures Kept(t, files, i + 1, idx, picks, failed + 1, marked, paranoid, noArchiveBit)
    ensures ValidEvent(OnEntry(Recorded(t, p, paranoid))) ==>
              Kept(t, files, i + 1, idx, picks + [p], failed,
                   marked + if Marks(t, p, paranoid, noArchiveBit) then [p.file.entry.path] else [], paranoid, noArchiveBit)
  {
    PickedMore(files, i, picks, failed, idx, p);
    assert (picks + [p])[..|picks|] == picks;
    MarkedMore(t, picks, p, paranoid, noArchiveBit);
  }

  // One callback.
  method Turn(rw: RepoWriter, f: Source, idx: seq<Entry>, paranoid: bool, noArchiveBit: bool, stop: bool,
              ghost s: Store, ghost p: seq<Store>, ghost es: seq<Event>, ghost picks: seq<Pick>)
    returns (o: Outcome, ghost pick: Pick, ghost picks': seq<Pick>)
    requires rw.Ready() && Scanning(rw, s, p, es, picks, paranoid)
    requires GoodSource(rw.u, f) && SortedByPath(idx)
    requires IndexGood(rw.t.cfg, s, rw.u, idx)
    modifies rw.be, rw.mw
    ensures pick.file == f && FromIndex(idx, pick) && picks' == if o.Added? then picks + [pick] else picks
    ensures Scanning(rw, s, p, es, picks', paranoid)
    ensures o.Added? ==> ValidEvent(OnEntry(Recorded(rw.t, pick, paranoid)))
    ensures o.Added? ==> o.marked == Marks(rw.t, pick, paranoid, noArchiveBit)
    ensures Healthy(rw, old(rw.mw.error), f.entry) && !stop ==> rw.mw.error.None? && !o.Stopped?
    ensures Healthy(rw, old(rw.mw.error), f.entry) && !stop && Reliable(rw.be) && Sure(rw.t, pick, paranoid) ==> o.Added?
  {
    ghost var s1, p1 := rw.be.store, rw.be.past;
    IndexStaysGood(rw.t.cfg, rw.u, s, s1, idx);
    var prev := Lookup(idx, f.entry.path);
    var now := Pick(f, prev);
    pick, picks' := now, picks;
    o := OnScanned(rw, now, paranoid, noArchiveBit, stop);
    GrownIsTransitive(rw.t.cfg, rw.u, s, p, s1, p1, rw.be.store, rw.be.past);
    if o.Added? {
      RecordedIsValid(rw.t, rw.u, now, paranoid);
      EntryEventsSnoc(es, rw.t, picks, pick, paranoid);
      picks' := picks + [pick];
    }
  }

  // ---- The run under the lock ----------------------------------------------------------------

  // Objects were added from s to mid; then at most one manifest of these events.
  ghost predicate RanTo(cfg: Config, u: Contents, s: Store, p: seq<Store>, mid: Store, q: seq<Store>,
                        es: seq<Event>, s': Store, p': seq<Store>)
    requires GoodConfig(cfg)
  {
    Grown(cfg, u, s, p, mid, q) && CommittedTo(cfg, u, mid, q, es, s', p')
  }

  // Every store on the way is safe.
  lemma RanSafely(cfg: Config, u: Contents, s: Store, p: seq<Store>, mid: Store, q: seq<Store>, es: seq<Event>,
                  s': Store, p': seq<Store>)
    requires GoodConfig(cfg) && NoCollision(cfg, u) && Safe(cfg, s, u) && ValidEvents(es)
    requires RanTo(cfg, u, s, p, mid, q, es, s', p')
    ensures Safe(cfg, s', u) && p <= p' && AllSafe(cfg, u, p', |p|)
    ensures forall k :: k in s ==> k in s' && s'[k] == s[k]
  {
    GrownIsSafe(cfg, u, s, p, mid, q);
    if s' != mid {
      var id: string :| Committed(cfg, mid, id, es, s');
      CommitIsSafe(cfg, u, mid, id, es, s');
    }
    forall i | |p| <= i < |p'|
      ensures Safe(cfg, p'[i], u)
    {
      if i < |q| {
        assert p'[i] == q[i];
      }
    }
  }

  predicate HeadFits(snap: Snap, vol: Volume) {
    !TooLongSnap(snap) && !TooLongVolume(vol)
  }

  // The run goes by the snapshot before it, unless it is not to; if nothing stops it, every
  // file that is sure to be is recorded and the manifest committed, unless 65536 snapshots of
  // that time leave no id.
  ghost predicate Succeeds(t: Tools, s0: Store, files: seq<Source>, paranoid: bool, noArchiveBit: bool, stops: nat -> bool,
                           run: Run, s: Store, snap: Snap, r: Result<string>)
    requires GoodTools(t)
  {
    && (!noArchiveBit ==> Previous(t.cfg, s0, run.id, run.idx))
    && (Calm(files, stops) ==> OnlyUnsureLeftOut(t, files, run.picks, run.idx, paranoid)
                               && (r.Err? ==> NoFreeId(s, snap.created)))
  }

  lemma EventsAreValid(es: seq<Event>, t: Tools, files: seq<Source>, idx: seq<Entry>, picks: seq<Pick>, paranoid: bool)
    requires ValidEvents(es) && AllPicked(t, files, idx, picks, paranoid)
    ensures ValidEvents(es + EntryEvents(t, picks, paranoid))
  {
    forall i | 0 <= i < |picks|
      ensures ValidEvent(OnEntry(Recorded(t, picks[i], paranoid)))
    {
      PickedAt(t, files, idx, picks, paranoid, i);
    }
  }

  // Everything between taking and releasing the lock.
  method RunLocked(rw: RepoWriter, snap: Snap, vol: Volume, files: seq<Source>, paranoid: bool, noArchiveBit: bool,
                   stops: nat -> bool)
    returns (r: Result<string>, marked: seq<seq<byte>>, ghost run: Run)
    requires rw.Ready() && rw.Valid() && rw.mw.events == [] && rw.mw.error.None?
    requires GoodSources(rw.u, files) && Safe(rw.t.cfg, rw.be.store, rw.u)
    requires ValidStamp(snap.created) && ValidVolume(vol)
    modifies rw, rw.be, rw.mw
    ensures RanTo(rw.t.cfg, rw.u, old(rw.be.store), old(rw.be.past), run.mid, run.q, run.events, rw.be.store, rw.be.past)
    ensures ValidEvents(run.events) && AllPicked(rw.t, files, run.idx, run.picks, paranoid)
    ensures marked == MarkedPaths(rw.t, run.picks, paranoid, noArchiveBit)
    ensures r.Ok? ==> Committed(rw.t.cfg, run.mid, r.value, run.events, rw.be.store)
    ensures r.Ok? || rw.be.store != run.mid ==> Completed(rw.t, run, snap, vol, files, paranoid)
    ensures UsedIndex(rw.t.cfg, old(rw.be.store), run.id, run.idx)
    ensures r.Ok? ==> IsIdFor(run.mid, snap.created, r.value)
    ensures noArchiveBit ==> run.idx == []
    ensures Reliable(rw.be) && HeadFits(snap, vol) ==>
              Succeeds(rw.t, old(rw.be.store), files, paranoid, noArchiveBit, stops, run, rw.be.store, snap, r)
  {
    run, marked := Run(rw.be.store, rw.be.past, [], [], 0, "", []), [];
    GrownIsReflexive(rw.t.cfg, rw.u, rw.be.store, rw.be.past);
    var e := Begin(rw, snap, vol);
    if e.Some? {
      return Err(e.value), marked, run;
    }
    r, marked, run := RecordAndCommit(rw, snap, vol, files, paranoid, noArchiveBit, stops);
  }

  // Once the manifest is begun.
  method RecordAndCommit(rw: RepoWriter, ghost snap: Snap, ghost vol: Volume, files: seq<Source>, paranoid: bool,
                         noArchiveBit: bool, stops: nat -> bool)
    returns (r: Result<string>, marked: seq<seq<byte>>, ghost run: Run)
    requires rw.Ready() && rw.Valid() && rw.mw.events == [OnSnap(snap), OnVolume(vol)] && rw.mw.error.None?
    requires rw.haveSnap && rw.snapTime == snap.created && ValidEvents(rw.mw.events)
    requires GoodSources(rw.u, files) && Safe(rw.t.cfg, rw.be.store, rw.u)
    modifies rw.be, rw.mw
    ensures RanTo(rw.t.cfg, rw.u, old(rw.be.store), old(rw.be.past), run.mid, run.q, run.events, rw.be.store, rw.be.past)
    ensures ValidEvents(run.events) && AllPicked(rw.t, files, run.idx, run.picks, paranoid)
    ensures marked == MarkedPaths(rw.t, run.picks, paranoid, noArchiveBit)
    ensures r.Ok? ==> Committed(rw.t.cfg, run.mid, r.value, run.events, rw.be.store)
    ensures r.Ok? || rw.be.store != run.mid ==> Completed(rw.t, run, snap, vol, files, paranoid)
    ensures UsedIndex(rw.t.cfg, old(rw.be.store), run.id, run.idx)
    ensures r.Ok? ==> IsIdFor(run.mid, snap.created, r.value)
    ensures noArchiveBit ==> run.idx == []
    ensures Reliable(rw.be) ==>
              Succeeds(rw.t, old(rw.be.store), files, paranoid, noArchiveBit, stops, run, rw.be.store, snap, r)
  {
    var e;
    e, marked, run := RecordRun(rw, files, paranoid, noArchiveBit, stops);
    if e.Some? {
      return Err(e.value), marked, run;
    }
    r := CommitRun(rw, run);
  }

  // From the previous index to the last scanned entry.
  method RecordRun(rw: RepoWriter, files: seq<Source>, paranoid: bool, noArchiveBit: bool, stops: nat -> bool)
    returns (e: Option<Error>, marked: seq<seq<byte>>, ghost run: Run)
    requires rw.Ready() && rw.Valid() && GoodSources(rw.u, files) && Safe(rw.t.cfg, rw.be.store, rw.u)
    requires ValidEvents(rw.mw.events)
    modifies rw.be, rw.mw
    ensures rw.Valid() && rw.mw.events == run.events && run.mid == rw.be.store && run.q == rw.be.past
    ensures Grown(rw.t.cfg, rw.u, old(rw.be.store), old(rw.be.past), run.mid, run.q)
    ensures UsedIndex(rw.t.cfg, old(rw.be.store), run.id, run.idx)
    ensures run.events == old(rw.mw.events) + EntryEvents(rw.t, run.picks, paranoid)
    ensures AllPicked(rw.t, files, run.idx, run.picks, paranoid) && ValidEvents(run.events)
    ensures marked == MarkedPaths(rw.t, run.picks, paranoid, noArchiveBit)
    ensures e.None? ==> Picked(files, run.picks, run.failed, run.idx)
    ensures noArchiveBit ==> run.idx == []
    ensures Reliable(rw.be) && !noArchiveBit ==> Previous(rw.t.cfg, old(rw.be.store), run.id, run.idx)
    ensures old(rw.mw.error).None? && rw.haveSnap && Calm(files, stops) ==> e.None? && rw.mw.error.None?
    ensures old(rw.mw.error).None? && rw.haveSnap && Calm(files, stops) && Reliable(rw.be) ==>
              OnlyUnsureLeftOut(rw.t, files, run.picks, run.idx, paranoid)
  {
    var idx;
    ghost var id;
    idx, id := PreviousIndex(rw, noArchiveBit);
    ghost var es := rw.mw.events;
    e, marked, run := ScanAll(rw, files, idx, id, paranoid, noArchiveBit, stops);
    EventsAreValid(es, rw.t, files, idx, run.picks, paranoid);
  }

  method CommitRun(rw: RepoWriter, ghost run: Run) returns (r: Result<string>)
    requires rw.Ready() && rw.Valid()
    requires run.mid == rw.be.store && run.q == rw.be.past && run.events == rw.mw.events
    modifies rw.be
    ensures CommittedTo(rw.t.cfg, rw.u, run.mid, run.q, run.events, rw.be.store, rw.be.past)
    ensures r.Ok? ==> Committed(rw.t.cfg, run.mid, r.value, run.events, rw.be.store)
    ensures r.Ok? ==> IsIdFor(run.mid, rw.snapTime, r.value)
    ensures Reliable(rw.be) && rw.haveSnap && rw.mw.error.None? && r.Err? ==> NoFreeId(rw.be.store, rw.snapTime)
  {
    r := rw.Finish();
  }

  lemma HeadIsValid(snap: Snap, vol: Volume)
    requires ValidStamp(snap.created) && ValidVolume(vol)
    ensures HeadFits(snap, vol) ==> ValidEvents([OnSnap(snap), OnVolume(vol)])
  {
    HeadFitsRecords(snap, vol);
  }

  // The two records that open the manifest.
  method Begin(rw: RepoWriter, snap: Snap, vol: Volume) returns (e: Option<Error>)
    requires rw.Ready() && rw.Valid() && rw.mw.events == [] && ValidStamp(snap.created) && ValidVolume(vol)
    modifies rw, rw.mw
    ensures rw.Valid() && (e.None? ==> rw.mw.events == [OnSnap(snap), OnVolume(vol)])
    ensures e.None? ==> rw.haveSnap && rw.snapTime == snap.created && rw.mw.error.None? && ValidEvents(rw.mw.events)
    ensures old(rw.mw.error).None? && HeadFits(snap, vol) ==> e.None?
  {
    HeadIsValid(snap, vol);
    e := rw.Snap(snap);
    if e.None? {
      e := rw.AddVolume(vol);
    }
  }

  // The scan, and what it leaves to commit.
  method ScanAll(rw: RepoWriter, files: seq<Source>, idx: seq<Entry>, ghost id: string, paranoid: bool,
                 noArchiveBit: bool, stops: nat -> bool)
    returns (e: Option<Error>, marked: seq<seq<byte>>, ghost run: Run)
    requires rw.Ready() && rw.Valid() && GoodSources(rw.u, files) && SortedByPath(idx)
    requires IndexGood(rw.t.cfg, rw.be.store, rw.u, idx)
    modifies rw.be, rw.mw
    ensures rw.Valid() && rw.mw.events == run.events && run.mid == rw.be.store && run.q == rw.be.past
    ensures Grown(rw.t.cfg, rw.u, old(rw.be.store), old(rw.be.past), run.mid, run.q)
    ensures run.id == id && run.idx == idx
    ensures run.events == old(rw.mw.events) + EntryEvents(rw.t, run.picks, paranoid)
    ensures e.None? ==> Picked(files, run.picks, run.failed, idx)
    ensures AllPicked(rw.t, files, idx, run.picks, paranoid)
    ensures marked == MarkedPaths(rw.t, run.picks, paranoid, noArchiveBit)
    ensures old(rw.mw.error).None? && rw.haveSnap && Calm(files, stops) ==> e.None? && rw.mw.error.None?
    ensures old(rw.mw.error).None? && rw.haveSnap && Calm(files, stops) && Reliable(rw.be) ==>
              OnlyUnsureLeftOut(rw.t, files, run.picks, idx, paranoid)
  {
    var failed;
    ghost var picks;
    e, failed, marked, picks := RecordAll(rw, files, idx, paranoid, noArchiveBit, stops);
    run := Run(rw.be.store, rw.be.past, rw.mw.events, picks, failed, id, idx);
  }

  // What a run did: the store before the commit, the events, what was picked of the scan
  // and the index used.
  datatype Run = Run(mid: Store, q: seq<Store>, events: seq<Event>, picks: seq<Pick>, failed: nat,
                     id: string, idx: seq<Entry>)

  ghost predicate Completed(t: Tools, run: Run, snap: Snap, vol: Volume, files: seq<Source>, paranoid: bool) {
    && run.events == [OnSnap(snap), OnVolume(vol)] + EntryEvents(t, run.picks, paranoid)
    && Picked(files, run.picks, run.failed, run.idx)
  }

  // The index is not even loaded when the archive bit is not to be relied on.
  method PreviousIndex(rw: RepoWriter, noArchiveBit: bool) returns (idx: seq<Entry>, ghost id: string)
    requires rw.Ready() && Safe(rw.t.cfg, rw.be.store, rw.u)
    modifies rw.be`clock
    ensures SortedByPath(idx) && IndexGood(rw.t.cfg, rw.be.store, rw.u, idx)
    ensures UsedIndex(rw.t.cfg, rw.be.store, id, idx) && (noArchiveBit ==> idx == [])
    ensures Reliable(rw.be) && !noArchiveBit ==> Previous(rw.t.cfg, rw.be.store, id, idx)
  {
    id := "";
    if noArchiveBit {
      return [], id;
    }
    var loaded;
    loaded, id := LoadIndex(rw.be, rw.t.cfg);
    if loaded.None? {
      return [], id;
    }
    forall i | 0 <= i < |loaded.value|
      ensures GoodRefs(rw.t.cfg, rw.be.store, rw.u, loaded.value[i].content)
      ensures ValidEvent(OnEntry(loaded.value[i]))
    {
      IndexIsValid(rw.t.cfg, rw.be.store, id, loaded.value, loaded.value[i]);
      IndexRefsAreGood(rw.t.cfg, rw.be.store, rw.u, id, loaded.value, loaded.value[i]);
    }
    return loaded.value, id;
  }

  // ---- cmd_snapshot ----------------------------------------------------------------------------

  // Stores s and t differ at most in the lock.
  ghost predicate SameButLock(s: Store, t: Store) {
    forall k :: k != Lock ==> (k in s <==> k in t) && (k in s ==> t[k] == s[k])
  }

  lemma SnapshotKept(cfg: Config, s: Store, t: Store)
    requires GoodConfig(cfg) && SameButLock(s, t)
    ensures forall id: string :: SnapshotEvents(cfg, t, id) == SnapshotEvents(cfg, s, id)
  {
  }

  // Every snapshot is as before, but for at most one, new, that says `es`.
  ghost predicate OneMoreSnapshot(cfg: Config, s: Store, es: seq<Event>, t: Store)
    requires GoodConfig(cfg)
  {
    forall id: string :: SnapshotEvents(cfg, t, id) == SnapshotEvents(cfg, s, id)
                         || (ManifestKey(id) !in s && SnapshotEvents(cfg, t, id) == Some(es))
  }

  // How the stores follow one another: nothing happened but perhaps an attempt at the lock;
  // or the lock was taken, objects were put one by one, then at most one manifest, and the
  // lock was given back or left.
  ghost predicate Steps(cfg: Config, u: Contents, who: seq<byte>, s0: Store, p0: seq<Store>, run: Run, s3: Store,
                        p3: seq<Store>)
    requires GoodConfig(cfg)
  {
    || LockTried(who, s0, p0, s3, p3)
    || (exists s2, p2 :: HeldLock(cfg, u, who, s0, p0, run, s2, p2) && p3 == p2 + [s3] && (s3 == s2 || s3 == s2 - {Lock}))
  }

  // The lock was not seen to be taken.
  ghost predicate LockTried(who: seq<byte>, s0: Store, p0: seq<Store>, s3: Store, p3: seq<Store>) {
    || (p3 == p0 && s3 == s0)
    || (p3 == p0 + [s3] && (s3 == s0 || (Lock !in s0 && s3 == s0[Lock := who])))
  }

  ghost predicate HeldLock(cfg: Config, u: Contents, who: seq<byte>, s0: Store, p0: seq<Store>, run: Run, s2: Store,
                           p2: seq<Store>)
    requires GoodConfig(cfg)
  {
    && Lock !in s0 && RanTo(cfg, u, s0[Lock := who], p0 + [s0[Lock := who]], run.mid, run.q, run.events, s2, p2)
  }

  // The whole command. At every point the repository is safe; nothing that was there is
  // changed or lost; on success there is one new snapshot, under an id that was free, that
  // reads back as what was recorded. `marked` are the files whose archive bit was set.
  method RunSnapshot(be: Backend, t: Tools, who: seq<byte>, snap: Snap, vol: Volume, files: seq<Source>,
                     paranoid: bool, noArchiveBit: bool, stops: nat -> bool, ghost u: Contents)
    returns (r: Result<string>, marked: seq<seq<byte>>, ghost run: Run)
    requires GoodTools(t) && NoCollision(t.cfg, u) && GoodSources(u, files) && Safe(t.cfg, be.store, u)
    requires ValidStamp(snap.created) && ValidVolume(vol)
    modifies be
    ensures Lock in old(be.store) ==> r.Err? && be.store == old(be.store)
    ensures RunResult(t.cfg, u, old(be.store), old(be.past), run, be.store, be.past, r)
    ensures Steps(t.cfg, u, who, old(be.store), old(be.past), run, be.store, be.past)
    ensures AllPicked(t, files, run.idx, run.picks, paranoid)
    ensures marked == MarkedPaths(t, run.picks, paranoid, noArchiveBit)
    ensures r.Ok? || !SameSnapshots(t.cfg, old(be.store), be.store) ==> Completed(t, run, snap, vol, files, paranoid)
    ensures r.Ok? ==> IsIdFor(run.mid, snap.created, r.value)
    ensures Reliable(be) ==> (Lock in be.store <==> Lock in old(be.store))
    ensures noArchiveBit ==> run.idx == []
    ensures Reliable(be) && Lock !in old(be.store) && HeadFits(snap, vol) ==>
              Succeeds(t, old(be.store), files, paranoid, noArchiveBit, stops, run, be.store, snap, r)
  {
    run, marked := Run(be.store, be.past, [], [], 0, "", []), [];
    ghost var s0, p0 := be.store, be.past;
    var e := AcquireLock(be, who);
    LockKeepsSafe(t.cfg, u, s0, be.store);
    if e.Some? {
      r := Err(e.value);
      NothingRan(t.cfg, u, s0, p0, run, be.store, be.past, r);
      return;
    }
    r, marked, run := RunAndRelease(be, t, snap, vol, files, paranoid, noArchiveBit, stops, u, who, s0, p0);
  }

  // Once the lock is taken.
  method RunAndRelease(be: Backend, t: Tools, snap: Snap, vol: Volume, files: seq<Source>, paranoid: bool,
                       noArchiveBit: bool, stops: nat -> bool, ghost u: Contents, ghost who: seq<byte>,
                       ghost s0: Store, ghost p0: seq<Store>)
    returns (r: Result<string>, marked: seq<seq<byte>>, ghost run: Run)
    requires GoodTools(t) && NoCollision(t.cfg, u) && GoodSources(u, files) && Safe(t.cfg, be.store, u)
    requires ValidStamp(snap.created) && ValidVolume(vol)
    requires Lock !in s0 && be.store == s0[Lock := who] && be.past == p0 + [be.store]
    modifies be
    ensures RunResult(t.cfg, u, s0, p0, run, be.store, be.past, r)
    ensures Steps(t.cfg, u, who, s0, p0, run, be.store, be.past)
    ensures AllPicked(t, files, run.idx, run.picks, paranoid)
    ensures marked == MarkedPaths(t, run.picks, paranoid, noArchiveBit)
    ensures r.Ok? || !SameSnapshots(t.cfg, s0, be.store) ==> Completed(t, run, snap, vol, files, paranoid)
    ensures r.Ok? ==> IsIdFor(run.mid, snap.created, r.value)
    ensures Reliable(be) ==> Lock !in be.store
    ensures noArchiveBit ==> run.idx == []
    ensures Reliable(be) && HeadFits(snap, vol) ==>
              Succeeds(t, s0, files, paranoid, noArchiveBit, stops, run, be.store, snap, r)
  {
    r, marked, run := WhileLocked(be, t, snap, vol, files, paranoid, noArchiveBit, stops, u, who, s0, p0);
    ghost var s2, p2 := be.store, be.past;
    var e := ReleaseLock(be);
    AfterRelease(t.cfg, u, s0, p0, run, s2, p2, r, be.store);
    GivenBack(t.cfg, u, who, s0, p0, run, s2, p2, be.store);
  }

  lemma GivenBack(cfg: Config, u: Contents, who: seq<byte>, s0: Store, p0: seq<Store>, run: Run, s2: Store,
                  p2: seq<Store>, s3: Store)
    requires GoodConfig(cfg) && HeldLock(cfg, u, who, s0, p0, run, s2, p2) && (s3 == s2 || s3 == s2 - {Lock})
    ensures Steps(cfg, u, who, s0, p0, run, s3, p2 + [s3])
  {
  }

  method WhileLocked(be: Backend, t: Tools, snap: Snap, vol: Volume, files: seq<Source>, paranoid: bool,
                     noArchiveBit: bool, stops: nat -> bool, ghost u: Contents, ghost who: seq<byte>, ghost s0: Store,
                     ghost p0: seq<Store>)
    returns (r: Result<string>, marked: seq<seq<byte>>, ghost run: Run)
    requires GoodTools(t) && NoCollision(t.cfg, u) && GoodSources(u, files) && Safe(t.cfg, be.store, u)
    requires ValidStamp(snap.created) && ValidVolume(vol)
    requires Lock !in s0 && be.store == s0[Lock := who] && be.past == p0 + [be.store]
    modifies be
    ensures RunResult(t.cfg, u, s0, p0, run, be.store, be.past, r)
    ensures HeldLock(t.cfg, u, who, s0, p0, run, be.store, be.past)
    ensures AllPicked(t, files, run.idx, run.picks, paranoid)
    ensures marked == MarkedPaths(t, run.picks, paranoid, noArchiveBit)
    ensures r.Ok? || !SameSnapshots(t.cfg, s0, be.store) ==> Completed(t, run, snap, vol, files, paranoid)
    ensures r.Ok? ==> IsIdFor(run.mid, snap.created, r.value)
    ensures noArchiveBit ==> run.idx == []
    ensures Reliable(be) && HeadFits(snap, vol) ==>
              Succeeds(t, s0, files, paranoid, noArchiveBit, stops, run, be.store, snap, r)
  {
    ghost var s1, p1 := be.store, be.past;
    SnapshotKept(t.cfg, s0, s1);
    var rw := new RepoWriter(be, t, u);
    r, marked, run := RunLocked(rw, snap, vol, files, paranoid, noArchiveBit, stops);
    AfterRun(t.cfg, u, s0, p0, s1, p1, run, be.store, be.past, r);
    SamePrevious(t.cfg, s0, s1, run.id, run.idx);
  }

  // What the run leaves behind.
  ghost predicate RunResult(cfg: Config, u: Contents, s0: Store, p0: seq<Store>, run: Run, s2: Store, p2: seq<Store>,
                            r: Result<string>)
    requires GoodConfig(cfg)
  {
    && p0 <= p2 && Safe(cfg, s2, u) && AllSafe(cfg, u, p2, |p0|)
    && (forall k :: k in s0 && k != Lock ==> k in s2 && s2[k] == s0[k])
    && ValidEvents(run.events) && OneMoreSnapshot(cfg, s0, run.events, s2)
    && (r.Ok? ==> ManifestKey(r.value) !in s0 && SnapshotEvents(cfg, s2, r.value) == Some(run.events))
    && UsedIndex(cfg, s0, run.id, run.idx)
  }

  ghost predicate SameSnapshots(cfg: Config, s: Store, t: Store)
    requires GoodConfig(cfg)
  {
    forall id: string :: SnapshotEvents(cfg, t, id) == SnapshotEvents(cfg, s, id)
  }

  lemma AfterRun(cfg: Config, u: Contents, s0: Store, p0: seq<Store>, s1: Store, p1: seq<Store>, run: Run,
                 s2: Store, p2: seq<Store>, r: Result<string>)
    requires GoodConfig(cfg) && NoCollision(cfg, u) && Safe(cfg, s1, u) && ValidEvents(run.events)
    requires SameSnapshots(cfg, s0, s1) && SameButLock(s0, s1) && p1 == p0 + [s1]
    requires RanTo(cfg, u, s1, p1, run.mid, run.q, run.events, s2, p2)
    requires r.Ok? ==> Committed(cfg, run.mid, r.value, run.events, s2)
    requires UsedIndex(cfg, s1, run.id, run.idx)
    ensures RunResult(cfg, u, s0, p0, run, s2, p2, r)
    ensures s2 == run.mid ==> SameSnapshots(cfg, s0, s2)
  {
    GrownIsSafe(cfg, u, s1, p1, run.mid, run.q);
    SafeKept(cfg, u, s1, run.mid);
    SameIndex(cfg, s0, s1, run.id, run.idx);
    RanSafely(cfg, u, s1, p1, run.mid, run.q, run.events, s2, p2);
    MaybeCommitted(cfg, u, s0, run.mid, run.q, run.events, s2, p2);
    if r.Ok? {
      NowCommitted(cfg, u, s0, run.mid, run.events, s2, r.value);
    }
  }

  lemma MaybeCommitted(cfg: Config, u: Contents, s0: Store, mid: Store, q: seq<Store>, es: seq<Event>, s: Store,
                       p: seq<Store>)
    requires GoodConfig(cfg) && Safe(cfg, mid, u) && ValidEvents(es) && CommittedTo(cfg, u, mid, q, es, s, p)
    requires SameSnapshots(cfg, s0, mid) && forall k :: k in s0 && k != Lock ==> k in mid
    ensures OneMoreSnapshot(cfg, s0, es, s) && (s == mid ==> SameSnapshots(cfg, s0, s))
  {
    if s != mid {
      var id: string :| Committed(cfg, mid, id, es, s);
      NowCommitted(cfg, u, s0, mid, es, s, id);
    }
  }

  lemma SameIndex(cfg: Config, s: Store, t: Store, id: string, idx: seq<Entry>)
    requires GoodConfig(cfg) && SameSnapshots(cfg, s, t) && SameButLock(s, t)
    ensures UsedIndex(cfg, s, id, idx) <==> UsedIndex(cfg, t, id, idx)
  {
    SameIds(s, t);
  }

  lemma SameIds(s: Store, t: Store)
    requires SameButLock(s, t)
    ensures Ids(s) == Ids(t)
  {
    forall x
      ensures x in Ids(s) <==> x in Ids(t)
    {
      IdsAreSnapshots(s, x);
      IdsAreSnapshots(t, x);
    }
  }

  lemma SamePrevious(cfg: Config, s: Store, t: Store, id: string, idx: seq<Entry>)
    requires GoodConfig(cfg) && SameSnapshots(cfg, s, t) && SameButLock(s, t)
    ensures Previous(cfg, s, id, idx) <==> Previous(cfg, t, id, idx)
  {
    SameIds(s, t);
  }

  lemma NowCommitted(cfg: Config, u: Contents, s0: Store, mid: Store, es: seq<Event>, s: Store, id: string)
    requires GoodConfig(cfg) && Safe(cfg, mid, u) && ValidEvents(es) && Committed(cfg, mid, id, es, s)
    requires Ordered(es) && GoodRefs(cfg, mid, u, Refs(es)) && SameSnapshots(cfg, s0, mid)
    requires forall k :: k in s0 && k != Lock ==> k in mid
    ensures SnapshotEvents(cfg, s, id) == Some(es) && OneMoreSnapshot(cfg, s0, es, s)
  {
    CommitIsSafe(cfg, u, mid, id, es, s);
    forall id': string
      ensures SnapshotEvents(cfg, s, id') == SnapshotEvents(cfg, s0, id')
              || (ManifestKey(id') !in s0 && SnapshotEvents(cfg, s, id') == Some(es))
    {
      if ManifestKey(id') == ManifestKey(id) {
        SuffixOnce(id', id);
      }
      assert SnapshotEvents(cfg, mid, id') == SnapshotEvents(cfg, s0, id');
    }
  }

  lemma AfterRelease(cfg: Config, u: Contents, s0: Store, p0: seq<Store>, run: Run, s2: Store, p2: seq<Store>,
                     r: Result<string>, s3: Store)
    requires GoodConfig(cfg) && RunResult(cfg, u, s0, p0, run, s2, p2, r) && SameButLock(s2, s3)
    ensures RunResult(cfg, u, s0, p0, run, s3, p2 + [s3], r)
    ensures SameSnapshots(cfg, s0, s2) ==> SameSnapshots(cfg, s0, s3)
  {
    SnapshotKept(cfg, s2, s3);
    LockKeepsSafe(cfg, u, s2, s3);
  }

  // The lock was not taken.
  lemma NothingRan(cfg: Config, u: Contents, s0: Store, p0: seq<Store>, run: Run, s: Store, p: seq<Store>,
                   r: Result<string>)
    requires GoodConfig(cfg) && Safe(cfg, s0, u) && Safe(cfg, s, u) && SameButLock(s0, s) && r.Err?
    requires (p == p0 || p == p0 + [s]) && run.idx == [] && run.events == []
    ensures RunResult(cfg, u, s0, p0, run, s, p, r) && SameSnapshots(cfg, s0, s)
  {
    SnapshotKept(cfg, s0, s);
  }
}
