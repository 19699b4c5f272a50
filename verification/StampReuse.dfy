// Exactly when incremental snapshots can be trusted: a history in which one goes wrong for
// any two versions of a file that stamp and length do not tell apart.

module StampReuse {
  import opened BackendStore
  import opened Bytes
  import opened Frame
  import opened HexNames
  import opened History
  import opened Incremental
  import opened Index
  import opened Manifest
  import opened Meta
  import opened Records
  import opened Reencoding
  import opened Repo
  import opened RepoWriters
  import opened Safety
  import opened SnapIds
  import opened SnapshotMain
  import opened SnapshotRun
  import opened Tlv

  // ---- A store that holds what is needed -------------------------------------------------------

  lemma SomeObject(t: Tools, c: seq<byte>) returns (raw: seq<byte>)
    requires GoodTools(t) && |c| < U64
    ensures Stores(t.cfg, raw, c)
  {
    var body := if t.cfg.framed then FrameHeader(STORED, |c|) + c else c;
    if t.cfg.framed {
      FrameRoundTrip(STORED, c, c, t.cfg.inflate);
    }
    raw := SealBody(t.cfg, body);
    StoredThenFetched(t.cfg, body, c);
  }

  lemma WithObject(t: Tools, u: Contents, s: Store, c: seq<byte>) returns (s': Store)
    requires GoodTools(t) && NoCollision(t.cfg, u) && c in u && |c| < U64 && Safe(t.cfg, s, u)
    ensures OnlyAdds(t.cfg, u, s, s') && Safe(t.cfg, s', u) && GoodRef(t.cfg, s', u, RefOf(t.cfg, c))
  {
    if ObjectKey(t.cfg.hash(c)) in s {
      s' := s;
    } else {
      var raw := SomeObject(t, c);
      s' := s[ObjectKey(t.cfg.hash(c)) := raw];
      assert IsObject(t.cfg, u, ObjectKey(t.cfg.hash(c)), raw);
    }
    SafeKept(t.cfg, u, s, s');
  }

  lemma {:induction false} WithRefs(t: Tools, u: Contents, s: Store, rs: seq<Ref>, data: seq<byte>) returns (s': Store)
    requires GoodTools(t) && NoCollision(t.cfg, u) && Safe(t.cfg, s, u) && Splits(t.cfg, u, rs, data) && |data| < U64
    ensures OnlyAdds(t.cfg, u, s, s') && Safe(t.cfg, s', u) && GoodRefs(t.cfg, s', u, rs)
    decreases |rs|
  {
    s' := s;
    if rs != [] {
      var init, last := rs[..|rs| - 1], rs[|rs| - 1];
      var m := WithRefs(t, u, s, init, data[..|data| - last.size]);
      s' := WithObject(t, u, m, data[|data| - last.size..]);
      OnlyAddsIsTransitive(t.cfg, u, s, m, s');
      LastRefToo(t.cfg, u, m, s', rs);
    }
  }

  lemma LastRefToo(cfg: Config, u: Contents, m: Store, s: Store, rs: seq<Ref>)
    requires rs != [] && GoodRefs(cfg, m, u, rs[..|rs| - 1]) && m.Keys <= s.Keys && GoodRef(cfg, s, u, rs[|rs| - 1])
    ensures GoodRefs(cfg, s, u, rs)
  {
    var init, last := rs[..|rs| - 1], rs[|rs| - 1];
    GoodRefsKept(cfg, u, m, s, init);
    GoodRefsSnoc(cfg, s, u, init, last);
    assert rs == init + [last];
  }

  lemma NothingIsSafe(cfg: Config, u: Contents)
    requires GoodConfig(cfg)
    ensures Safe(cfg, map[], u)
  {
  }

  // A repository without snapshots in which the objects of two files are there already.
  lemma StoreForTwo(t: Tools, u: Contents, x: seq<byte>, z: seq<byte>) returns (s: Store)
    requires GoodTools(t) && NoCollision(t.cfg, u) && SlicesIn(u, x) && SlicesIn(u, z) && |x| < U32 && |z| < U32
    ensures Safe(t.cfg, s, u) && (forall k :: k in s ==> k.Object?)
    ensures GoodRefs(t.cfg, s, u, RefsOfFile(t, x)) && GoodRefs(t.cfg, s, u, RefsOfFile(t, z))
  {
    NothingIsSafe(t.cfg, u);
    FileRefsSplit(t, u, x);
    FileRefsSplit(t, u, z);
    var m := WithRefs(t, u, map[], RefsOfFile(t, x), x);
    s := WithRefs(t, u, m, RefsOfFile(t, z), z);
    OnlyAddsIsTransitive(t.cfg, u, map[], m, s);
    GoodRefsKept(t.cfg, u, m, s, RefsOfFile(t, x));
    forall k | k in s
      ensures k.Object?
    {
      assert IsObject(t.cfg, u, k, s[k]);
    }
  }

  // ---- Runs over one file ---------------------------------------------------------------------------

  const VOLUME: Volume := Volume([], None, None, None, None)
  const WHO: seq<byte> := []

  // The snapshots are taken on different days.
  function SnapOn(day: nat): Snap {
    Snap(Stamp(day, 0, 0), None, None, None)
  }

  function IdOn(day: nat): string {
    Candidate(day, (0, 0), 0)
  }

  function EventsOn(day: nat, e: Entry): seq<Event> {
    [OnSnap(SnapOn(day)), OnVolume(VOLUME)] + [OnEntry(e)]
  }

  // A pick whose entry fits a record and whose references are all there.
  ghost predicate CanRecord(t: Tools, u: Contents, s: Store, p: Pick, idx: seq<Entry>, prev: string)
    requires GoodTools(t)
  {
    && NoCollision(t.cfg, u) && Safe(t.cfg, s, u) && Lock !in s
    && GoodSource(u, p.file) && p.file.entry.etype == FILE && FromIndex(idx, p)
    && UsedIndex(t.cfg, s, prev, idx)
    && ValidEvent(OnEntry(Recorded(t, p, false))) && GoodRefs(t.cfg, s, u, Recorded(t, p, false).content)
  }

  lemma OnePicks(t: Tools, p: Pick, idx: seq<Entry>)
    requires FromIndex(idx, p) && ValidEvent(OnEntry(Recorded(t, p, false))) && p.file.entry.etype == FILE
    ensures AllPicked(t, [p.file], idx, [p], false) && Picked([p.file], [p], 0, idx)
    ensures MarkedPaths(t, [p], false, false) == [p.file.entry.path]
    ensures EntryEvents(t, [p], false) == [OnEntry(Recorded(t, p, false))]
  {
    assert [p][..0] == [] && [p.file][..0] == [];
    assert Picked([], [], 0, idx) && AllPicked(t, [p.file], idx, [], false);
    assert MarkedPaths(t, [], false, false) == [];
  }

  lemma EventsFine(day: nat, e: Entry)
    requires day < U32 && ValidEvent(OnEntry(e))
    ensures ValidEvents(EventsOn(day, e)) && Ordered(EventsOn(day, e))
  {
    HeadIsValid(SnapOn(day), VOLUME);
    OneEventMore([OnSnap(SnapOn(day)), OnVolume(VOLUME)], OnEntry(e));
  }

  lemma OneEventMore(es: seq<Event>, e: Event)
    requires ValidEvents(es) && ValidEvent(e) && Ordered(es) && e.OnEntry?
    ensures ValidEvents(es + [e]) && Ordered(es + [e])
  {
  }

  lemma EventsHold(day: nat, e: Entry)
    ensures Refs(EventsOn(day, e)) == e.content && EntriesOf(EventsOn(day, e)) == [e]
  {
    var head := [OnSnap(SnapOn(day)), OnVolume(VOLUME)];
    NoEntries(head[0], head[1]);
    EntriesSnoc(head, e);
    RefsSnoc([], head[0]);
    RefsSnoc([head[0]], head[1]);
    RefsSnoc(head, OnEntry(e));
    assert [head[0]] + [head[1]] == head;
  }

  // The stores such a run leaves behind: the lock taken, perhaps the manifest, the lock
  // given back.
  function Taken(s: Store): Store {
    s[Lock := WHO]
  }

  ghost function WithManifest(cfg: Config, s: Store, id: string, es: seq<Event>): Store
    requires GoodConfig(cfg)
  {
    StartsWithHeader(es, cfg.hash);
    s[ManifestKey(id) := ManifestFile(cfg, id, ManifestBytes(es, cfg.hash))]
  }

  function TheRun(s: Store, es: seq<Event>, p: Pick, prev: string, idx: seq<Entry>): Run {
    Run(Taken(s), [Taken(s)], es, [p], 0, prev, idx)
  }

  lemma LockedIsSafe(cfg: Config, u: Contents, s: Store)
    requires GoodConfig(cfg) && Safe(cfg, s, u) && Lock !in s
    ensures Safe(cfg, Taken(s), u) && SameSnapshots(cfg, s, Taken(s)) && SameButLock(s, Taken(s))
    ensures Grown(cfg, u, Taken(s), [Taken(s)], Taken(s), [Taken(s)]) && Taken(s) - {Lock} == s
  {
    LockKeepsSafe(cfg, u, s, Taken(s));
    SnapshotKept(cfg, s, Taken(s));
    GrownIsReflexive(cfg, u, Taken(s), [Taken(s)]);
  }

  lemma ManifestIsCommitted(cfg: Config, s: Store, id: string, es: seq<Event>)
    requires GoodConfig(cfg) && |id| == 16 && ManifestKey(id) !in s
    ensures Committed(cfg, s, id, es, WithManifest(cfg, s, id, es))
  {
  }

  lemma CommitRanTo(cfg: Config, u: Contents, s1: Store, id: string, es: seq<Event>, s2: Store)
    requires GoodConfig(cfg) && Committed(cfg, s1, id, es, s2) && Ordered(es) && GoodRefs(cfg, s1, u, Refs(es))
    requires Grown(cfg, u, s1, [s1], s1, [s1])
    ensures RanTo(cfg, u, s1, [s1], s1, [s1], es, s2, [s1, s2])
  {
    assert [s1, s2] == [s1] + [s2];
  }

  // The run up to its commit.
  lemma CommitsTo(t: Tools, u: Contents, s: Store, p: Pick, idx: seq<Entry>, prev: string, day: nat, es: seq<Event>,
                  s2: Store)
    requires GoodTools(t) && CanRecord(t, u, s, p, idx, prev) && day < U32 && ManifestKey(IdOn(day)) !in s
    requires es == EventsOn(day, Recorded(t, p, false)) && s2 == WithManifest(t.cfg, Taken(s), IdOn(day), es)
    ensures ValidEvents(es) && RanTo(t.cfg, u, Taken(s), [Taken(s)], Taken(s), [Taken(s)], es, s2, [Taken(s), s2])
    ensures Committed(t.cfg, Taken(s), IdOn(day), es, s2)
  {
    EventsFine(day, Recorded(t, p, false));
    EventsHold(day, Recorded(t, p, false));
    LockedIsSafe(t.cfg, u, s);
    GoodRefsKept(t.cfg, u, s, Taken(s), Refs(es));
    ManifestIsCommitted(t.cfg, Taken(s), IdOn(day), es);
    CommitRanTo(t.cfg, u, Taken(s), IdOn(day), es, s2);
  }

  // What a run over one file leaves, with no commit or one.
  lemma Released(cfg: Config, u: Contents, s: Store, run: Run, s2: Store, p2: seq<Store>, r: Result<string>)
    requires GoodConfig(cfg) && NoCollision(cfg, u) && Safe(cfg, s, u) && Lock !in s && ValidEvents(run.events)
    requires RanTo(cfg, u, Taken(s), [Taken(s)], run.mid, run.q, run.events, s2, p2)
    requires r.Ok? ==> Committed(cfg, run.mid, r.value, run.events, s2)
    requires UsedIndex(cfg, s, run.id, run.idx)
    ensures RunResult(cfg, u, s, [], run, s2 - {Lock}, p2 + [s2 - {Lock}], r)
    ensures Steps(cfg, u, WHO, s, [], run, s2 - {Lock}, p2 + [s2 - {Lock}])
    ensures s2 == run.mid ==> SameSnapshots(cfg, s, s2 - {Lock})
  {
    LockedIsSafe(cfg, u, s);
    assert [] + [Taken(s)] == [Taken(s)];
    SameIndex(cfg, s, Taken(s), run.id, run.idx);
    AfterRun(cfg, u, s, [], Taken(s), [Taken(s)], run, s2, p2, r);
    AfterRelease(cfg, u, s, [], run, s2, p2, r, s2 - {Lock});
    GivenBack(cfg, u, WHO, s, [], run, s2, p2, s2 - {Lock});
  }

  // A run that records one file and commits.
  function CommitOf(s: Store, p: Pick, es: seq<Event>, prev: string, idx: seq<Entry>, day: nat): Commit {
    Commit(TheRun(s, es, p, prev, idx), SnapOn(day), VOLUME, [p.file], false)
  }

  lemma CommitHappens(t: Tools, u: Contents, s: Store, p: Pick, idx: seq<Entry>, prev: string, day: nat,
                      es: seq<Event>, s': Store)
    returns (a: Attempt)
    requires GoodTools(t) && CanRecord(t, u, s, p, idx, prev) && day < U32 && ManifestKey(IdOn(day)) !in s
    requires es == EventsOn(day, Recorded(t, p, false)) && s' == WithManifest(t.cfg, s, IdOn(day), es)
    ensures Attempted(t, u, s, a, s') && a.r.Ok? && a.marked == [p.file.entry.path]
    ensures a.c == CommitOf(s, p, es, prev, idx, day)
    ensures Safe(t.cfg, s', u) && SnapshotEvents(t.cfg, s', IdOn(day)) == Some(es)
  {
    var past := CommitLeaves(t, u, s, p, idx, prev, day, es, s');
    a := Attempt(CommitOf(s, p, es, prev, idx, day), false, WHO, [], past, Ok(IdOn(day)), [p.file.entry.path]);
    RunIsAttempted(t, u, s, p, idx, prev, day, a, s');
    FirstIsFree(Taken(s), day);
  }

  lemma RunIsAttempted(t: Tools, u: Contents, s: Store, p: Pick, idx: seq<Entry>, prev: string, day: nat, a: Attempt,
                       s': Store)
    requires GoodTools(t) && CanRecord(t, u, s, p, idx, prev) && day < U32
    requires a.c == CommitOf(s, p, EventsOn(day, Recorded(t, p, false)), prev, idx, day)
    ensures GoodSources(u, a.c.files) && ValidStamp(a.c.snap.created) && ValidVolume(a.c.vol)
    ensures AllPicked(t, a.c.files, a.c.run.idx, a.c.run.picks, false)
    ensures [p.file.entry.path] == MarkedPaths(t, a.c.run.picks, false, false)
    ensures Completed(t, a.c.run, a.c.snap, a.c.vol, a.c.files, false)
  {
    OnePicks(t, p, idx);
  }

  lemma CommitLeaves(t: Tools, u: Contents, s: Store, p: Pick, idx: seq<Entry>, prev: string, day: nat,
                     es: seq<Event>, s': Store)
    returns (past: seq<Store>)
    requires GoodTools(t) && CanRecord(t, u, s, p, idx, prev) && day < U32 && ManifestKey(IdOn(day)) !in s
    requires es == EventsOn(day, Recorded(t, p, false)) && s' == WithManifest(t.cfg, s, IdOn(day), es)
    ensures RunResult(t.cfg, u, s, [], TheRun(s, es, p, prev, idx), s', past, Ok(IdOn(day)))
    ensures Steps(t.cfg, u, WHO, s, [], TheRun(s, es, p, prev, idx), s', past)
  {
    var s2 := WithManifest(t.cfg, Taken(s), IdOn(day), es);
    CommitsTo(t, u, s, p, idx, prev, day, es, s2);
    Released(t.cfg, u, s, TheRun(s, es, p, prev, idx), s2, [Taken(s), s2], Ok(IdOn(day)));
    Unlocked(s, ManifestKey(IdOn(day)), ManifestFile(t.cfg, IdOn(day), ManifestBytes(es, t.cfg.hash)));
    past := [Taken(s), s2] + [s'];
  }

  lemma Unlocked(s: Store, k: Key, file: seq<byte>)
    requires Lock !in s && k != Lock
    ensures Taken(s)[k := file] - {Lock} == s[k := file]
  {
  }

  lemma FirstIsFree(s: Store, day: nat)
    ensures IsIdFor(s, SnapOn(day).created, IdOn(day))
  {
    assert AllTaken(s, day, (0, 0), 0);
  }

  // A run that records one file, sets its archive bit and is aborted.
  lemma AbortHappens(t: Tools, u: Contents, s: Store, p: Pick, idx: seq<Entry>, prev: string,
                     day: nat) returns (a: Attempt)
    requires GoodTools(t) && CanRecord(t, u, s, p, idx, prev) && day < U32
    ensures Attempted(t, u, s, a, s) && a.r == Err(Aborted) && a.marked == [p.file.entry.path] && a.c.files == [p.file]
  {
    var es := EventsOn(day, Recorded(t, p, false));
    var c := CommitOf(s, p, es, prev, idx, day);
    EventsFine(day, Recorded(t, p, false));
    LockedIsSafe(t.cfg, u, s);
    Released(t.cfg, u, s, c.run, Taken(s), [Taken(s)], Err(Aborted));
    a := Attempt(c, false, WHO, [], [Taken(s)] + [s], Err(Aborted), [p.file.entry.path]);
    RunIsAttempted(t, u, s, p, idx, prev, day, a, s);
  }

  // ---- The history ---------------------------------------------------------------------------------

  const NEVER: nat -> bool := n => false

  ghost predicate Fits(u: Contents, v: Version) {
    |v.path| < U16 && ValidStamp(v.date) && |v.data| < U32 && SlicesIn(u, v.data)
  }

  // A freshly written file, and the same once its archive bit is set.
  function FileFor(v: Version, prot: nat): File {
    File(Entry(v.path, FILE, prot, v.date, None, None, None, [], None, None), v.data)
  }

  function Shown(f: File): Source {
    Source(f.entry, f.data, true, true, true, NEVER)
  }

  lemma PickFits(t: Tools, u: Contents, s: Store, v: Version, prot: nat, prev: Option<Entry>, idx: seq<Entry>,
                 id: string)
    requires GoodTools(t) && NoCollision(t.cfg, u) && Safe(t.cfg, s, u) && Lock !in s && Fits(u, v) && prot < U32
    requires prev.Some? ==> prev.value.path == v.path && ValidEvent(OnEntry(prev.value))
    requires idx == (if prev.Some? then [prev.value] else []) && UsedIndex(t.cfg, s, id, idx)
    requires GoodRefs(t.cfg, s, u, Recorded(t, Pick(Shown(FileFor(v, prot)), prev), false).content)
    ensures CanRecord(t, u, s, Pick(Shown(FileFor(v, prot)), prev), idx, id)
  {
    RecordedIsValid(t, u, Pick(Shown(FileFor(v, prot)), prev), false);
  }

  // What each of the three runs records.
  lemma FirstRecords(t: Tools, v: Version, prev: Option<Entry>)
    ensures var e := Recorded(t, Pick(Shown(FileFor(v, 0)), prev), false);
      e == FullEntry(t, Shown(FileFor(v, 0))) && IsOf(t, v, e) && e.prot == 0 && e.etype == FILE
  {
  }

  lemma LastReuses(t: Tools, x: Version, z: Version, e: Entry)
    requires Alike(x, z) && e == FullEntry(t, Shown(FileFor(x, 0)))
    ensures Recorded(t, Pick(Shown(FileFor(z, ARCHIVE)), Some(e)), false).content == RefsOfFile(t, x.data)
  {
  }

  function Only(f: File): Disk {
    map[f.entry.path := f]
  }

  lemma BitIsSet(v: Version)
    ensures SetBits(Only(FileFor(v, 0)), {v.path}) == Only(FileFor(v, ARCHIVE))
    ensures SetBits(Only(FileFor(v, ARCHIVE)), {v.path}) == Only(FileFor(v, ARCHIVE))
  {
  }

  lemma OneFileHappens(t: Tools, u: Contents, v: Version, prot: nat, s: Store, a: Attempt, s': Store)
    requires GoodTools(t) && (prot == 0 || prot == ARCHIVE) && Attempted(t, u, s, a, s')
    requires a.c.files == [Shown(FileFor(v, prot))] && a.marked == [v.path]
    ensures Happens(t, u, World(Only(FileFor(v, prot)), s), BackUp(a, {v.path}), World(Only(FileFor(v, ARCHIVE)), s'))
  {
    BitIsSet(v);
  }

  ghost predicate OnlyWritten(acts: seq<Act>) {
    forall x :: x in acts ==> x.Write? || x.BackUp?
  }

  // Each write moves the datestamp of the file it replaces.
  ghost predicate EachMoves(worlds: seq<World>, acts: seq<Act>)
    requires |worlds| == |acts| + 1
    decreases |acts|
  {
    acts == []
    || (var n := |acts| - 1;
        (acts[n].Write? ==> Moves(worlds[n].disk, acts[n])) && EachMoves(worlds[..n + 1], acts[..n]))
  }

  predicate Moves(disk: Disk, x: Act)
    requires x.Write?
  {
    x.path in disk ==> disk[x.path].entry.date != x.file.entry.date
  }

  ghost predicate Told(t: Tools, u: Contents, vs: Versions, worlds: seq<World>, acts: seq<Act>, moves: bool)
    requires GoodTools(t)
  {
    IsHistory(t, u, vs, worlds, acts) && OnlyWritten(acts) && (moves ==> EachMoves(worlds, acts))
  }

  lemma ToldMore(t: Tools, u: Contents, vs: Versions, worlds: seq<World>, acts: seq<Act>, moves: bool, w: World,
                 x: Act, w': World)
    requires GoodTools(t) && Told(t, u, vs, worlds, acts, moves) && worlds[|acts|] == w
    requires Happens(t, u, w, x, w') && Within(vs, w'.disk) && (x.Write? || x.BackUp?)
    requires moves && x.Write? ==> Moves(w.disk, x)
    ensures Told(t, u, vs, worlds + [w'], acts + [x], moves) && (worlds + [w'])[|acts| + 1] == w'
  {
    var ws, xs := worlds + [w'], acts + [x];
    assert ws[..|acts| + 1] == worlds && xs[..|acts|] == acts;
  }

  // A run over the one file there is, with its bit set afterwards.
  lemma BackUpMore(t: Tools, u: Contents, vs: Versions, worlds: seq<World>, acts: seq<Act>, moves: bool,
                   v: Version, prot: nat, s: Store, a: Attempt, s': Store)
    requires GoodTools(t) && Told(t, u, vs, worlds, acts, moves) && worlds[|acts|] == World(Only(FileFor(v, prot)), s)
    requires Attempted(t, u, s, a, s') && a.c.files == [Shown(FileFor(v, prot))] && a.marked == [v.path]
    requires v in vs && (prot == 0 || prot == ARCHIVE)
    ensures Told(t, u, vs, worlds + [World(Only(FileFor(v, ARCHIVE)), s')], acts + [BackUp(a, {v.path})], moves)
  {
    OneFileHappens(t, u, v, prot, s, a, s');
    ToldMore(t, u, vs, worlds, acts, moves, World(Only(FileFor(v, prot)), s), BackUp(a, {v.path}), World(Only(FileFor(v, ARCHIVE)), s'));
  }

  // The index of the only snapshot there is.
  lemma IndexOfOne(cfg: Config, s: Store, day: nat, e: Entry)
    requires GoodConfig(cfg) && SnapshotEvents(cfg, s, IdOn(day)) == Some(EventsOn(day, e))
    requires forall k :: k in s ==> k.Object? || k == ManifestKey(IdOn(day))
    ensures UsedIndex(cfg, s, IdOn(day), [e])
  {
    EventsHold(day, e);
    forall x: string | |x| == 16 && ManifestKey(x) in s
      ensures !StrLess(IdOn(day), x)
    {
      SuffixOnce(x, IdOn(day));
      StrLessTotal(x, x);
    }
  }

  // What the other two runs find.
  ghost predicate AfterFirst(t: Tools, u: Contents, s: Store, x: Version, z: Version, e: Entry)
    requires GoodTools(t)
  {
    && Safe(t.cfg, s, u) && Lock !in s && ManifestKey(IdOn(1)) !in s
    && e == FullEntry(t, Shown(FileFor(x, 0))) && ValidEvent(OnEntry(e)) && UsedIndex(t.cfg, s, IdOn(0), [e])
    && GoodRefs(t.cfg, s, u, RefsOfFile(t, x.data)) && GoodRefs(t.cfg, s, u, RefsOfFile(t, z.data))
  }

  lemma FirstBackUp(t: Tools, u: Contents, vs: Versions, worlds: seq<World>, acts: seq<Act>, moves: bool,
                    s0: Store, x: Version, z: Version)
    returns (a: Attempt, e: Entry, s: Store)
    requires GoodTools(t) && Told(t, u, vs, worlds, acts, moves) && worlds[|acts|] == World(Only(FileFor(x, 0)), s0) && x in vs
    requires GoodTools(t) && NoCollision(t.cfg, u) && Fits(u, x) && Safe(t.cfg, s0, u) && forall k :: k in s0 ==> k.Object?
    requires GoodRefs(t.cfg, s0, u, RefsOfFile(t, x.data)) && GoodRefs(t.cfg, s0, u, RefsOfFile(t, z.data))
    ensures Told(t, u, vs, worlds + [World(Only(FileFor(x, ARCHIVE)), s)], acts + [BackUp(a, {x.path})], moves)
    ensures AfterFirst(t, u, s, x, z, e)
  {
    var p := Pick(Shown(FileFor(x, 0)), None);
    e := Recorded(t, p, false);
    FirstRecords(t, x, None);
    PickFits(t, u, s0, x, 0, None, [], "");
    s := WithManifest(t.cfg, s0, IdOn(0), EventsOn(0, e));
    a := CommitHappens(t, u, s0, p, [], "", 0, EventsOn(0, e), s);
    BackUpMore(t, u, vs, worlds, acts, moves, x, 0, s0, a, s);
    IndexOfOne(t.cfg, s, 0, e);
    FirstLeaves(t, u, s0, x, z, e, s, ManifestFile(t.cfg, IdOn(0), ManifestBytes(EventsOn(0, e), t.cfg.hash)));
  }

  lemma FirstLeaves(t: Tools, u: Contents, s0: Store, x: Version, z: Version, e: Entry, s: Store, file: seq<byte>)
    requires GoodTools(t) && (forall k :: k in s0 ==> k.Object?) && s == s0[ManifestKey(IdOn(0)) := file]
    requires GoodRefs(t.cfg, s0, u, RefsOfFile(t, x.data)) && GoodRefs(t.cfg, s0, u, RefsOfFile(t, z.data))
    requires Safe(t.cfg, s, u) && UsedIndex(t.cfg, s, IdOn(0), [e])
    requires e == FullEntry(t, Shown(FileFor(x, 0))) && ValidEvent(OnEntry(e))
    ensures AfterFirst(t, u, s, x, z, e)
  {
    FreeOnDayOne(s0, s);
    BothStay(t.cfg, u, s0, s, RefsOfFile(t, x.data), RefsOfFile(t, z.data));
  }

  lemma BothStay(cfg: Config, u: Contents, s0: Store, s: Store, xs: seq<Ref>, zs: seq<Ref>)
    requires GoodRefs(cfg, s0, u, xs) && GoodRefs(cfg, s0, u, zs) && s0.Keys <= s.Keys
    ensures GoodRefs(cfg, s, u, xs) && GoodRefs(cfg, s, u, zs)
  {
    GoodRefsKept(cfg, u, s0, s, xs);
    GoodRefsKept(cfg, u, s0, s, zs);
  }

  lemma FreeOnDayOne(s0: Store, s: Store)
    requires (forall k :: k in s0 ==> k.Object?) && s.Keys == s0.Keys + {ManifestKey(IdOn(0))}
    ensures ManifestKey(IdOn(1)) !in s && Lock !in s
  {
    IdsAreChronological(0, 0, 0, 1, 0, 0);
    if ManifestKey(IdOn(1)) == ManifestKey(IdOn(0)) {
      SuffixOnce(IdOn(0), IdOn(1));
    }
  }

  lemma SecondBackUp(t: Tools, u: Contents, vs: Versions, worlds: seq<World>, acts: seq<Act>, moves: bool,
                     s: Store, x: Version, z: Version, e: Entry)
    returns (a: Attempt)
    requires GoodTools(t) && Told(t, u, vs, worlds, acts, moves) && worlds[|acts|] == World(Only(FileFor(z, 0)), s) && z in vs
    requires GoodTools(t) && NoCollision(t.cfg, u) && Fits(u, z) && x.path == z.path && AfterFirst(t, u, s, x, z, e)
    ensures Told(t, u, vs, worlds + [World(Only(FileFor(z, ARCHIVE)), s)], acts + [BackUp(a, {z.path})], moves)
  {
    FirstRecords(t, z, Some(e));
    PickFits(t, u, s, z, 0, Some(e), [e], IdOn(0));
    a := AbortHappens(t, u, s, Pick(Shown(FileFor(z, 0)), Some(e)), [e], IdOn(0), 1);
    BackUpMore(t, u, vs, worlds, acts, moves, z, 0, s, a, s);
  }

  lemma ThirdBackUp(t: Tools, u: Contents, vs: Versions, worlds: seq<World>, acts: seq<Act>, moves: bool,
                    s: Store, x: Version, z: Version, e: Entry)
    returns (a: Attempt, s': Store)
    requires GoodTools(t) && Told(t, u, vs, worlds, acts, moves) && worlds[|acts|] == World(Only(FileFor(z, ARCHIVE)), s) && z in vs
    requires GoodTools(t) && NoCollision(t.cfg, u) && Fits(u, x) && Fits(u, z) && Alike(x, z) && x != z
    requires AfterFirst(t, u, s, x, z, e)
    ensures Told(t, u, vs, worlds + [World(Only(FileFor(z, ARCHIVE)), s')], acts + [BackUp(a, {z.path})], moves)
    ensures !IsFull(t, s, BackUp(a, {z.path}), s')
  {
    var p := Pick(Shown(FileFor(z, ARCHIVE)), Some(e));
    LastReuses(t, x, z, e);
    PickFits(t, u, s, z, ARCHIVE, Some(e), [e], IdOn(0));
    var es := EventsOn(1, Recorded(t, p, false));
    s' := WithManifest(t.cfg, s, IdOn(1), es);
    a := CommitHappens(t, u, s, p, [e], IdOn(0), 1, es, s');
    BackUpMore(t, u, vs, worlds, acts, moves, z, ARCHIVE, s, a, s');
    NotTheSame(t, u, s, x, z, p, es, IdOn(0), [e], 1);
  }

  lemma NotTheSame(t: Tools, u: Contents, s: Store, x: Version, z: Version, p: Pick, es: seq<Event>, prev: string,
                   idx: seq<Entry>, day: nat)
    requires GoodTools(t) && NoCollision(t.cfg, u) && Fits(u, x) && Fits(u, z) && x.data != z.data
    requires p.file == Shown(FileFor(z, ARCHIVE)) && es == EventsOn(day, Recorded(t, p, false))
    requires Recorded(t, p, false).content == RefsOfFile(t, x.data)
    ensures !SameButSum(es, FullEvents(t, CommitOf(s, p, es, prev, idx, day)))
  {
    if RefsOfFile(t, x.data) == RefsOfFile(t, z.data) {
      DifferentRefs(t, u, x.data, z.data);
    }
    assert es[2].entry.content != FullEvents(t, CommitOf(s, p, es, prev, idx, day))[2].entry.content;
  }

  // ---- Exactly when -----------------------------------------------------------------------------------

  // The next write, of the only file there is.
  lemma WriteMore(t: Tools, u: Contents, vs: Versions, worlds: seq<World>, acts: seq<Act>, moves: bool, disk: Disk,
                  s: Store, v: Version)
    returns (worlds': seq<World>, acts': seq<Act>)
    requires GoodTools(t) && Told(t, u, vs, worlds, acts, moves) && worlds[|acts|] == World(disk, s)
    requires Fits(u, v) && v in vs && disk.Keys <= {v.path}
    requires moves && v.path in disk ==> disk[v.path].entry.date != v.date
    ensures |acts'| == |acts| + 1 && Told(t, u, vs, worlds', acts', moves) && worlds'[|acts'|] == World(Only(FileFor(v, 0)), s)
  {
    var w', x := World(Only(FileFor(v, 0)), s), Write(v.path, FileFor(v, 0));
    worlds', acts' := worlds + [w'], acts + [x];
    WriteHappens(t, u, disk, s, v, x, w');
    ToldMore(t, u, vs, worlds, acts, moves, World(disk, s), x, w');
  }

  lemma WriteHappens(t: Tools, u: Contents, disk: Disk, s: Store, v: Version, x: Act, w': World)
    requires GoodTools(t) && Fits(u, v) && disk.Keys <= {v.path}
    requires x == Write(v.path, FileFor(v, 0)) && w' == World(Only(FileFor(v, 0)), s)
    ensures Happens(t, u, World(disk, s), x, w')
  {
    assert disk[v.path := FileFor(v, 0)] == Only(FileFor(v, 0));
  }

  lemma NoneTold(t: Tools, u: Contents, vs: Versions, s0: Store, moves: bool)
    requires GoodTools(t) && forall k :: k in s0 ==> k.Object?
    ensures Told(t, u, vs, [World(map[], s0)], [], moves)
  {
  }

  // x is backed up, y is written, then z; a run reads z, sets its archive bit and is
  // aborted; the next run takes z for x.
  lemma ZIsTakenForX(t: Tools, u: Contents, vs: Versions, x: Version, y: Version, z: Version, moves: bool)
    returns (worlds: seq<World>, acts: seq<Act>)
    requires GoodTools(t) && NoCollision(t.cfg, u) && Fits(u, x) && Fits(u, y) && Fits(u, z)
    requires Alike(x, z) && x != z && y.path == x.path && x in vs && y in vs && z in vs && (moves ==> y.date != x.date)
    ensures Told(t, u, vs, worlds, acts, moves) && !AllFull(t, worlds, acts)
  {
    var s0 := StoreForTwo(t, u, x.data, z.data);
    NoneTold(t, u, vs, s0, moves);
    worlds, acts := WriteMore(t, u, vs, [World(map[], s0)], [], moves, map[], s0, x);
    var a, e, s := FirstBackUp(t, u, vs, worlds, acts, moves, s0, x, z);
    worlds, acts := worlds + [World(Only(FileFor(x, ARCHIVE)), s)], acts + [BackUp(a, {x.path})];
    worlds, acts := WriteMore(t, u, vs, worlds, acts, moves, Only(FileFor(x, ARCHIVE)), s, y);
    worlds, acts := WriteMore(t, u, vs, worlds, acts, moves, Only(FileFor(y, 0)), s, z);
    worlds, acts := ThenTaken(t, u, vs, worlds, acts, moves, s, x, z, e);
  }

  lemma ThenTaken(t: Tools, u: Contents, vs: Versions, worlds: seq<World>, acts: seq<Act>, moves: bool, s: Store,
                  x: Version, z: Version, e: Entry)
    returns (worlds': seq<World>, acts': seq<Act>)
    requires GoodTools(t) && NoCollision(t.cfg, u) && Fits(u, x) && Fits(u, z) && Alike(x, z) && x != z && z in vs
    requires Told(t, u, vs, worlds, acts, moves) && worlds[|acts|] == World(Only(FileFor(z, 0)), s)
    requires AfterFirst(t, u, s, x, z, e)
    ensures Told(t, u, vs, worlds', acts', moves) && !AllFull(t, worlds', acts')
  {
    var a2 := SecondBackUp(t, u, vs, worlds, acts, moves, s, x, z, e);
    var ws, xs := worlds + [World(Only(FileFor(z, ARCHIVE)), s)], acts + [BackUp(a2, {z.path})];
    var a3, s' := ThirdBackUp(t, u, vs, ws, xs, moves, s, x, z, e);
    worlds', acts' := ws + [World(Only(FileFor(z, ARCHIVE)), s')], xs + [BackUp(a3, {z.path})];
    assert !IsFull(t, worlds'[|xs|].store, acts'[|xs|], worlds'[|xs| + 1].store);
  }

  // Stamps and lengths must tell every two versions of a path apart: then no history goes
  // wrong, and else one of nothing but writes and runs does.
  lemma StampsDecide(t: Tools, u: Contents, vs: Versions)
    requires GoodTools(t) && NoCollision(t.cfg, u) && forall v :: v in vs ==> Fits(u, v)
    ensures StampsTell(vs) <==> forall worlds, acts :: IsHistory(t, u, vs, worlds, acts) ==> AllFull(t, worlds, acts)
    ensures StampsTell(vs) <==>
            forall worlds, acts :: IsHistory(t, u, vs, worlds, acts) && OnlyWritten(acts) ==> AllFull(t, worlds, acts)
  {
    if StampsTell(vs) {
      forall worlds, acts | IsHistory(t, u, vs, worlds, acts)
        ensures AllFull(t, worlds, acts)
      {
        IncrementalIsFull(t, u, vs, worlds, acts);
      }
    } else {
      var x, z :| x in vs && z in vs && Alike(x, z) && x != z;
      var worlds, acts := ZIsTakenForX(t, u, vs, x, z, z, false);
    }
  }

  // It does not help that each write moves the stamp, when it may move back.
  lemma MovingIsNotEnough(t: Tools, u: Contents, x: Version, y: Version, z: Version) returns (worlds: seq<World>,
                          acts: seq<Act>)
    requires GoodTools(t) && NoCollision(t.cfg, u) && Fits(u, x) && Fits(u, y) && Fits(u, z)
    requires Alike(x, z) && x != z && y.path == x.path && y.date != x.date
    ensures IsHistory(t, u, iset{x, y, z}, worlds, acts) && OnlyWritten(acts) && EachMoves(worlds, acts)
    ensures !AllFull(t, worlds, acts)
  {
    worlds, acts := ZIsTakenForX(t, u, iset{x, y, z}, x, y, z, true);
  }
}
