// SNAPSHOT and PRUNE processes side by side on one repository: every step is one backend
// operation of one process, any process may die between two of its steps, and the lock is
// all that keeps them apart.

module Machine {
  import opened BackendStore
  import opened Bytes
  import opened HexNames
  import opened Manifest
  import opened Meta
  import opened Prune
  import opened Repo
  import opened RepoWriters
  import opened Safety

  // What a live process knows: a snapshot the references recorded so far, those of the
  // previous snapshot it loaded, and an id it found free; a prune what is left to mark and
  // what it marked.
  datatype Proc =
    | Snapping(refs: seq<Ref>, prev: seq<Ref>, free: Option<string>)
    | Deleting
    | Marking(left: set<string>, marks: set<string>)
    | Sweeping(marks: set<string>)

  datatype State = State(store: Store, procs: map<nat, Proc>)

  datatype Step =
    | Acquire(p: nat, prune: bool, who: seq<byte>)
    | Release(p: nat)
    | Crash(p: nat)
    | RemoveStaleLock
    | WriteTmp(n: string, v: seq<byte>)
    // SNAPSHOT
    | LoadPrevious(p: nat, id: string)
    | FindObject(p: nat, c: seq<byte>)                                  // already there
    | PutObject(p: nat, c: seq<byte>, raw: seq<byte>, reported: bool)   // reported: seen to succeed
    | Reuse(p: nat, r: Ref)                                             // unchanged file
    | FindFreeId(p: nat, id: string)
    | PutManifest(p: nat, es: seq<Event>)
    // PRUNE
    | DeleteManifest(p: nat, id: string)
    | ListSnapshots(p: nat)
    | MarkManifest(p: nat, id: string)
    | BeginSweep(p: nat)
    | SweepObject(p: nat, b: string, n: string)
    | RemoveTmp(p: nat, n: string)

  ghost predicate IsSnapping(s: State, p: nat) {
    p in s.procs && s.procs[p].Snapping?
  }

  function Without<K, V>(m: map<K, V>, k: K): map<K, V> {
    m - {k}
  }

  ghost function Marks(cfg: Config, s: Store, id: string): set<string>
    requires GoodConfig(cfg) && SnapshotEvents(cfg, s, id).Some?
  {
    set n | n in NamesOf(Refs(SnapshotEvents(cfg, s, id).value))
  }

  // ---- The steps --------------------------------------------------------------------------

  // A snapshot's steps once it holds the lock.
  ghost predicate SnapshotStep(cfg: Config, u: Contents, s: State, a: Step, t: State)
    requires GoodConfig(cfg)
  {
    match a
    case LoadPrevious(p, id) =>
      && IsSnapping(s, p) && |id| == 16 && SnapshotEvents(cfg, s.store, id).Some?
      && t == s.(procs := s.procs[p := s.procs[p].(prev := Refs(SnapshotEvents(cfg, s.store, id).value))])
    case FindObject(p, c) =>
      && IsSnapping(s, p) && c in u && ObjectKey(cfg.hash(c)) in s.store
      && t == s.(procs := s.procs[p := s.procs[p].(refs := s.procs[p].refs + [RefOf(cfg, c)])])
    case PutObject(p, c, raw, reported) =>
      && IsSnapping(s, p) && c in u && Stores(cfg, raw, c)
      && t.store == s.store[ObjectKey(cfg.hash(c)) := raw]
      && t.procs == if reported then s.procs[p := s.procs[p].(refs := s.procs[p].refs + [RefOf(cfg, c)])] else s.procs
    case Reuse(p, r) =>
      && IsSnapping(s, p) && r in s.procs[p].prev
      && t == s.(procs := s.procs[p := s.procs[p].(refs := s.procs[p].refs + [r])])
    case FindFreeId(p, id) =>
      && IsSnapping(s, p) && |id| == 16 && ManifestKey(id) !in s.store
      && t == s.(procs := s.procs[p := s.procs[p].(free := Some(id))])
    case PutManifest(p, es) =>
      && IsSnapping(s, p) && s.procs[p].free.Some?
      && Ordered(es) && ValidEvents(es) && (forall r :: r in Refs(es) ==> r in s.procs[p].refs)
      && t.procs == s.procs[p := s.procs[p].(free := None)]
      && PutsManifest(cfg, s.store, s.procs[p].free.value, es, t.store)
    case _ => false
  }

  ghost predicate PutsManifest(cfg: Config, s: Store, id: string, es: seq<Event>, t: Store)
    requires GoodConfig(cfg)
  {
    StartsWithHeader(es, cfg.hash);
    t == s[ManifestKey(id) := ManifestFile(cfg, id, ManifestBytes(es, cfg.hash))]
  }

  // A prune's steps once it holds the lock.
  ghost predicate PruneStep(cfg: Config, s: State, a: Step, t: State)
    requires GoodConfig(cfg)
  {
    match a
    case DeleteManifest(p, id) =>
      p in s.procs && s.procs[p].Deleting? && t == s.(store := Without(s.store, ManifestKey(id)))
    case ListSnapshots(p) =>
      && p in s.procs && s.procs[p].Deleting? && p in t.procs && t.procs[p].Marking? && t.procs[p].marks == {}
      && (forall id :: id in t.procs[p].left <==> Present(s.store, id))
      && t == s.(procs := s.procs[p := t.procs[p]])
    case MarkManifest(p, id) =>
      && p in s.procs && s.procs[p].Marking? && id in s.procs[p].left && SnapshotEvents(cfg, s.store, id).Some?
      && t == s.(procs := s.procs[p := Marking(s.procs[p].left - {id}, s.procs[p].marks + Marks(cfg, s.store, id))])
    case BeginSweep(p) =>
      && p in s.procs && s.procs[p].Marking? && s.procs[p].left == {}
      && t == s.(procs := s.procs[p := Sweeping(s.procs[p].marks)])
    case SweepObject(p, b, n) =>
      && p in s.procs && s.procs[p].Sweeping? && n !in s.procs[p].marks
      && t == s.(store := Without(s.store, Object(b, n)))
    case RemoveTmp(p, n) =>
      p in s.procs && s.procs[p].Sweeping? && t == s.(store := Without(s.store, Tmp(n)))
    case _ => false
  }

  // Coming and going: taking the lock is one step, and it is refused while the lock is
  // there; a crash leaves the lock behind, for the operator to remove when nothing runs.
  ghost predicate LockStep(s: State, a: Step, t: State) {
    match a
    case Acquire(p, prune, who) =>
      && Lock !in s.store && p !in s.procs
      && t == State(s.store[Lock := who], s.procs[p := if prune then Deleting else Snapping([], [], None)])
    case Release(p) => p in s.procs && t == State(Without(s.store, Lock), Without(s.procs, p))
    case Crash(p) => p in s.procs && t == s.(procs := Without(s.procs, p))
    case RemoveStaleLock => s.procs == map[] && t == s.(store := Without(s.store, Lock))
    case WriteTmp(n, v) => t == s.(store := s.store[Tmp(n) := v])
    case _ => false
  }

  ghost predicate Next(cfg: Config, u: Contents, s: State, a: Step, t: State)
    requires GoodConfig(cfg)
  {
    LockStep(s, a, t) || SnapshotStep(cfg, u, s, a, t) || PruneStep(cfg, s, a, t)
  }

  // ---- The invariant ---------------------------------------------------------------------------

  // One process at a time, and only under the lock.
  ghost predicate Exclusive(s: State) {
    && (forall p, q :: p in s.procs && q in s.procs ==> p == q)
    && (forall p :: p in s.procs ==> Lock in s.store)
  }

  // Everything a snapshot in the store refers to is marked, or its manifest is still to read.
  ghost predicate MarkedOrLeft(cfg: Config, s: Store, left: set<string>, marks: set<string>)
    requires GoodConfig(cfg)
  {
    forall id :: Present(s, id) && id !in left && SnapshotEvents(cfg, s, id).Some? ==> Marks(cfg, s, id) <= marks
  }

  ghost predicate ProcFine(cfg: Config, u: Contents, s: Store, x: Proc)
    requires GoodConfig(cfg)
  {
    match x
    case Snapping(refs, prev, free) =>
      && GoodRefs(cfg, s, u, refs) && GoodRefs(cfg, s, u, prev)
      && (free.Some? ==> |free.value| == 16 && ManifestKey(free.value) !in s)
    case Deleting => true
    case Marking(left, marks) => MarkedOrLeft(cfg, s, left, marks)
    case Sweeping(marks) => MarkedOrLeft(cfg, s, {}, marks)
  }

  ghost predicate Inv(cfg: Config, u: Contents, s: State)
    requires GoodConfig(cfg)
  {
    && Exclusive(s) && Safe(cfg, s.store, u) && AllReadable(cfg, s.store)
    && forall p :: p in s.procs ==> ProcFine(cfg, u, s.store, s.procs[p])
  }

  // A repository as it is made: nothing but, perhaps, its header.
  ghost predicate Init(s: State) {
    s.store.Keys <= {Header} && s.procs == map[]
  }

  // ---- Lemmas about stores ------------------------------------------------------------------------

  // Manifests and objects are the same; only the lock and tmp/ may differ.
  ghost predicate SameContent(s: Store, t: Store) {
    forall k: Key :: k.Snapshot? || k.Object? ==> (k in s <==> k in t) && (k in s ==> t[k] == s[k])
  }

  lemma SameContentKeeps(cfg: Config, u: Contents, s: Store, t: Store)
    requires GoodConfig(cfg) && SameContent(s, t) && Safe(cfg, s, u) && AllReadable(cfg, s)
    ensures Safe(cfg, t, u) && AllReadable(cfg, t)
    ensures forall x :: ProcFine(cfg, u, s, x) ==> ProcFine(cfg, u, t, x)
  {
    forall id: string
      ensures SnapshotEvents(cfg, t, id) == SnapshotEvents(cfg, s, id) && (Present(t, id) <==> Present(s, id))
    {
    }
    forall id: string | |id| == 16
      ensures GoodSnapshot(cfg, t, u, id)
    {
      assert GoodSnapshot(cfg, s, u, id);
      if SnapshotEvents(cfg, t, id).Some? {
        GoodRefsKept(cfg, u, s, t, Refs(SnapshotEvents(cfg, t, id).value));
      }
    }
    forall x | ProcFine(cfg, u, s, x)
      ensures ProcFine(cfg, u, t, x)
    {
      if x.Snapping? {
        GoodRefsKept(cfg, u, s, t, x.refs);
        GoodRefsKept(cfg, u, s, t, x.prev);
      }
    }
  }

  lemma EventsKept(cfg: Config, s: Store, t: Store, id: string)
    requires GoodConfig(cfg) && (ManifestKey(id) in s <==> ManifestKey(id) in t)
    requires ManifestKey(id) in s ==> t[ManifestKey(id)] == s[ManifestKey(id)]
    ensures SnapshotEvents(cfg, t, id) == SnapshotEvents(cfg, s, id)
  {
  }

  ghost predicate RefersTo(cfg: Config, s: Store, id: string, r: Ref)
    requires GoodConfig(cfg)
  {
    && Present(s, id) && SnapshotEvents(cfg, s, id).Some?
    && r in Refs(SnapshotEvents(cfg, s, id).value) && |r.hash| == 32
  }

  // Objects may come and go as long as what readable snapshots refer to stays.
  lemma SameSnapshotsKeep(cfg: Config, u: Contents, s: Store, t: Store)
    requires GoodConfig(cfg) && Safe(cfg, s, u) && AllReadable(cfg, s) && GoodObjects(cfg, t, u)
    requires forall k: Key :: k.Snapshot? ==> (k in s <==> k in t) && (k in s ==> t[k] == s[k])
    requires forall id: string, r :: RefersTo(cfg, s, id, r) ==> ObjectKey(r.hash) in t
    ensures Safe(cfg, t, u) && AllReadable(cfg, t)
  {
    forall id: string
      ensures SnapshotEvents(cfg, t, id) == SnapshotEvents(cfg, s, id) && (Present(t, id) <==> Present(s, id))
    {
      EventsKept(cfg, s, t, id);
    }
    forall id: string | |id| == 16
      ensures GoodSnapshot(cfg, t, u, id)
    {
      assert GoodSnapshot(cfg, s, u, id);
      if SnapshotEvents(cfg, t, id).Some? {
        var rs := Refs(SnapshotEvents(cfg, t, id).value);
        assert forall i :: 0 <= i < |rs| && |rs[i].hash| == 32 ==> RefersTo(cfg, s, id, rs[i]);
        GoodRefsKept(cfg, u, s, t, rs);
      }
    }
  }

  // Putting an object under its name, whether it was there or not.
  lemma ObjectPut(cfg: Config, u: Contents, s: Store, c: seq<byte>, raw: seq<byte>)
    requires GoodConfig(cfg) && NoCollision(cfg, u) && Safe(cfg, s, u) && AllReadable(cfg, s) && c in u && Stores(cfg, raw, c)
    ensures var t := s[ObjectKey(cfg.hash(c)) := raw];
      Safe(cfg, t, u) && AllReadable(cfg, t) && GoodRef(cfg, t, u, RefOf(cfg, c))
  {
    var t := s[ObjectKey(cfg.hash(c)) := raw];
    forall c' | c' in u && ObjectKey(cfg.hash(c')) in t
      ensures Stores(cfg, t[ObjectKey(cfg.hash(c'))], c')
    {
      if ObjectKey(cfg.hash(c')) == ObjectKey(cfg.hash(c)) {
        ObjectKeyIsInjective(cfg.hash(c'), cfg.hash(c));
      }
    }
    forall id: string, r | RefersTo(cfg, s, id, r)
      ensures ObjectKey(r.hash) in t
    {
      SafeMeansFetchable(cfg, s, u, id, r);
    }
    SameSnapshotsKeep(cfg, u, s, t);
  }

  lemma RefsGrow(cfg: Config, u: Contents, s: Store, t: Store, rs: seq<Ref>)
    requires GoodRefs(cfg, s, u, rs) && forall k :: k in s ==> k in t
    ensures GoodRefs(cfg, t, u, rs)
  {
    GoodRefsKept(cfg, u, s, t, rs);
  }

  // ---- One step ---------------------------------------------------------------------------------

  // A process's own step: the others do not exist, so its own state is all there is to check.
  lemma OwnStep(cfg: Config, u: Contents, s: State, t: State, p: nat, x: Proc)
    requires GoodConfig(cfg) && Inv(cfg, u, s) && p in s.procs && t.procs == s.procs[p := x] && Lock in t.store
    requires Safe(cfg, t.store, u) && AllReadable(cfg, t.store) && ProcFine(cfg, u, t.store, x)
    ensures Inv(cfg, u, t)
  {
    assert forall q :: q in t.procs ==> q == p;
  }

  lemma LockStepKeeps(cfg: Config, u: Contents, s: State, a: Step, t: State)
    requires GoodConfig(cfg) && Inv(cfg, u, s) && LockStep(s, a, t)
    ensures Inv(cfg, u, t)
  {
    assert SameContent(s.store, t.store);
    SameContentKeeps(cfg, u, s.store, t.store);
    if a.Acquire? {
      assert t.procs[a.p].Snapping? ==> t.procs[a.p].refs == [];
    }
  }

  lemma PutObjectKeeps(cfg: Config, u: Contents, s: State, a: Step, t: State)
    requires GoodConfig(cfg) && NoCollision(cfg, u) && Inv(cfg, u, s) && a.PutObject? && SnapshotStep(cfg, u, s, a, t)
    ensures Inv(cfg, u, t)
  {
    var x := s.procs[a.p];
    ObjectPut(cfg, u, s.store, a.c, a.raw);
    RefsGrow(cfg, u, s.store, t.store, x.refs);
    RefsGrow(cfg, u, s.store, t.store, x.prev);
    GoodRefsSnoc(cfg, t.store, u, x.refs, RefOf(cfg, a.c));
    OwnStep(cfg, u, s, t, a.p, if a.reported then x.(refs := x.refs + [RefOf(cfg, a.c)]) else x);
  }

  lemma PutManifestKeeps(cfg: Config, u: Contents, s: State, a: Step, t: State)
    requires GoodConfig(cfg) && Inv(cfg, u, s) && a.PutManifest? && SnapshotStep(cfg, u, s, a, t)
    ensures Inv(cfg, u, t)
    ensures SnapshotEvents(cfg, t.store, s.procs[a.p].free.value) == Some(a.es)
  {
    var x := s.procs[a.p];
    ChosenRefsGood(cfg, s.store, u, x.refs, Refs(a.es));
    ManifestPut(cfg, u, s.store, x.free.value, a.es, t.store);
    RefsGrow(cfg, u, s.store, t.store, x.refs);
    RefsGrow(cfg, u, s.store, t.store, x.prev);
    OwnStep(cfg, u, s, t, a.p, x.(free := None));
  }

  lemma ChosenRefsGood(cfg: Config, s: Store, u: Contents, refs: seq<Ref>, rs: seq<Ref>)
    requires GoodRefs(cfg, s, u, refs) && forall r :: r in rs ==> r in refs
    ensures GoodRefs(cfg, s, u, rs)
  {
    forall i | 0 <= i < |rs|
      ensures GoodRef(cfg, s, u, rs[i])
    {
      assert rs[i] in rs && rs[i] in refs;
      var j :| 0 <= j < |refs| && refs[j] == rs[i];
      assert GoodRef(cfg, s, u, refs[j]);
    }
  }

  // A manifest whose references are all there, put under any id.
  lemma ManifestPut(cfg: Config, u: Contents, s: Store, id: string, es: seq<Event>, t: Store)
    requires GoodConfig(cfg) && Safe(cfg, s, u) && AllReadable(cfg, s) && PutsManifest(cfg, s, id, es, t)
    requires Ordered(es) && ValidEvents(es) && GoodRefs(cfg, s, u, Refs(es))
    ensures Safe(cfg, t, u) && AllReadable(cfg, t) && SnapshotEvents(cfg, t, id) == Some(es)
  {
    CommittedIsRead(cfg, id, es);
    SafeWithManifest(cfg, u, s, id, ManifestFile(cfg, id, ManifestBytes(es, cfg.hash)));
    ReadableWithManifest(cfg, s, id, t);
  }

  lemma ReadableWithManifest(cfg: Config, s: Store, id: string, t: Store)
    requires GoodConfig(cfg) && AllReadable(cfg, s) && SnapshotEvents(cfg, t, id).Some?
    requires forall k :: k != ManifestKey(id) ==> (k in s <==> k in t) && (k in s ==> t[k] == s[k])
    ensures AllReadable(cfg, t)
  {
    forall id' | Present(t, id')
      ensures SnapshotEvents(cfg, t, id').Some?
    {
      if ManifestKey(id') == ManifestKey(id) {
        SuffixOnce(id', id);
      } else {
        EventsKept(cfg, s, t, id');
      }
    }
  }

  lemma SnapshotStepKeeps(cfg: Config, u: Contents, s: State, a: Step, t: State)
    requires GoodConfig(cfg) && NoCollision(cfg, u) && Inv(cfg, u, s) && SnapshotStep(cfg, u, s, a, t)
    ensures Inv(cfg, u, t)
  {
    match a
    case LoadPrevious(p, id) =>
      assert GoodSnapshot(cfg, s.store, u, id);
      OwnStep(cfg, u, s, t, p, t.procs[p]);
    case FindObject(p, c) =>
      GoodRefsSnoc(cfg, s.store, u, s.procs[p].refs, RefOf(cfg, c));
      OwnStep(cfg, u, s, t, p, t.procs[p]);
    case PutObject(_, _, _, _) => PutObjectKeeps(cfg, u, s, a, t);
    case Reuse(p, r) =>
      var prev := s.procs[p].prev;
      var j :| 0 <= j < |prev| && prev[j] == r;
      assert GoodRef(cfg, s.store, u, prev[j]);
      GoodRefsSnoc(cfg, s.store, u, s.procs[p].refs, r);
      OwnStep(cfg, u, s, t, p, t.procs[p]);
    case FindFreeId(p, _) => OwnStep(cfg, u, s, t, p, t.procs[p]);
    case PutManifest(_, _) => PutManifestKeeps(cfg, u, s, a, t);
  }

  lemma MarksSame(cfg: Config, s: Store, t: Store, left: set<string>, marks: set<string>)
    requires GoodConfig(cfg) && MarkedOrLeft(cfg, s, left, marks)
    requires forall id: string :: Present(t, id) ==> Present(s, id) && SnapshotEvents(cfg, t, id) == SnapshotEvents(cfg, s, id)
    ensures MarkedOrLeft(cfg, t, left, marks)
  {
  }

  // Deleting a manifest needs nothing of anyone.
  lemma DeleteKeeps(cfg: Config, u: Contents, s: Store, id: string)
    requires GoodConfig(cfg) && Safe(cfg, s, u) && AllReadable(cfg, s)
    ensures Safe(cfg, Without(s, ManifestKey(id)), u) && AllReadable(cfg, Without(s, ManifestKey(id)))
  {
    var t := Without(s, ManifestKey(id));
    forall id': string | |id'| == 16
      ensures GoodSnapshot(cfg, t, u, id')
      ensures Present(t, id') ==> SnapshotEvents(cfg, t, id').Some?
    {
      if ManifestKey(id') in t {
        EventsKept(cfg, s, t, id');
        assert Present(s, id');
        assert GoodSnapshot(cfg, s, u, id');
        GoodRefsKept(cfg, u, s, t, Refs(SnapshotEvents(cfg, s, id').value));
      }
    }
  }

  lemma RefIsMarked(cfg: Config, s: Store, marks: set<string>, id: string, r: Ref)
    requires GoodConfig(cfg) && MarkedOrLeft(cfg, s, {}, marks) && RefersTo(cfg, s, id, r)
    ensures HexOf(r.hash) in marks
  {
    var rs := Refs(SnapshotEvents(cfg, s, id).value);
    var i :| 0 <= i < |rs| && rs[i] == r;
    assert NamesOf(rs)[i] == HexOf(r.hash);
    assert HexOf(r.hash) in Marks(cfg, s, id);
  }

  // An unmarked object is nobody's.
  lemma SweepKeeps(cfg: Config, u: Contents, s: Store, b: string, n: string, marks: set<string>)
    requires GoodConfig(cfg) && Safe(cfg, s, u) && AllReadable(cfg, s) && MarkedOrLeft(cfg, s, {}, marks) && n !in marks
    ensures var t := Without(s, Object(b, n)); Safe(cfg, t, u) && AllReadable(cfg, t) && MarkedOrLeft(cfg, t, {}, marks)
  {
    var t := Without(s, Object(b, n));
    forall id: string, r | RefersTo(cfg, s, id, r)
      ensures ObjectKey(r.hash) in t
    {
      SafeMeansFetchable(cfg, s, u, id, r);
      RefIsMarked(cfg, s, marks, id, r);
    }
    SameSnapshotsKeep(cfg, u, s, t);
    forall id: string
      ensures SnapshotEvents(cfg, t, id) == SnapshotEvents(cfg, s, id)
    {
      EventsKept(cfg, s, t, id);
    }
    MarksSame(cfg, s, t, {}, marks);
  }

  lemma PruneStepKeeps(cfg: Config, u: Contents, s: State, a: Step, t: State)
    requires GoodConfig(cfg) && Inv(cfg, u, s) && PruneStep(cfg, s, a, t)
    ensures Inv(cfg, u, t)
  {
    match a
    case DeleteManifest(p, id) =>
      DeleteKeeps(cfg, u, s.store, id);
      assert t.procs == s.procs[p := Deleting];
      OwnStep(cfg, u, s, t, p, Deleting);
    case ListSnapshots(p) => OwnStep(cfg, u, s, t, p, t.procs[p]);
    case MarkManifest(p, id) =>
      MarkedOne(cfg, s.store, s.procs[p].left, s.procs[p].marks, id);
      OwnStep(cfg, u, s, t, p, t.procs[p]);
    case BeginSweep(p) => OwnStep(cfg, u, s, t, p, t.procs[p]);
    case SweepObject(p, b, n) =>
      SweepKeeps(cfg, u, s.store, b, n, s.procs[p].marks);
      assert t.procs == s.procs[p := s.procs[p]];
      OwnStep(cfg, u, s, t, p, s.procs[p]);
    case RemoveTmp(p, n) =>
      assert SameContent(s.store, t.store);
      SameContentKeeps(cfg, u, s.store, t.store);
      assert t.procs == s.procs[p := s.procs[p]];
      OwnStep(cfg, u, s, t, p, s.procs[p]);
  }

  lemma MarkedOne(cfg: Config, s: Store, left: set<string>, marks: set<string>, id: string)
    requires GoodConfig(cfg) && MarkedOrLeft(cfg, s, left, marks) && SnapshotEvents(cfg, s, id).Some?
    ensures MarkedOrLeft(cfg, s, left - {id}, marks + Marks(cfg, s, id))
  {
  }

  lemma StepKeeps(cfg: Config, u: Contents, s: State, a: Step, t: State)
    requires GoodConfig(cfg) && NoCollision(cfg, u) && Inv(cfg, u, s) && Next(cfg, u, s, a, t)
    ensures Inv(cfg, u, t)
  {
    if LockStep(s, a, t) {
      LockStepKeeps(cfg, u, s, a, t);
    } else if SnapshotStep(cfg, u, s, a, t) {
      SnapshotStepKeeps(cfg, u, s, a, t);
    } else {
      PruneStepKeeps(cfg, u, s, a, t);
    }
  }

  // ---- Runs ------------------------------------------------------------------------------------

  ghost predicate IsRun(cfg: Config, u: Contents, states: seq<State>, steps: seq<Step>)
    requires GoodConfig(cfg)
  {
    && |states| == |steps| + 1 && Init(states[0])
    && forall i :: 0 <= i < |steps| ==> Next(cfg, u, states[i], steps[i], states[i + 1])
  }

  lemma {:induction false} ReachableIsSafe(cfg: Config, u: Contents, states: seq<State>, steps: seq<Step>, n: nat)
    requires GoodConfig(cfg) && NoCollision(cfg, u) && IsRun(cfg, u, states, steps) && n < |states|
    ensures Inv(cfg, u, states[n])
    decreases n
  {
    if n > 0 {
      ReachableIsSafe(cfg, u, states, steps, n - 1);
      StepOf(cfg, u, states, steps, n - 1);
      StepKeeps(cfg, u, states[n - 1], steps[n - 1], states[n]);
    }
  }

  lemma StepOf(cfg: Config, u: Contents, states: seq<State>, steps: seq<Step>, i: nat)
    requires GoodConfig(cfg) && IsRun(cfg, u, states, steps) && i < |steps|
    ensures Next(cfg, u, states[i], steps[i], states[i + 1])
  {
  }

  // In every state any interleaving of snapshots, prunes and crashes can reach: every
  // committed manifest can be read, and every reference in it names a present object that
  // fetches to a content of exactly that hash and size.
  lemma NothingIsEverLost(cfg: Config, u: Contents, states: seq<State>, steps: seq<Step>, n: nat, id: string, r: Ref)
    requires GoodConfig(cfg) && NoCollision(cfg, u) && IsRun(cfg, u, states, steps) && n < |states|
    requires Present(states[n].store, id)
    ensures SnapshotEvents(cfg, states[n].store, id).Some?
    ensures r in Refs(SnapshotEvents(cfg, states[n].store, id).value) ==>
            && |r.hash| == 32 && ObjectKey(r.hash) in states[n].store
            && var c := FetchBody(cfg, states[n].store[ObjectKey(r.hash)], r);
               c.Ok? && |c.value| == r.size && cfg.hash(c.value) == r.hash
  {
    ReachableIsSafe(cfg, u, states, steps, n);
    if r in Refs(SnapshotEvents(cfg, states[n].store, id).value) {
      SafeMeansFetchable(cfg, states[n].store, u, id, r);
    }
  }

  // A committed manifest is never overwritten: from one state to the next it stays as it is
  // or is deleted.
  lemma NoSnapshotIsOverwritten(cfg: Config, u: Contents, states: seq<State>, steps: seq<Step>, n: nat, id: string)
    requires GoodConfig(cfg) && NoCollision(cfg, u) && IsRun(cfg, u, states, steps) && n < |steps|
    requires ManifestKey(id) in states[n].store && ManifestKey(id) in states[n + 1].store
    ensures states[n + 1].store[ManifestKey(id)] == states[n].store[ManifestKey(id)]
  {
    ReachableIsSafe(cfg, u, states, steps, n);
    StepOf(cfg, u, states, steps, n);
    KeepsManifest(cfg, u, states[n], steps[n], states[n + 1], id);
  }

  lemma KeepsManifest(cfg: Config, u: Contents, s: State, a: Step, t: State, id: string)
    requires GoodConfig(cfg) && Inv(cfg, u, s) && Next(cfg, u, s, a, t)
    requires ManifestKey(id) in s.store && ManifestKey(id) in t.store
    ensures t.store[ManifestKey(id)] == s.store[ManifestKey(id)]
  {
    if a.PutManifest? {
      assert ProcFine(cfg, u, s.store, s.procs[a.p]);
    }
  }
}
