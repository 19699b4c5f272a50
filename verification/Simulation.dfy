// The SNAPSHOT and PRUNE methods are runs of the step machine: each store they leave behind
// comes from the one before by one of its steps, so what holds of every reachable state
// holds at every point of every method.

module Simulation {
  import opened BackendStore
  import opened Bytes
  import opened HexNames
  import opened Machine
  import opened Manifest
  import opened Meta
  import opened Prune
  import opened PruneProofs
  import opened Repo
  import opened RepoWriters
  import opened Safety
  import opened SnapshotMain
  import opened SnapshotRun

  // A step of the machine, or nothing; `seen` when a backend operation left its store behind.
  datatype Move = Move(from: State, step: Option<Step>, to: State, seen: bool)

  // Only what is seen changes the store.
  ghost predicate IsMove(cfg: Config, u: Contents, m: Move)
    requires GoodConfig(cfg)
  {
    && (match m.step case None => m.to == m.from case Some(x) => Machine.Next(cfg, u, m.from, x, m.to))
    && (m.seen || m.to.store == m.from.store)
  }

  ghost predicate Walk(cfg: Config, u: Contents, a: State, moves: seq<Move>, b: State)
    requires GoodConfig(cfg)
  {
    if moves == [] then a == b
    else
      var last := moves[|moves| - 1];
      last.to == b && IsMove(cfg, u, last) && Walk(cfg, u, a, moves[..|moves| - 1], last.from)
  }

  function SeenStores(moves: seq<Move>): seq<Store> {
    if moves == [] then []
    else
      var last := moves[|moves| - 1];
      SeenStores(moves[..|moves| - 1]) + if last.seen then [last.to.store] else []
  }

  // From a to b, leaving exactly these stores behind.
  ghost predicate Goes(cfg: Config, u: Contents, a: State, stores: seq<Store>, b: State)
    requires GoodConfig(cfg)
  {
    exists moves :: Walk(cfg, u, a, moves, b) && SeenStores(moves) == stores
  }

  lemma GoesNowhere(cfg: Config, u: Contents, a: State)
    requires GoodConfig(cfg)
    ensures Goes(cfg, u, a, [], a)
  {
    var none: seq<Move> := [];
    assert Walk(cfg, u, a, none, a) && SeenStores(none) == [];
  }

  lemma GoesOn(cfg: Config, u: Contents, a: State, stores: seq<Store>, m: Move)
    requires GoodConfig(cfg) && Goes(cfg, u, a, stores, m.from) && IsMove(cfg, u, m)
    ensures Goes(cfg, u, a, stores + if m.seen then [m.to.store] else [], m.to)
  {
    var moves :| Walk(cfg, u, a, moves, m.from) && SeenStores(moves) == stores;
    assert (moves + [m])[..|moves|] == moves;
    assert Walk(cfg, u, a, moves + [m], m.to);
  }

  // A step that leaves a store behind, one that is not an operation, and an operation that
  // changed nothing.
  lemma Stepped(cfg: Config, u: Contents, a: State, stores: seq<Store>, s: State, x: Step, t: State)
    requires GoodConfig(cfg) && Goes(cfg, u, a, stores, s) && Machine.Next(cfg, u, s, x, t)
    ensures Goes(cfg, u, a, stores + [t.store], t)
  {
    GoesOn(cfg, u, a, stores, Move(s, Some(x), t, true));
  }

  lemma SteppedUnseen(cfg: Config, u: Contents, a: State, stores: seq<Store>, s: State, x: Step, t: State)
    requires GoodConfig(cfg) && Goes(cfg, u, a, stores, s) && Machine.Next(cfg, u, s, x, t) && t.store == s.store
    ensures Goes(cfg, u, a, stores, t)
  {
    GoesOn(cfg, u, a, stores, Move(s, Some(x), t, false));
    assert stores + [] == stores;
  }

  lemma Stuttered(cfg: Config, u: Contents, a: State, stores: seq<Store>, s: State)
    requires GoodConfig(cfg) && Goes(cfg, u, a, stores, s)
    ensures Goes(cfg, u, a, stores + [s.store], s)
  {
    GoesOn(cfg, u, a, stores, Move(s, None, s, true));
  }

  lemma {:induction false} WalkInTwo(cfg: Config, u: Contents, a: State, x: seq<Move>, b: State, y: seq<Move>, c: State)
    requires GoodConfig(cfg) && Walk(cfg, u, a, x, b) && Walk(cfg, u, b, y, c)
    ensures Walk(cfg, u, a, x + y, c) && SeenStores(x + y) == SeenStores(x) + SeenStores(y)
    decreases |y|
  {
    if y == [] {
      assert x + y == x;
    } else {
      var init, last := y[..|y| - 1], y[|y| - 1];
      WalkInTwo(cfg, u, a, x, b, init, last.from);
      assert (x + y)[..|x + y| - 1] == x + init;
    }
  }

  lemma GoesInTwo(cfg: Config, u: Contents, a: State, x: seq<Store>, b: State, y: seq<Store>, c: State)
    requires GoodConfig(cfg) && Goes(cfg, u, a, x, b) && Goes(cfg, u, b, y, c)
    ensures Goes(cfg, u, a, x + y, c)
  {
    var p :| Walk(cfg, u, a, p, b) && SeenStores(p) == x;
    var q :| Walk(cfg, u, b, q, c) && SeenStores(q) == y;
    WalkInTwo(cfg, u, a, p, b, q, c);
  }

  // ---- SNAPSHOT ---------------------------------------------------------------------------------

  // The one process there is, and the state with it in it.
  const P: nat := 0

  function Alone(s: Store): State {
    State(s, map[])
  }

  function With(s: Store, x: Proc): State {
    State(s, map[P := x])
  }

  lemma LockTaken(cfg: Config, u: Contents, s: Store, prune: bool, who: seq<byte>)
    requires GoodConfig(cfg) && Lock !in s
    ensures Goes(cfg, u, Alone(s), [s[Lock := who]], With(s[Lock := who], if prune then Deleting else Snapping([], [], None)))
  {
    var t := With(s[Lock := who], if prune then Deleting else Snapping([], [], None));
    GoesNowhere(cfg, u, Alone(s));
    assert LockStep(Alone(s), Acquire(P, prune, who), t);
    Stepped(cfg, u, Alone(s), [], Alone(s), Acquire(P, prune, who), t);
    assert [] + [t.store] == [t.store];
  }

  // The process ends, with or without giving the lock back.
  lemma Ended(cfg: Config, u: Contents, a: State, stores: seq<Store>, s: Store, x: Proc, t: Store)
    requires GoodConfig(cfg) && Goes(cfg, u, a, stores, With(s, x)) && (t == s || t == s - {Lock})
    ensures Goes(cfg, u, a, stores + [t], Alone(t))
  {
    assert Without(map[P := x], P) == map[];
    if t == s {
      assert LockStep(With(s, x), Crash(P), Alone(t));
      SteppedUnseen(cfg, u, a, stores, With(s, x), Crash(P), Alone(t));
      Stuttered(cfg, u, a, stores, Alone(t));
    } else {
      assert LockStep(With(s, x), Release(P), Alone(t));
      Stepped(cfg, u, a, stores, With(s, x), Release(P), Alone(t));
    }
  }

  lemma Crashed(cfg: Config, u: Contents, a: State, stores: seq<Store>, s: Store, x: Proc)
    requires GoodConfig(cfg) && Goes(cfg, u, a, stores, With(s, x))
    ensures Goes(cfg, u, a, stores, Alone(s))
  {
    assert Without(map[P := x], P) == map[];
    assert LockStep(With(s, x), Crash(P), Alone(s));
    SteppedUnseen(cfg, u, a, stores, With(s, x), Crash(P), Alone(s));
  }

  // An attempt at the lock that failed may have left it there.
  lemma TriedIsARun(cfg: Config, u: Contents, prune: bool, who: seq<byte>, s: Store, p: seq<Store>, t: Store,
                    p': seq<Store>)
    requires GoodConfig(cfg) && LockTried(who, s, p, t, p')
    ensures p <= p' && Goes(cfg, u, Alone(s), p'[|p|..], Alone(t))
  {
    GoesNowhere(cfg, u, Alone(s));
    if p' == p && t == s {
      assert p'[|p|..] == [];
    } else {
      assert p'[|p|..] == [t];
      if t == s {
        Stuttered(cfg, u, Alone(s), [], Alone(s));
        assert [] + [s] == [s];
      } else {
        LockTaken(cfg, u, s, prune, who);
        Crashed(cfg, u, Alone(s), [t], t, if prune then Deleting else Snapping([], [], None));
      }
    }
  }

  // One object more, not seen to succeed.
  lemma OnePutIsAStep(cfg: Config, u: Contents, a: State, stores: seq<Store>, s: Store, x: Proc, t: Store)
    requires GoodConfig(cfg) && x.Snapping? && Goes(cfg, u, a, stores, With(s, x)) && OnePut(cfg, u, s, t)
    ensures Goes(cfg, u, a, stores + [t], With(t, x))
  {
    if t == s {
      Stuttered(cfg, u, a, stores, With(s, x));
    } else {
      var c, raw :| c in u && Stores(cfg, raw, c) && t == s[ObjectKey(cfg.hash(c)) := raw];
      assert SnapshotStep(cfg, u, With(s, x), PutObject(P, c, raw, false), With(t, x));
      Stepped(cfg, u, a, stores, With(s, x), PutObject(P, c, raw, false), With(t, x));
    }
  }

  lemma {:induction false} PutsAreSteps(cfg: Config, u: Contents, s: Store, x: Proc, stores: seq<Store>, t: Store)
    requires GoodConfig(cfg) && x.Snapping? && Puts(cfg, u, s, stores, t)
    ensures Goes(cfg, u, With(s, x), stores, With(t, x))
    decreases |stores|
  {
    if stores == [] {
      GoesNowhere(cfg, u, With(s, x));
    } else {
      var init := stores[..|stores| - 1];
      var m :| Puts(cfg, u, s, init, m) && OnePut(cfg, u, m, t);
      PutsAreSteps(cfg, u, s, x, init, m);
      OnePutIsAStep(cfg, u, With(s, x), init, m, x, t);
      assert stores == init + [t];
    }
  }

  // Every reference of the manifest is that of an object that is there.
  lemma {:induction false} RefsAreFound(cfg: Config, u: Contents, s: Store, rs: seq<Ref>)
    requires GoodConfig(cfg) && GoodRefs(cfg, s, u, rs)
    ensures Goes(cfg, u, With(s, Snapping([], [], None)), [], With(s, Snapping(rs, [], None)))
    decreases |rs|
  {
    var a := With(s, Snapping([], [], None));
    if rs == [] {
      GoesNowhere(cfg, u, a);
    } else {
      var init, r := rs[..|rs| - 1], rs[|rs| - 1];
      assert forall i :: 0 <= i < |init| ==> init[i] == rs[i];
      RefsAreFound(cfg, u, s, init);
      assert GoodRef(cfg, s, u, r);
      var c :| c in u && r == RefOf(cfg, c);
      assert rs == init + [r];
      var from, to := With(s, Snapping(init, [], None)), With(s, Snapping(rs, [], None));
      assert SnapshotStep(cfg, u, from, FindObject(P, c), to);
      SteppedUnseen(cfg, u, a, [], from, FindObject(P, c), to);
    }
  }

  // The commit: every reference is there, the id is free, the manifest goes under it.
  lemma CommitIsSteps(cfg: Config, u: Contents, s: Store, id: string, es: seq<Event>, t: Store)
    requires GoodConfig(cfg) && Committed(cfg, s, id, es, t)
    requires Ordered(es) && ValidEvents(es) && GoodRefs(cfg, s, u, Refs(es))
    ensures Goes(cfg, u, With(s, Snapping([], [], None)), [t], With(t, Snapping(Refs(es), [], None)))
  {
    var a := With(s, Snapping([], [], None));
    RefsAreFound(cfg, u, s, Refs(es));
    IdIsFound(cfg, u, a, s, id, Refs(es));
    ManifestGoes(cfg, u, a, s, id, es, t);
  }

  lemma ManifestGoes(cfg: Config, u: Contents, a: State, s: Store, id: string, es: seq<Event>, t: Store)
    requires GoodConfig(cfg) && Committed(cfg, s, id, es, t) && Ordered(es) && ValidEvents(es)
    requires Goes(cfg, u, a, [], With(s, Snapping(Refs(es), [], Some(id))))
    ensures Goes(cfg, u, a, [t], With(t, Snapping(Refs(es), [], None)))
  {
    var x, t' := Snapping(Refs(es), [], Some(id)), With(t, Snapping(Refs(es), [], None));
    ManifestStep(cfg, u, s, id, es, t);
    Stepped(cfg, u, a, [], With(s, x), PutManifest(P, es), t');
    NothingBefore(t);
  }

  lemma NothingBefore(t: Store)
    ensures [] + [t] == [t]
  {
  }

  lemma ManifestStep(cfg: Config, u: Contents, s: Store, id: string, es: seq<Event>, t: Store)
    requires GoodConfig(cfg) && Committed(cfg, s, id, es, t) && Ordered(es) && ValidEvents(es)
    ensures SnapshotStep(cfg, u, With(s, Snapping(Refs(es), [], Some(id))), PutManifest(P, es),
                         With(t, Snapping(Refs(es), [], None)))
  {
    CommittedPuts(cfg, s, id, es, t);
    var x, y := Snapping(Refs(es), [], Some(id)), Snapping(Refs(es), [], None);
    assert map[P := x][P := y] == map[P := y];
  }

  lemma CommittedPuts(cfg: Config, s: Store, id: string, es: seq<Event>, t: Store)
    requires GoodConfig(cfg) && Committed(cfg, s, id, es, t)
    ensures PutsManifest(cfg, s, id, es, t)
  {
  }

  lemma IdIsFound(cfg: Config, u: Contents, a: State, s: Store, id: string, rs: seq<Ref>)
    requires GoodConfig(cfg) && |id| == 16 && ManifestKey(id) !in s && Goes(cfg, u, a, [], With(s, Snapping(rs, [], None)))
    ensures Goes(cfg, u, a, [], With(s, Snapping(rs, [], Some(id))))
  {
    var from, to := With(s, Snapping(rs, [], None)), With(s, Snapping(rs, [], Some(id)));
    assert SnapshotStep(cfg, u, from, FindFreeId(P, id), to);
    SteppedUnseen(cfg, u, a, [], from, FindFreeId(P, id), to);
  }

  lemma CommittedToIsSteps(cfg: Config, u: Contents, s: Store, q: seq<Store>, es: seq<Event>, t: Store, p: seq<Store>)
    returns (x: Proc)
    requires GoodConfig(cfg) && ValidEvents(es) && CommittedTo(cfg, u, s, q, es, t, p)
    ensures q <= p && Goes(cfg, u, With(s, Snapping([], [], None)), p[|q|..], With(t, x))
  {
    x := Snapping([], [], None);
    GoesNowhere(cfg, u, With(s, x));
    if p == q {
      assert p[|q|..] == [];
    } else {
      assert p[|q|..] == [t];
      if t == s {
        Stuttered(cfg, u, With(s, x), [], With(s, x));
        assert [] + [t] == [t];
      } else {
        var id: string :| Committed(cfg, s, id, es, t);
        CommitIsSteps(cfg, u, s, id, es, t);
        x := Snapping(Refs(es), [], None);
      }
    }
  }

  // A SNAPSHOT run is a run of the machine's snapshot process.
  lemma SnapshotIsARun(cfg: Config, u: Contents, who: seq<byte>, s: Store, p: seq<Store>, run: Run, t: Store,
                       p': seq<Store>)
    requires GoodConfig(cfg) && ValidEvents(run.events) && Steps(cfg, u, who, s, p, run, t, p')
    ensures p <= p' && Goes(cfg, u, Alone(s), p'[|p|..], Alone(t))
  {
    if LockTried(who, s, p, t, p') {
      TriedIsARun(cfg, u, false, who, s, p, t, p');
    } else {
      var s2, p2 :| HeldLock(cfg, u, who, s, p, run, s2, p2) && p' == p2 + [t] && (t == s2 || t == s2 - {Lock});
      var x := HeldIsARun(cfg, u, who, s, p, run, s2, p2);
      Ended(cfg, u, Alone(s), p2[|p|..], s2, x, t);
      assert p'[|p|..] == p2[|p|..] + [t];
    }
  }

  lemma HeldIsARun(cfg: Config, u: Contents, who: seq<byte>, s: Store, p: seq<Store>, run: Run, s2: Store,
                   p2: seq<Store>)
    returns (x: Proc)
    requires GoodConfig(cfg) && ValidEvents(run.events) && HeldLock(cfg, u, who, s, p, run, s2, p2)
    ensures p <= p2 && Goes(cfg, u, Alone(s), p2[|p|..], With(s2, x))
  {
    var s1, free := s[Lock := who], Snapping([], [], None);
    var p1 := p + [s1];
    LockTaken(cfg, u, s, false, who);
    PutsAreSteps(cfg, u, s1, free, run.q[|p1|..], run.mid);
    x := CommittedToIsSteps(cfg, u, run.mid, run.q, run.events, s2, p2);
    GoesInTwo(cfg, u, Alone(s), [s1], With(s1, free), run.q[|p1|..], With(run.mid, free));
    GoesInTwo(cfg, u, Alone(s), [s1] + run.q[|p1|..], With(run.mid, free), p2[|run.q|..], With(s2, x));
    FourParts(p, s1, run.q, p2);
  }

  lemma FourParts(p: seq<Store>, s1: Store, q: seq<Store>, p2: seq<Store>)
    requires p + [s1] <= q <= p2
    ensures p2[|p|..] == [s1] + q[|p| + 1..] + p2[|q|..]
  {
  }

  // ---- PRUNE ---------------------------------------------------------------------------------------

  // The targets' manifests, one by one.
  lemma {:induction false} DeletionsAreSteps(cfg: Config, u: Contents, s: Store, targets: seq<string>,
                                             stores: seq<Store>, t: Store)
    requires GoodConfig(cfg) && Removals(s.Keys - TargetKeys(targets), s, stores, t)
    ensures Goes(cfg, u, With(s, Deleting), stores, With(t, Deleting))
    decreases |stores|
  {
    if stores == [] {
      GoesNowhere(cfg, u, With(s, Deleting));
    } else {
      var init, keep := stores[..|stores| - 1], s.Keys - TargetKeys(targets);
      var m :| Removals(keep, s, init, m) && OneRemoval(keep, m, t);
      DeletionsAreSteps(cfg, u, s, targets, init, m);
      RemovalsShrink(keep, s, init, m);
      OneDeletion(cfg, u, s, targets, init, m, t);
      assert stores == init + [t];
    }
  }

  lemma OneDeletion(cfg: Config, u: Contents, s: Store, targets: seq<string>, init: seq<Store>, m: Store, t: Store)
    requires GoodConfig(cfg) && Goes(cfg, u, With(s, Deleting), init, With(m, Deleting))
    requires m.Keys <= s.Keys && OneRemoval(s.Keys - TargetKeys(targets), m, t)
    ensures Goes(cfg, u, With(s, Deleting), init + [t], With(t, Deleting))
  {
    var a := With(s, Deleting);
    if t == m {
      Stuttered(cfg, u, a, init, With(m, Deleting));
    } else {
      var k :| k !in s.Keys - TargetKeys(targets) && k in m && t == m - {k};
      assert k in TargetKeys(targets);
      var id :| id in targets && k == ManifestKey(id);
      assert PruneStep(cfg, With(m, Deleting), DeleteManifest(P, id), With(t, Deleting));
      Stepped(cfg, u, a, init, With(m, Deleting), DeleteManifest(P, id), With(t, Deleting));
    }
  }

  // Nothing but names of what a readable snapshot refers to is marked.
  ghost predicate OnlyMarked(cfg: Config, s: Store, marks: set<string>)
    requires GoodConfig(cfg)
  {
    forall n :: n in marks ==> Marked(cfg, s, n)
  }

  lemma MarksAreMarked(cfg: Config, s: Store, id: string)
    requires GoodConfig(cfg) && |id| == 16 && SnapshotEvents(cfg, s, id).Some?
    ensures OnlyMarked(cfg, s, Machine.Marks(cfg, s, id))
  {
    forall n | n in Machine.Marks(cfg, s, id)
      ensures Marked(cfg, s, n)
    {
      assert MarkedBy(cfg, s, id, n);
    }
  }

  lemma OneMarked(cfg: Config, u: Contents, s: Store, a: State, stores: seq<Store>, left: set<string>,
                  marks: set<string>, id: string)
    returns (more: set<string>)
    requires GoodConfig(cfg) && Goes(cfg, u, a, stores, With(s, Marking(left, marks)))
    requires OnlyMarked(cfg, s, marks) && id in left && |id| == 16 && SnapshotEvents(cfg, s, id).Some?
    ensures Goes(cfg, u, a, stores, With(s, Marking(left - {id}, more))) && OnlyMarked(cfg, s, more)
  {
    more := marks + Machine.Marks(cfg, s, id);
    MarksAreMarked(cfg, s, id);
    MarkingOne(cfg, s, left, marks, id);
    SteppedUnseen(cfg, u, a, stores, With(s, Marking(left, marks)), MarkManifest(P, id), With(s, Marking(left - {id}, more)));
  }

  lemma MarkingOne(cfg: Config, s: Store, left: set<string>, marks: set<string>, id: string)
    requires GoodConfig(cfg) && id in left && |id| == 16 && SnapshotEvents(cfg, s, id).Some?
    ensures PruneStep(cfg, With(s, Marking(left, marks)), MarkManifest(P, id),
                      With(s, Marking(left - {id}, marks + Machine.Marks(cfg, s, id))))
  {
  }

  // Every manifest that is left is read.
  lemma {:induction false} MarkingIsSteps(cfg: Config, u: Contents, s: Store, a: State, stores: seq<Store>,
                                          left: set<string>, marks: set<string>)
    returns (all: set<string>)
    requires GoodConfig(cfg) && Goes(cfg, u, a, stores, With(s, Marking(left, marks))) && AllReadable(cfg, s)
    requires OnlyMarked(cfg, s, marks) && forall id :: id in left ==> Present(s, id)
    ensures Goes(cfg, u, a, stores, With(s, Marking({}, all))) && OnlyMarked(cfg, s, all)
    decreases left
  {
    if left == {} {
      all := marks;
    } else {
      var id :| id in left;
      assert Present(s, id);
      var more := OneMarked(cfg, u, s, a, stores, left, marks, id);
      all := MarkingIsSteps(cfg, u, s, a, stores, left - {id}, more);
    }
  }

  // From the last deletion to the first object swept.
  lemma MarkedThenSweeping(cfg: Config, u: Contents, s: Store) returns (marks: set<string>)
    requires GoodConfig(cfg) && AllReadable(cfg, s)
    ensures Goes(cfg, u, With(s, Deleting), [], With(s, Sweeping(marks))) && OnlyMarked(cfg, s, marks)
  {
    var a, left := With(s, Deleting), Ids(s);
    forall id
      ensures id in left <==> Present(s, id)
    {
      IdsAreSnapshots(s, id);
    }
    GoesNowhere(cfg, u, a);
    assert PruneStep(cfg, a, Step.ListSnapshots(P), With(s, Marking(left, {})));
    SteppedUnseen(cfg, u, a, [], a, Step.ListSnapshots(P), With(s, Marking(left, {})));
    marks := MarkingIsSteps(cfg, u, s, a, [], left, {});
    assert PruneStep(cfg, With(s, Marking({}, marks)), BeginSweep(P), With(s, Sweeping(marks)));
    SteppedUnseen(cfg, u, a, [], With(s, Marking({}, marks)), BeginSweep(P), With(s, Sweeping(marks)));
  }

  lemma OneSwept(cfg: Config, u: Contents, a: State, stores: seq<Store>, s: Store, targets: seq<string>,
                 marks: set<string>, m: Store, t: Store)
    requires GoodConfig(cfg) && Goes(cfg, u, a, stores, With(m, Sweeping(marks)))
    requires var s1 := s - TargetKeys(targets);
      OnlyMarked(cfg, s1, marks) && m.Keys <= s1.Keys && OneRemoval(Pruned(cfg, s, targets).Keys, m, t)
    ensures Goes(cfg, u, a, stores + [t], With(t, Sweeping(marks)))
  {
    var s1, from, to := s - TargetKeys(targets), With(m, Sweeping(marks)), With(t, Sweeping(marks));
    if t == m {
      Stuttered(cfg, u, a, stores, from);
    } else {
      var k :| k !in Pruned(cfg, s, targets).Keys && k in m && t == m - {k};
      assert !Stays(cfg, s1, k);
      var x := if k.Tmp? then RemoveTmp(P, k.name) else SweepObject(P, k.bucket, k.name);
      assert PruneStep(cfg, from, x, to);
      Stepped(cfg, u, a, stores, from, x, to);
    }
  }

  // What need not stay, one by one.
  lemma {:induction false} SweepIsSteps(cfg: Config, u: Contents, s: Store, targets: seq<string>, marks: set<string>,
                                        stores: seq<Store>, t: Store)
    requires GoodConfig(cfg) && OnlyMarked(cfg, s - TargetKeys(targets), marks)
    requires Removals(Pruned(cfg, s, targets).Keys, s - TargetKeys(targets), stores, t)
    ensures Goes(cfg, u, With(s - TargetKeys(targets), Sweeping(marks)), stores, With(t, Sweeping(marks)))
    decreases |stores|
  {
    var s1 := s - TargetKeys(targets);
    var a := With(s1, Sweeping(marks));
    if stores == [] {
      GoesNowhere(cfg, u, a);
    } else {
      var init, keep := stores[..|stores| - 1], Pruned(cfg, s, targets).Keys;
      var m :| Removals(keep, s1, init, m) && OneRemoval(keep, m, t);
      SweepIsSteps(cfg, u, s, targets, marks, init, m);
      RemovalsShrink(keep, s1, init, m);
      OneSwept(cfg, u, a, init, s, targets, marks, m, t);
      assert stores == init + [t];
    }
  }

  lemma SweptIsSteps(cfg: Config, u: Contents, s: Store, targets: seq<string>, s1: Store, stores: seq<Store>, t: Store)
    returns (x: Proc)
    requires GoodConfig(cfg) && Swept(cfg, s, targets, s1, stores, t)
    ensures Goes(cfg, u, With(s1, Deleting), stores, With(t, x))
  {
    if stores == [] {
      x := Deleting;
      GoesNowhere(cfg, u, With(s1, x));
    } else {
      var marks := MarkedThenSweeping(cfg, u, s1);
      SweepIsSteps(cfg, u, s, targets, marks, stores, t);
      x := Sweeping(marks);
      GoesInTwo(cfg, u, With(s1, Deleting), [], With(s1, x), stores, With(t, x));
      assert [] + stores == stores;
    }
  }

  lemma PruneHeldIsARun(cfg: Config, u: Contents, who: seq<byte>, s: Store, p: seq<Store>, targets: seq<string>,
                        s2: Store, p2: seq<Store>)
    returns (x: Proc)
    requires GoodConfig(cfg) && PruneHeld(cfg, who, s, p, targets, s2, p2)
    ensures p <= p2 && Goes(cfg, u, Alone(s), p2[|p|..], With(s2, x))
  {
    var s1 := s[Lock := who];
    var tail := p2[|p| + 1..];
    var a, m, b :| tail == a + b && Removals(s1.Keys - TargetKeys(targets), s1, a, m) && Swept(cfg, s1, targets, m, b, s2);
    LockTaken(cfg, u, s, true, who);
    DeletionsAreSteps(cfg, u, s1, targets, a, m);
    x := SweptIsSteps(cfg, u, s1, targets, m, b, s2);
    GoesInTwo(cfg, u, With(s1, Deleting), a, With(m, Deleting), b, With(s2, x));
    GoesInTwo(cfg, u, Alone(s), [s1], With(s1, Deleting), tail, With(s2, x));
    assert p2[|p|..] == [s1] + tail;
  }

  // A PRUNE run is a run of the machine's prune process.
  lemma PruneIsARun(cfg: Config, u: Contents, who: seq<byte>, s: Store, p: seq<Store>, targets: seq<string>, t: Store,
                    p': seq<Store>)
    requires GoodConfig(cfg) && PruneRan(cfg, who, s, p, targets, t, p')
    ensures p <= p' && Goes(cfg, u, Alone(s), p'[|p|..], Alone(t))
  {
    if LockTried(who, s, p, t, p') {
      TriedIsARun(cfg, u, true, who, s, p, t, p');
    } else {
      var s2, p2 :| PruneHeld(cfg, who, s, p, targets, s2, p2) && p' == p2 + [t] && (t == s2 || t == s2 - {Lock});
      var x := PruneHeldIsARun(cfg, u, who, s, p, targets, s2, p2);
      Ended(cfg, u, Alone(s), p2[|p|..], s2, x, t);
      assert p'[|p|..] == p2[|p|..] + [t];
    }
  }

  // ---- What follows for the methods --------------------------------------------------------------

  ghost predicate Reached(cfg: Config, u: Contents, a: State)
    requires GoodConfig(cfg)
  {
    exists states, steps :: IsRun(cfg, u, states, steps) && states[|states| - 1] == a
  }

  ghost predicate Occurs(cfg: Config, u: Contents, s: Store)
    requires GoodConfig(cfg)
  {
    exists a :: Reached(cfg, u, a) && a.store == s
  }

  lemma FreshIsReached(cfg: Config, u: Contents, s: Store)
    requires GoodConfig(cfg) && s.Keys <= {Header}
    ensures Reached(cfg, u, Alone(s))
  {
    assert IsRun(cfg, u, [Alone(s)], []) && [Alone(s)][0] == Alone(s);
  }

  lemma StepReaches(cfg: Config, u: Contents, a: State, x: Step, b: State)
    requires GoodConfig(cfg) && Reached(cfg, u, a) && Machine.Next(cfg, u, a, x, b)
    ensures Reached(cfg, u, b)
  {
    var states, steps :| IsRun(cfg, u, states, steps) && states[|states| - 1] == a;
    OneStepMore(cfg, u, states, steps, x, b);
  }

  lemma OneStepMore(cfg: Config, u: Contents, states: seq<State>, steps: seq<Step>, x: Step, b: State)
    requires GoodConfig(cfg) && IsRun(cfg, u, states, steps) && Machine.Next(cfg, u, states[|states| - 1], x, b)
    ensures IsRun(cfg, u, states + [b], steps + [x]) && (states + [b])[|states|] == b
  {
    var ss, xs := states + [b], steps + [x];
    forall i | 0 <= i < |xs|
      ensures Machine.Next(cfg, u, ss[i], xs[i], ss[i + 1])
    {
      if i < |steps| {
        StepOf(cfg, u, states, steps, i);
      }
    }
  }

  lemma {:induction false} WalkReaches(cfg: Config, u: Contents, a: State, moves: seq<Move>, b: State)
    requires GoodConfig(cfg) && Reached(cfg, u, a) && Walk(cfg, u, a, moves, b)
    ensures Reached(cfg, u, b) && forall s :: s in SeenStores(moves) ==> Occurs(cfg, u, s)
    decreases |moves|
  {
    if moves != [] {
      var last := moves[|moves| - 1];
      WalkReaches(cfg, u, a, moves[..|moves| - 1], last.from);
      if last.step.Some? {
        StepReaches(cfg, u, last.from, last.step.value, b);
      }
      assert Occurs(cfg, u, b.store);
    }
  }

  lemma GoesReaches(cfg: Config, u: Contents, a: State, stores: seq<Store>, b: State)
    requires GoodConfig(cfg) && Reached(cfg, u, a) && Goes(cfg, u, a, stores, b)
    ensures Reached(cfg, u, b) && forall s :: s in stores ==> Occurs(cfg, u, s)
  {
    var moves :| Walk(cfg, u, a, moves, b) && SeenStores(moves) == stores;
    WalkReaches(cfg, u, a, moves, b);
  }

  // A process that dies at any point leaves a store the next command can start from.
  lemma DeathReaches(cfg: Config, u: Contents, s: Store)
    requires GoodConfig(cfg) && NoCollision(cfg, u) && Occurs(cfg, u, s)
    ensures Reached(cfg, u, Alone(s))
  {
    var a :| Reached(cfg, u, a) && a.store == s;
    ReachedIsSafe(cfg, u, a);
    if a.procs != map[] {
      var p :| p in a.procs;
      assert forall q :: q in a.procs ==> q == p;
      assert Without(a.procs, p) == map[];
      assert LockStep(a, Crash(p), Alone(s));
      StepReaches(cfg, u, a, Crash(p), Alone(s));
    } else {
      assert a == Alone(s);
    }
  }

  lemma ReachedIsSafe(cfg: Config, u: Contents, a: State)
    requires GoodConfig(cfg) && NoCollision(cfg, u) && Reached(cfg, u, a)
    ensures Inv(cfg, u, a)
  {
    var states, steps :| IsRun(cfg, u, states, steps) && states[|states| - 1] == a;
    ReachableIsSafe(cfg, u, states, steps, |states| - 1);
  }

  // A command run from a store s: what the methods' contracts say of the stores it leaves
  // behind, p1 after p0, and of its last one.
  datatype Command =
    | Snapshotting(who: seq<byte>, run: Run, p0: seq<Store>, p1: seq<Store>, last: Store)
    | Pruning(who: seq<byte>, targets: seq<string>, p0: seq<Store>, p1: seq<Store>, last: Store)
    | Unlocking(p0: seq<Store>, p1: seq<Store>, last: Store)

  ghost predicate Ran(cfg: Config, u: Contents, s: Store, c: Command)
    requires GoodConfig(cfg)
  {
    match c
    case Snapshotting(who, run, p0, p1, last) => ValidEvents(run.events) && Steps(cfg, u, who, s, p0, run, last, p1)
    case Pruning(who, targets, p0, p1, last) => PruneRan(cfg, who, s, p0, targets, last, p1)
    case Unlocking(p0, p1, last) => last == s - {Lock} && p1 == p0 + [last]
  }

  lemma CommandReaches(cfg: Config, u: Contents, s: Store, c: Command)
    requires GoodConfig(cfg) && Reached(cfg, u, Alone(s)) && Ran(cfg, u, s, c)
    ensures Reached(cfg, u, Alone(c.last)) && c.p0 <= c.p1
    ensures forall t :: t in c.p1[|c.p0|..] ==> Occurs(cfg, u, t)
  {
    match c
    case Snapshotting(who, run, p0, p1, last) =>
      SnapshotIsARun(cfg, u, who, s, p0, run, last, p1);
      GoesReaches(cfg, u, Alone(s), p1[|p0|..], Alone(last));
    case Pruning(who, targets, p0, p1, last) =>
      PruneIsARun(cfg, u, who, s, p0, targets, last, p1);
      GoesReaches(cfg, u, Alone(s), p1[|p0|..], Alone(last));
    case Unlocking(p0, p1, last) =>
      assert LockStep(Alone(s), RemoveStaleLock, Alone(last));
      StepReaches(cfg, u, Alone(s), RemoveStaleLock, Alone(last));
      assert p1[|p0|..] == [last];
  }

  // One command after the other from a new repository, any of them killed at any point.
  ghost predicate Session(cfg: Config, u: Contents, starts: seq<Store>, commands: seq<Command>)
    requires GoodConfig(cfg)
  {
    && |starts| == |commands| + 1 && starts[0].Keys <= {Header}
    && forall i :: 0 <= i < |commands| ==> GoesFrom(cfg, u, starts[i], commands[i], starts[i + 1])
  }

  ghost predicate GoesFrom(cfg: Config, u: Contents, s: Store, c: Command, t: Store)
    requires GoodConfig(cfg)
  {
    Ran(cfg, u, s, c) && (t == s || t == c.last || (c.p0 <= c.p1 && t in c.p1[|c.p0|..]))
  }

  lemma {:induction false} StartIsReached(cfg: Config, u: Contents, starts: seq<Store>, commands: seq<Command>, n: nat)
    requires GoodConfig(cfg) && NoCollision(cfg, u) && Session(cfg, u, starts, commands) && n <= |commands|
    ensures Reached(cfg, u, Alone(starts[n]))
    decreases n
  {
    if n == 0 {
      FreshIsReached(cfg, u, starts[0]);
    } else {
      StartIsReached(cfg, u, starts, commands, n - 1);
      var s, c, t := starts[n - 1], commands[n - 1], starts[n];
      assert GoesFrom(cfg, u, s, c, t);
      CommandReaches(cfg, u, s, c);
      if t != s && t != c.last {
        DeathReaches(cfg, u, t);
      }
    }
  }

  // At every point of every command: every manifest that is there can be read, and every
  // reference in it names a present object that fetches to what it says.
  lemma NoCommandLoses(cfg: Config, u: Contents, starts: seq<Store>, commands: seq<Command>, n: nat, s: Store,
                       id: string, r: Ref)
    requires GoodConfig(cfg) && NoCollision(cfg, u) && Session(cfg, u, starts, commands) && n < |commands|
    requires commands[n].p0 <= commands[n].p1 && s in commands[n].p1[|commands[n].p0|..] && Present(s, id)
    ensures SnapshotEvents(cfg, s, id).Some?
    ensures r in Refs(SnapshotEvents(cfg, s, id).value) ==>
            && |r.hash| == 32 && ObjectKey(r.hash) in s
            && var c := FetchBody(cfg, s[ObjectKey(r.hash)], r);
               c.Ok? && |c.value| == r.size && cfg.hash(c.value) == r.hash
  {
    StartIsReached(cfg, u, starts, commands, n);
    assert GoesFrom(cfg, u, starts[n], commands[n], starts[n + 1]);
    CommandReaches(cfg, u, starts[n], commands[n]);
    var a :| Reached(cfg, u, a) && a.store == s;
    ReachedIsSafe(cfg, u, a);
    if r in Refs(SnapshotEvents(cfg, s, id).value) {
      SafeMeansFetchable(cfg, s, u, id, r);
    }
  }
}
