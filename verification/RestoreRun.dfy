// The restore run over a destination.

module RestoreRun {
  import opened BackendStore
  import opened Bytes
  import opened Index
  import opened Manifest
  import opened Meta
  import opened Repo
  import opened Restore

  const PATH_BUF: nat := 2048

  // Where files are restored to. A streamed file shows up only when it is finished.
  class Destination {
    var files: map<seq<byte>, seq<byte>>
    var dirs: set<seq<byte>>
    var pending: Option<(seq<byte>, seq<byte>)>
    var ops: nat  // operations received
    const fault: nat -> Fault

    ghost predicate Steady() {
      forall n :: fault(n).Fine?
    }

    constructor (f: nat -> Fault)
      ensures files == map[] && dirs == {} && pending.None? && ops == 0 && fault == f
    {
      files, dirs, pending, ops, fault := map[], {}, None, 0, f;
    }

    method Put(key: seq<byte>, data: seq<byte>) returns (r: Option<Error>)
      modifies this
      ensures ops == old(ops) + 1 && dirs == old(dirs) && pending == old(pending)
      ensures r.None? ==> files == old(files)[key := data]
      ensures r.Some? ==> r == Some(Io) && !Steady()
    {
      var f := fault(ops);
      ops := ops + 1;
      if f.Fine? || f.late {
        files := files[key := data];
      }
      return if f.Fine? then None else Some(Io);
    }

    method Mkcol(key: seq<byte>) returns (r: Option<Error>)
      modifies this
      ensures ops == old(ops) + 1 && files == old(files) && pending == old(pending)
      ensures r.None? ==> dirs == old(dirs) + {key}
      ensures r.Some? ==> r == Some(Io) && !Steady()
    {
      var f := fault(ops);
      ops := ops + 1;
      if f.Fine? || f.late {
        dirs := dirs + {key};
      }
      return if f.Fine? then None else Some(Io);
    }

    method PutBegin(key: seq<byte>) returns (r: Option<Error>)
      requires pending.None?
      modifies this
      ensures ops == old(ops) + 1 && files == old(files) && dirs == old(dirs)
      ensures r.None? ==> pending == Some((key, []))
      ensures r.Some? ==> r == Some(Io) && pending.None? && !Steady()
    {
      var f := fault(ops);
      ops := ops + 1;
      if f.Fine? {
        pending := Some((key, []));
      }
      return if f.Fine? then None else Some(Io);
    }

    method PutAppend(data: seq<byte>) returns (r: Option<Error>)
      requires pending.Some?
      modifies this
      ensures ops == old(ops) + 1 && files == old(files) && dirs == old(dirs) && pending.Some?
      ensures r.None? ==> pending == Some((old(pending).value.0, old(pending).value.1 + data))
      ensures r.Some? ==> r == Some(Io) && !Steady()
    {
      var f := fault(ops);
      ops := ops + 1;
      if f.Fine? {
        pending := Some((pending.value.0, pending.value.1 + data));
      }
      return if f.Fine? then None else Some(Io);
    }

    method PutFinish() returns (r: Option<Error>)
      requires pending.Some?
      modifies this
      ensures ops == old(ops) + 1 && dirs == old(dirs) && pending.None?
      ensures r.None? ==> files == old(files)[old(pending).value.0 := old(pending).value.1]
      ensures r.Some? ==> r == Some(Io) && !Steady()
    {
      var f := fault(ops);
      ops := ops + 1;
      if f.Fine? || f.late {
        files := files[pending.value.0 := pending.value.1];
      }
      pending := None;
      return if f.Fine? then None else Some(Io);
    }

    method PutAbort()
      requires pending.Some?
      modifies this
      ensures ops == old(ops) + 1 && files == old(files) && dirs == old(dirs) && pending.None?
    {
      ops := ops + 1;
      pending := None;
    }
  }

  // ---- One file -----------------------------------------------------------------------------

  // The contents the references fetch, one after the other.
  ghost function ContentOf(cfg: Config, s: Store, rs: seq<Ref>): seq<byte>
    requires GoodConfig(cfg) && AllSound(cfg, s, rs, true)
  {
    if rs == [] then []
    else
      var last := rs[|rs| - 1];
      assert Sound(cfg, s, last, true);
      ContentOf(cfg, s, rs[..|rs| - 1]) + FetchBody(cfg, s[ObjectKey(last.hash)], last).value
  }

  lemma ContentSnoc(cfg: Config, s: Store, rs: seq<Ref>, i: nat)
    requires GoodConfig(cfg) && AllSound(cfg, s, rs, true) && i < |rs|
    ensures AllSound(cfg, s, rs[..i], true) && AllSound(cfg, s, rs[..i + 1], true) && Sound(cfg, s, rs[i], true)
    ensures ContentOf(cfg, s, rs[..i + 1])
            == ContentOf(cfg, s, rs[..i]) + FetchBody(cfg, s[ObjectKey(rs[i].hash)], rs[i]).value
  {
    assert rs[..i + 1][..i] == rs[..i];
  }

  // restore_file: objects go straight to the destination, and the file appears only when
  // it is whole.
  method RestoreFile(repo: Backend, cfg: Config, dest: Destination, rs: seq<Ref>, key: seq<byte>)
    returns (status: Option<Error>)
    requires GoodConfig(cfg) && AllSound(cfg, repo.store, rs, true) && dest.pending.None?
    modifies repo`clock, dest
    ensures dest.pending.None? && dest.dirs == old(dest.dirs) && dest.ops > old(dest.ops)
    ensures status.None? ==> dest.files == old(dest.files)[key := ContentOf(cfg, repo.store, rs)]
    ensures status.Some? ==> status == Some(Io) && !(Reliable(repo) && dest.Steady())
  {
    if |rs| == 0 {
      status := dest.Put(key, []);
      return;
    }
    status := dest.PutBegin(key);
    if status.Some? {
      return;
    }
    for i := 0 to |rs|
      invariant dest.ops > old(dest.ops) && dest.dirs == old(dest.dirs) && dest.files == old(dest.files)
      invariant AllSound(cfg, repo.store, rs[..i], true)
      invariant dest.pending == Some((key, ContentOf(cfg, repo.store, rs[..i])))
    {
      ContentSnoc(cfg, repo.store, rs, i);
      var obj := FetchObject(repo, cfg, rs[i]);
      if obj.Err? {
        dest.PutAbort();
        return Some(obj.error);
      }
      status := dest.PutAppend(obj.value);
      if status.Some? {
        dest.PutAbort();
        return;
      }
    }
    assert rs[..|rs|] == rs;
    status := dest.PutFinish();
  }

  // ---- Entries --------------------------------------------------------------------------------

  // What is restored, when to stop, and whether metadata is applied.
  datatype Options = Options(pre: seq<byte>, aborts: nat -> bool, metadata: bool)

  predicate IsLink(e: Entry) {
    e.etype == SOFTLINK || e.etype == HARDLINK
  }

  predicate Wanted(o: Options, e: Entry) {
    InSubtree(e.path, o.pre) && !IsLink(e)
  }

  ghost predicate EntriesSound(cfg: Config, s: Store, es: seq<Entry>)
    requires GoodConfig(cfg)
  {
    forall i :: 0 <= i < |es| ==> AllSound(cfg, s, es[i].content, true)
  }

  // The destination's files once these entries are restored over `files`.
  ghost function FilesAfter(cfg: Config, s: Store, o: Options, es: seq<Entry>, files: map<seq<byte>, seq<byte>>):
    map<seq<byte>, seq<byte>>
    requires GoodConfig(cfg) && EntriesSound(cfg, s, es)
  {
    if es == [] then files
    else
      var e, before := es[|es| - 1], FilesAfter(cfg, s, o, es[..|es| - 1], files);
      if !Wanted(o, e) || e.etype == DIR then before else before[e.path := ContentOf(cfg, s, e.content)]
  }

  function DirsAfter(o: Options, es: seq<Entry>, dirs: set<seq<byte>>): set<seq<byte>> {
    if es == [] then dirs
    else
      var e, before := es[|es| - 1], DirsAfter(o, es[..|es| - 1], dirs);
      if !Wanted(o, e) || e.etype != DIR then before else before + {e.path}
  }

  // The counters of a restore: files, directories, entries outside the subtree, links.
  datatype Tally = Tally(files: nat, dirs: nat, skipped: nat, links: nat)

  function Counted(o: Options, e: Entry, t: Tally): Tally {
    if !InSubtree(e.path, o.pre) then t.(skipped := t.skipped + 1)
    else if IsLink(e) then t.(links := t.links + 1)
    else if e.etype == DIR then t.(dirs := t.dirs + 1)
    else t.(files := t.files + 1)
  }

  function TallyOf(o: Options, es: seq<Entry>): Tally {
    if es == [] then Tally(0, 0, 0, 0) else Counted(o, es[|es| - 1], TallyOf(o, es[..|es| - 1]))
  }

  // Every path that is to be written is safe and fits the key buffer.
  predicate PathsFit(o: Options, es: seq<Entry>) {
    forall i :: 0 <= i < |es| && Wanted(o, es[i]) ==> SafePath(es[i].path) && |es[i].path| + 1 <= PATH_BUF
  }

  // on_entry
  method RestoreOne(repo: Backend, cfg: Config, dest: Destination, o: Options, e: Entry, stop: bool, t: Tally)
    returns (status: Option<Error>, t': Tally)
    requires GoodConfig(cfg) && AllSound(cfg, repo.store, e.content, true) && dest.pending.None?
    modifies repo`clock, dest
    ensures dest.pending.None? && dest.ops >= old(dest.ops)
    ensures status.None? ==> dest.files == if !Wanted(o, e) || e.etype == DIR then old(dest.files)
                                           else old(dest.files)[e.path := ContentOf(cfg, repo.store, e.content)]
    ensures status.None? ==> dest.dirs == if !Wanted(o, e) || e.etype != DIR then old(dest.dirs)
                                          else old(dest.dirs) + {e.path}
    ensures status.None? ==> t' == Counted(o, e, t)
    ensures status.None? && Wanted(o, e) ==> SafePath(e.path) && |e.path| + 1 <= PATH_BUF
    ensures status.Some? ==> status.value in {Aborted, UnsafePath, TooLong, Io}
    ensures status == Some(UnsafePath) ==> Wanted(o, e) && !SafePath(e.path) && dest.ops == old(dest.ops)
    ensures status == Some(TooLong) ==> Wanted(o, e) && |e.path| + 1 > PATH_BUF && dest.ops == old(dest.ops)
    ensures status == Some(Aborted) <==> stop
    ensures status == Some(Io) ==> !(Reliable(repo) && dest.Steady())
  {
    t' := t;
    if stop {
      return Some(Aborted), t';
    }
    if !InSubtree(e.path, o.pre) {
      return None, t.(skipped := t.skipped + 1);
    }
    if IsLink(e) {
      return None, t.(links := t.links + 1);
    }
    var safe := EntryPathIsSafe(e.path);
    if !safe {
      return Some(UnsafePath), t';
    }
    if |e.path| + 1 > PATH_BUF {
      return Some(TooLong), t';
    }
    if e.etype == DIR {
      status := dest.Mkcol(e.path);
      t' := t.(dirs := t.dirs + 1);
    } else {
      status := RestoreFile(repo, cfg, dest, e.content, e.path);
      t' := t.(files := t.files + 1);
    }
  }
}
