// The directory backend's put: a temporary file, renamed into place when it is whole.

module BackendDir {
  import opened Bytes
  import opened Paths

  const MAX_PATH: nat := 1024
  const VOLUME: byte := 58  // ':' ends a bare volume name and is its own separator

  type Files = map<seq<byte>, seq<byte>>

  // One file-system operation: it works, or it fails; a failing write leaves `n` bytes.
  datatype Fault = Fine | Fails(n: nat)

  // A file system that may be cut off between any two of its operations, and in the middle
  // of a write.
  class FileSystem {
    var files: Files
    var dirs: set<seq<byte>>
    ghost var past: seq<Files>
    const fault: nat -> Fault
    var clock: nat

    // No operation fails.
    ghost predicate Sound() {
      forall n :: fault(n).Fine?
    }

    // The directory a path is in is there.
    ghost predicate HasDir(p: seq<byte>)
      reads this
    {
      DirOf(p).Some? ==> DirOf(p).value in dirs
    }

    constructor (f: nat -> Fault)
      ensures files == map[] && dirs == {} && past == [] && fault == f
    {
      files, dirs, past, fault, clock := map[], {}, [], f, 0;
    }

    method Tick() returns (f: Fault)
      modifies `clock
      ensures f == fault(old(clock))
    {
      f := fault(clock);
      clock := clock + 1;
    }

    // mkdir, where the directory may be there already.
    method Mkdir(p: seq<byte>) returns (ok: bool)
      modifies `dirs, `clock
      ensures dirs == if ok then old(dirs) + {p} else old(dirs)
      ensures Sound() ==> ok
    {
      var f := Tick();
      if f.Fine? {
        dirs := dirs + {p};
      }
      return f.Fine?;
    }

    // fopen(..., "wb")
    method Create(p: seq<byte>) returns (ok: bool)
      requires HasDir(p)
      modifies `files, `past, `clock
      ensures files == if ok then old(files)[p := []] else old(files)
      ensures Sound() ==> ok
      ensures past == old(past) + [files]
    {
      var f := Tick();
      if f.Fine? {
        files := files[p := []];
      }
      past := past + [files];
      return f.Fine?;
    }

    // fwrite: part of the data may get through first, and nothing more when it fails.
    method Append(p: seq<byte>, data: seq<byte>) returns (ok: bool)
      requires p in files
      modifies `files, `past, `clock
      ensures ok ==> files == old(files)[p := old(files)[p] + data]
      ensures Sound() ==> ok
      ensures OnlyAt(p, old(files), files) && p in files
      ensures |past| == |old(past)| + 2 && past[..|old(past)|] == old(past)
      ensures OnlyAt(p, old(files), past[|old(past)|]) && past[|old(past)| + 1] == files
    {
      var f := Tick();
      var n := if f.Fine? then |data| / 2 else if f.n <= |data| then f.n else |data|;
      var before := files[p];
      files := files[p := before + data[..n]];
      past := past + [files];
      if f.Fine? {
        files := files[p := before + data];
      }
      past := past + [files];
      return f.Fine?;
    }

    // rename replaces its target at once or does nothing.
    method Rename(p: seq<byte>, q: seq<byte>) returns (ok: bool)
      requires p in files && p != q && HasDir(q)
      modifies `files, `past, `clock
      ensures files == if ok then (old(files) - {p})[q := old(files)[p]] else old(files)
      ensures Sound() ==> ok
      ensures past == old(past) + [files]
    {
      var f := Tick();
      if f.Fine? {
        files := (files - {p})[q := files[p]];
      }
      past := past + [files];
      return f.Fine?;
    }

    method Remove(p: seq<byte>)
      modifies `files, `past, `clock
      ensures OnlyAt(p, old(files), files) && past == old(past) + [files]
      ensures Sound() ==> files == old(files) - {p}
    {
      var f := Tick();
      if f.Fine? {
        files := files - {p};
      }
      past := past + [files];
    }
  }

  // The two file systems agree but at p.
  ghost predicate OnlyAt(p: seq<byte>, s: Files, t: Files) {
    forall q :: q != p ==> (q in s <==> q in t) && (q in s ==> s[q] == t[q])
  }

  // ---- Names ---------------------------------------------------------------------------------

  function Separator(root: seq<byte>): seq<byte> {
    if root != [] && (root[|root| - 1] == VOLUME || root[|root| - 1] == SLASH) then [] else [SLASH]
  }

  // join_path
  function JoinPath(root: seq<byte>, key: seq<byte>): Option<seq<byte>> {
    var p := root + Separator(root) + key;
    if |p| + 1 > MAX_PATH then None else Some(p)
  }

  const TMP: seq<byte> := [116, 109, 112]

  // What follows the last slash.
  function BaseName(key: seq<byte>): (r: seq<byte>)
    ensures |r| <= |key| && key[|key| - |r|..] == r
  {
    if key == [] || key[|key| - 1] == SLASH then []
    else
      var init := BaseName(key[..|key| - 1]);
      init + [key[|key| - 1]]
  }

  // What precedes the last slash.
  function DirOf(path: seq<byte>): Option<seq<byte>> {
    var base := BaseName(path);
    if |base| == |path| then None else Some(path[..|path| - |base| - 1])
  }

  // The temporary file for a key: its base name, a dot and eight hex digits of its hash.
  function TmpPath(root: seq<byte>, key: seq<byte>, digits: seq<byte>): Option<seq<byte>> {
    match JoinPath(root, TMP)
    case None => None
    case Some(dir) =>
      var p := dir + [SLASH] + BaseName(key) + [46] + digits;
      if |p| + 1 > MAX_PATH then None else Some(p)
  }

  lemma {:induction false} BaseOf(key: seq<byte>, head: seq<byte>, base: seq<byte>)
    requires key == head + [SLASH] + base && SLASH !in base
    ensures BaseName(key) == base
    decreases |base|
  {
    if base != [] {
      var k := |key| - 1;
      assert key[k] == base[|base| - 1];
      assert key[..k] == head + [SLASH] + base[..|base| - 1];
      BaseOf(key[..k], head, base[..|base| - 1]);
    }
  }

  lemma {:induction false} BaseHasNoSlash(key: seq<byte>)
    ensures SLASH !in BaseName(key)
    decreases |key|
  {
    if key != [] {
      BaseHasNoSlash(key[..|key| - 1]);
    }
  }

  lemma TmpIsInTmp(root: seq<byte>, key: seq<byte>, digits: seq<byte>)
    requires TmpPath(root, key, digits).Some? && SLASH !in digits
    ensures DirOf(TmpPath(root, key, digits).value) == JoinPath(root, TMP)
  {
    var base := BaseName(key) + [46] + digits;
    BaseHasNoSlash(key);
    Regroup(JoinPath(root, TMP).value, BaseName(key), digits);
    DirOfIs(TmpPath(root, key, digits).value, JoinPath(root, TMP).value, base);
  }

  lemma Regroup(dir: seq<byte>, name: seq<byte>, digits: seq<byte>)
    ensures dir + [SLASH] + name + [46] + digits == dir + [SLASH] + (name + [46] + digits)
  {
  }

  lemma DirOfIs(path: seq<byte>, dir: seq<byte>, base: seq<byte>)
    requires path == dir + [SLASH] + base && SLASH !in base
    ensures DirOf(path) == Some(dir)
  {
    BaseOf(path, dir, base);
    assert path[..|dir|] == dir;
  }

  // A key's temporary file is never the file it is for.
  lemma TmpIsElsewhere(root: seq<byte>, key: seq<byte>, digits: seq<byte>)
    requires JoinPath(root, key).Some? && TmpPath(root, key, digits).Some?
    requires digits != [] && SLASH !in digits
    ensures TmpPath(root, key, digits).value != JoinPath(root, key).value
  {
    var head, base := root + Separator(root), BaseName(key);
    var name := base + [46] + digits;
    var tmp := TmpPath(root, key, digits).value;
    BaseHasNoSlash(key);
    assert tmp == head + (TMP + [SLASH] + name);
    if tmp == head + key {
      assert tmp[|head|..] == key;
      BaseOf(key, TMP, name);
    }
  }

  // ---- Directories ------------------------------------------------------------------------------

  // mkdir_p: every directory on the way, then the path itself.
  method MkdirP(fs: FileSystem, path: seq<byte>) returns (r: Option<Error>)
    modifies fs`dirs, fs`clock
    ensures old(fs.dirs) <= fs.dirs
    ensures r.None? ==> path in fs.dirs && forall i :: 1 <= i < |path| && path[i] == SLASH ==> path[..i] in fs.dirs
    ensures r.Some? ==> r == Some(Io) && !fs.Sound()
  {
    var p := 1;
    while p < |path|
      invariant p >= 1 && old(fs.dirs) <= fs.dirs
      invariant forall i :: 1 <= i < p && i < |path| && path[i] == SLASH ==> path[..i] in fs.dirs
    {
      if path[p] == SLASH {
        var ok := fs.Mkdir(path[..p]);
        if !ok {
          return Some(Io);
        }
      }
      p := p + 1;
    }
    var ok := fs.Mkdir(path);
    return if ok then None else Some(Io);
  }

  // ensure_parent_dir
  method EnsureParent(fs: FileSystem, path: seq<byte>) returns (r: Option<Error>)
    modifies fs`dirs, fs`clock
    ensures old(fs.dirs) <= fs.dirs && (r.None? ==> fs.HasDir(path))
    ensures r.Some? ==> r == Some(Io) && !fs.Sound()
  {
    var base := BaseName(path);
    if |base| == |path| {
      return None;
    }
    r := MkdirP(fs, path[..|path| - |base| - 1]);
  }

  // ---- Put -----------------------------------------------------------------------------------------

  // Where a put may be: nothing but its temporary file differs, or the target is there in
  // full.
  ghost predicate PutPoint(s: Files, tmp: seq<byte>, target: seq<byte>, data: seq<byte>, t: Files) {
    OnlyAt(tmp, s, t) || OnlyAt(tmp, s[target := data], t)
  }

  ghost predicate PutPoints(s: Files, tmp: seq<byte>, target: seq<byte>, data: seq<byte>, past: seq<Files>, from: nat) {
    forall i :: from <= i < |past| ==> PutPoint(s, tmp, target, data, past[i])
  }

  // An open handle: the temporary file holds what was appended.
  datatype Handle = Handle(tmp: seq<byte>, target: seq<byte>)

  ghost predicate Streaming(s: Files, h: Handle, written: seq<byte>, t: Files) {
    h.tmp != h.target && OnlyAt(h.tmp, s, t) && h.tmp in t && t[h.tmp] == written
  }

  // dir_put_begin
  method PutBegin(fs: FileSystem, root: seq<byte>, key: seq<byte>, digits: seq<byte>) returns (r: Result<Handle>)
    requires digits != [] && SLASH !in digits
    modifies fs
    ensures r.Ok? ==> JoinPath(root, key) == Some(r.value.target) && TmpPath(root, key, digits) == Some(r.value.tmp)
    ensures r.Ok? ==> Streaming(old(fs.files), r.value, [], fs.files)
    ensures r.Err? ==> fs.files == old(fs.files)
    ensures old(fs.past) <= fs.past
    ensures forall i :: |old(fs.past)| <= i < |fs.past| ==> fs.past[i] == fs.files
    ensures r.Err? <==> JoinPath(root, key).None? || TmpPath(root, key, digits).None? || r == Err(Io)
    ensures r == Err(Io) ==> !fs.Sound()
  {
    var target := JoinPath(root, key);
    if target.None? {
      return Err(Malformed);
    }
    var tmp := TmpPath(root, key, digits);
    if tmp.None? {
      return Err(Malformed);
    }
    TmpIsElsewhere(root, key, digits);
    TmpIsInTmp(root, key, digits);
    var made := MkdirP(fs, JoinPath(root, TMP).value);
    if made.Some? {
      return Err(Io);
    }
    var ok := fs.Create(tmp.value);
    return if ok then Ok(Handle(tmp.value, target.value)) else Err(Io);
  }

  // dir_put_append
  method PutAppend(fs: FileSystem, h: Handle, data: seq<byte>, ghost s: Files, ghost written: seq<byte>)
    returns (r: Option<Error>)
    requires Streaming(s, h, written, fs.files)
    modifies fs
    ensures r.None? ==> Streaming(s, h, written + data, fs.files)
    ensures OnlyAt(h.tmp, s, fs.files) && h.tmp in fs.files && old(fs.past) <= fs.past
    ensures forall i :: |old(fs.past)| <= i < |fs.past| ==> OnlyAt(h.tmp, s, fs.past[i])
    ensures r.Some? ==> r == Some(Io) && !fs.Sound()
  {
    if |data| == 0 {
      assert written + data == written;
      return None;
    }
    var ok := fs.Append(h.tmp, data);
    return if ok then None else Some(Io);
  }

  // dir_put_finish: the only step at which the target changes.
  method PutFinish(fs: FileSystem, h: Handle, closes: bool, ghost s: Files, ghost written: seq<byte>)
    returns (r: Option<Error>)
    requires Streaming(s, h, written, fs.files)
    modifies fs
    ensures r.None? ==> fs.files == (old(fs.files) - {h.tmp})[h.target := written]
    ensures r.None? ==> OnlyAt(h.tmp, s[h.target := written], fs.files) && h.tmp !in fs.files
    ensures r.Some? ==> OnlyAt(h.tmp, s, fs.files) && r == Some(Io) && !(closes && fs.Sound())
    ensures r.None? ==> closes && fs.HasDir(h.target)
    ensures old(fs.past) <= fs.past && PutPoints(s, h.tmp, h.target, written, fs.past, |old(fs.past)|)
  {
    if !closes {
      fs.Remove(h.tmp);
      return Some(Io);
    }
    var made := EnsureParent(fs, h.target);
    if made.Some? {
      fs.Remove(h.tmp);
      return made;
    }
    var ok := fs.Rename(h.tmp, h.target);
    if !ok {
      fs.Remove(h.tmp);
      return Some(Io);
    }
    return None;
  }

  // dir_put_abort
  method PutAbort(fs: FileSystem, h: Handle, ghost s: Files)
    requires OnlyAt(h.tmp, s, fs.files)
    modifies fs
    ensures OnlyAt(h.tmp, s, fs.files) && fs.past == old(fs.past) + [fs.files]
  {
    fs.Remove(h.tmp);
  }

  // dir_put: atomic. Cut off anywhere, even inside a write, the target is as it was or
  // complete, and every file but the temporary one is untouched.
  method Put(fs: FileSystem, root: seq<byte>, key: seq<byte>, data: seq<byte>, digits: seq<byte>, closes: bool)
    returns (r: Option<Error>)
    requires digits != [] && SLASH !in digits
    modifies fs
    ensures r.None? ==> JoinPath(root, key).Some? && TmpPath(root, key, digits).Some?
    ensures r.None? ==> var tmp := TmpPath(root, key, digits).value;
              OnlyAt(tmp, old(fs.files)[JoinPath(root, key).value := data], fs.files) && tmp !in fs.files
    ensures r.Some? && TmpPath(root, key, digits).Some? ==> OnlyAt(TmpPath(root, key, digits).value, old(fs.files), fs.files)
    ensures r.Some? && TmpPath(root, key, digits).None? ==> fs.files == old(fs.files)
    ensures old(fs.past) <= fs.past
    ensures JoinPath(root, key).Some? && TmpPath(root, key, digits).Some? ==>
              PutPoints(old(fs.files), TmpPath(root, key, digits).value, JoinPath(root, key).value, data, fs.past, |old(fs.past)|)
    ensures closes && fs.Sound() ==> (r.None? <==> JoinPath(root, key).Some? && TmpPath(root, key, digits).Some?)
  {
    ghost var s, p0 := fs.files, fs.past;
    var h := PutBegin(fs, root, key, digits);
    if h.Err? {
      return Some(h.error);
    }
    ghost var p1 := fs.past;
    r := PutAppend(fs, h.value, data, s, []);
    ghost var p2 := fs.past;
    AllPoints(s, h.value, data, p0, p1, p2);
    if r.Some? {
      PutAbort(fs, h.value, s);
      return;
    }
    assert [] + data == data;
    r := PutFinish(fs, h.value, closes, s, data);
  }

  lemma AllPoints(s: Files, h: Handle, data: seq<byte>, p0: seq<Files>, p1: seq<Files>, p2: seq<Files>)
    requires p0 <= p1 <= p2
    requires forall i :: |p0| <= i < |p1| ==> OnlyAt(h.tmp, s, p1[i])
    requires forall i :: |p1| <= i < |p2| ==> OnlyAt(h.tmp, s, p2[i])
    ensures p0 <= p2 && PutPoints(s, h.tmp, h.target, data, p2, |p0|)
  {
    forall i | |p0| <= i < |p2|
      ensures PutPoint(s, h.tmp, h.target, data, p2[i])
    {
      if i < |p1| {
        assert p2[i] == p1[i];
      }
    }
  }
}
