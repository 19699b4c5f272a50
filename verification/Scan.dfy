// The directory walk: every entry is reported once, a directory before its contents;
// excluded entries and links are cut with everything below them.

module Scan {
  import opened Bytes
  import opened Exclude
  import opened Meta
  import opened Paths

  const BUF_LEN: nat := 2048

  // A directory entry: its metadata (the path is filled in), whether it can be locked and
  // whether listing it ends in an error, and what is in it.
  datatype Node = Node(name: seq<byte>, meta: Entry, locks: bool, ioError: bool, children: seq<Node>)

  // The exclude list and the visitor's answer to its n-th call.
  datatype Context = Context(exclude: seq<Pattern>, answer: nat -> Option<Error>)

  function PathOf(base: seq<byte>, name: seq<byte>): seq<byte> {
    if base == [] then name else base + [SLASH] + name
  }

  predicate Excluded(list: seq<Pattern>, e: Entry) {
    exists i :: 0 <= i < |list| && Hits(list[i], e.path, e.etype == DIR)
  }

  predicate Link(e: Entry) {
    e.etype == SOFTLINK || e.etype == HARDLINK
  }

  function EntryOf(base: seq<byte>, n: Node): Entry {
    n.meta.(path := PathOf(base, n.name))
  }

  datatype Counters = Counters(dirs: nat, files: nat, links: nat, dirsExcluded: nat, filesExcluded: nat, dirsFailed: nat)

  // What was reported and counted so far, and how the walk ended.
  datatype Seen = Seen(out: seq<Entry>, count: Counters)

  datatype Walked = Walked(seen: Seen, status: Option<Error>)

  function Counted(c: Counters, e: Entry): Counters {
    if e.etype == DIR then c.(dirs := c.dirs + 1) else c.(files := c.files + 1)
  }

  function CountedOut(c: Counters, e: Entry): Counters {
    if e.etype == DIR then c.(dirsExcluded := c.dirsExcluded + 1) else c.(filesExcluded := c.filesExcluded + 1)
  }

  function Report(x: Context, s: Seen, e: Entry): Walked {
    Walked(Seen(s.out + [e], Counted(s.count, e)), x.answer(|s.out|))
  }

  // process_entry
  ghost function WalkNode(x: Context, base: seq<byte>, n: Node, s: Seen): Walked
    decreases n, 1
  {
    var e := EntryOf(base, n);
    if |e.path| + 1 > BUF_LEN then Walked(s, Some(TooLong))
    else if Excluded(x.exclude, e) then Walked(s.(count := CountedOut(s.count, e)), None)
    else if Link(e) then Walked(s.(count := s.count.(links := s.count.links + 1)), None)
    else
      var w := Report(x, s, e);
      if w.status.Some? || e.etype != DIR then w
      else if n.locks then WalkDir(x, e.path, n, w.seen)
      else Walked(w.seen.(count := w.seen.count.(dirsFailed := w.seen.count.dirsFailed + 1)), None)
  }

  // scan_dir
  ghost function WalkDir(x: Context, path: seq<byte>, n: Node, s: Seen): Walked
    decreases n, 0
  {
    var w := WalkNodes(x, path, n.children, s);
    if w.status.None? && n.ioError then w.(status := Some(Io)) else w
  }

  ghost function WalkNodes(x: Context, base: seq<byte>, ns: seq<Node>, s: Seen): Walked
    decreases ns
  {
    if ns == [] then Walked(s, None)
    else
      var w := WalkNode(x, base, ns[0], s);
      if w.status.Some? then w else WalkNodes(x, base, ns[1..], w.seen)
  }

  const NOTHING: Seen := Seen([], Counters(0, 0, 0, 0, 0, 0))

  // amisnap_scan_volume: the root first, then everything in it.
  ghost function WalkVolume(x: Context, root: Node): Walked {
    var w := Report(x, NOTHING, root.meta.(path := [], etype := DIR));
    if w.status.Some? then w else WalkDir(x, [], root, w.seen)
  }

  // ---- The walk over a shared path buffer -------------------------------------------------

  class Scanner {
    const x: Context
    const buf: array<byte>
    var out: seq<Entry>
    var count: Counters

    predicate Valid()
      reads this
    {
      buf.Length == BUF_LEN
    }

    function SoFar(): Seen
      reads this
    {
      Seen(out, count)
    }

    constructor (x: Context)
      ensures Valid() && fresh(buf) && this.x == x && SoFar() == NOTHING
    {
      this.x := x;
      buf := new byte[BUF_LEN](_ => 0);
      out, count := [], Counters(0, 0, 0, 0, 0, 0);
    }

    // path_push: the name goes behind the first `base` bytes; one byte stays for the end mark.
    method PathPush(base: nat, name: seq<byte>) returns (r: Option<nat>)
      requires Valid() && base < BUF_LEN
      modifies buf
      ensures buf[..base] == old(buf[..base])
      ensures var p := PathOf(old(buf[..base]), name);
        (r.None? <==> |p| + 1 > BUF_LEN) && (r.Some? ==> r.value == |p| && buf[..r.value] == p)
    {
      var total := base + (if base > 0 then 1 else 0) + |name|;
      if total + 1 > BUF_LEN {
        return None;
      }
      var at := base;
      if base > 0 {
        buf[base] := SLASH;
        at := at + 1;
      }
      for i := 0 to |name|
        invariant forall j :: 0 <= j < i ==> buf[at + j] == name[j]
        invariant forall j :: 0 <= j < base ==> buf[j] == old(buf[j])
        invariant base > 0 ==> buf[base] == SLASH
      {
        buf[at + i] := name[i];
      }
      assert buf[at..at + |name|] == name;
      assert buf[..total] == buf[..base] + buf[base..at] + buf[at..total];
      return Some(total);
    }

    method Visit(e: Entry) returns (status: Option<Error>)
      modifies `out, `count
      ensures Walked(SoFar(), status) == Report(x, old(SoFar()), e)
    {
      if e.etype == DIR {
        count := count.(dirs := count.dirs + 1);
      } else {
        count := count.(files := count.files + 1);
      }
      out := out + [e];
      return x.answer(|out| - 1);
    }

    method ProcessEntry(base: nat, n: Node) returns (status: Option<Error>)
      requires Valid() && base < BUF_LEN
      modifies this`out, this`count, buf
      ensures buf[..base] == old(buf[..base])
      ensures Walked(SoFar(), status) == WalkNode(x, old(buf[..base]), n, old(SoFar()))
      decreases n, 1
    {
      var pushed := PathPush(base, n.name);
      if pushed.None? {
        return Some(TooLong);
      }
      var len := pushed.value;
      var e := n.meta.(path := buf[..len]);
      var hit := ExcludeMatch(x.exclude, e.path, e.etype == DIR);
      if hit {
        count := if e.etype == DIR then count.(dirsExcluded := count.dirsExcluded + 1)
                 else count.(filesExcluded := count.filesExcluded + 1);
        return None;
      }
      if Link(e) {
        count := count.(links := count.links + 1);
        return None;
      }
      status := Visit(e);
      if e.etype != DIR || status.Some? {
        return;
      }
      if !n.locks {
        count := count.(dirsFailed := count.dirsFailed + 1);
        return;
      }
      status := ScanDir(len, n);
      PrefixKept(buf[..len], e.path, base);
    }

    lemma PrefixKept(a: seq<byte>, b: seq<byte>, base: nat)
      requires a == b && base <= |a|
      ensures a[..base] == b[..base]
    {
    }

    method ScanDir(len: nat, n: Node) returns (status: Option<Error>)
      requires Valid() && len < BUF_LEN
      modifies this`out, this`count, buf
      ensures buf[..len] == old(buf[..len])
      ensures Walked(SoFar(), status) == WalkDir(x, old(buf[..len]), n, old(SoFar()))
      decreases n, 0
    {
      ghost var path, before := buf[..len], SoFar();
      assert n.children[0..] == n.children;
      for k := 0 to |n.children|
        invariant buf[..len] == path
        invariant WalkNodes(x, path, n.children, before) == WalkNodes(x, path, n.children[k..], SoFar())
      {
        assert n.children[k..][1..] == n.children[k + 1..];
        status := ProcessEntry(len, n.children[k]);
        if status.Some? {
          return;
        }
      }
      return if n.ioError then Some(Io) else None;
    }

    method ScanVolume(root: Node) returns (status: Option<Error>)
      requires Valid() && SoFar() == NOTHING
      modifies this`out, this`count, buf
      ensures Walked(SoFar(), status) == WalkVolume(x, root)
    {
      status := Visit(root.meta.(path := [], etype := DIR));
      if status.Some? {
        return;
      }
      assert buf[..0] == [];
      status := ScanDir(0, root);
    }
  }
}
