// Which paths a restore takes, said without the test: exactly those made of ordinary names.
// They stay inside the destination, and a scan reports nothing else.

module SafePaths {
  import opened Bytes
  import opened Exclude
  import opened Meta
  import opened Paths
  import opened Restore
  import opened RestoreRun
  import opened Scan
  import opened ScanOrder

  // A name as a file can have it: not empty, no '/' or ':' in it, and not "..".
  predicate OrdinaryName(c: seq<byte>) {
    c != [] && 47 !in c && 58 !in c && c != [46, 46]
  }

  predicate AllOrdinary(cs: seq<seq<byte>>) {
    forall i :: 0 <= i < |cs| ==> OrdinaryName(cs[i])
  }

  ghost predicate SomeColon(cs: seq<seq<byte>>) {
    exists i :: 0 <= i < |cs| && COLON in cs[i]
  }

  lemma {:induction false} NoSlashInside(p: seq<byte>)
    ensures forall i :: 0 <= i < |Components(p)| ==> SLASH !in Components(p)[i]
    ensures COLON in p <==> SomeColon(Components(p))
    decreases |p|
  {
    if p != [] {
      NoSlashInside(p[1..]);
      var r := Components(p[1..]);
      if p[0] == SLASH {
        ColonSlash(p, r);
      } else {
        ColonByte(p, r);
      }
    }
  }

  lemma ColonSlash(p: seq<byte>, r: seq<seq<byte>>)
    requires p != [] && p[0] == SLASH && (COLON in p[1..] <==> SomeColon(r))
    ensures COLON in p <==> SomeColon([[]] + r)
  {
    assert p == [p[0]] + p[1..];
    if SomeColon(r) {
      var i :| 0 <= i < |r| && COLON in r[i];
      assert ([[]] + r)[i + 1] == r[i];
    }
  }

  lemma ColonByte(p: seq<byte>, r: seq<seq<byte>>)
    requires p != [] && r != [] && (COLON in p[1..] <==> SomeColon(r))
    ensures COLON in p <==> SomeColon([[p[0]] + r[0]] + r[1..])
  {
    var c := [[p[0]] + r[0]] + r[1..];
    assert p == [p[0]] + p[1..];
    if SomeColon(r) {
      var i :| 0 <= i < |r| && COLON in r[i];
      assert COLON in c[i];
    }
    if p[0] == COLON {
      assert COLON in c[0];
    }
  }

  lemma {:induction false} GoodMeans(cs: seq<seq<byte>>)
    ensures GoodComponents(cs) <==> forall i :: 0 <= i < |cs| ==> cs[i] != [] && cs[i] != [DOT, DOT]
    decreases |cs|
  {
    if cs != [] {
      GoodMeans(cs[1..]);
      assert forall i :: 1 <= i < |cs| ==> cs[i] == cs[1..][i - 1];
    }
  }

  lemma {:induction false} ComponentsOfJoin(cs: seq<seq<byte>>)
    requires cs != [] && forall i :: 0 <= i < |cs| ==> SLASH !in cs[i]
    ensures Components(Join(cs)) == cs
    decreases |cs|
  {
    OneComponent(cs[0]);
    if |cs| == 1 {
      assert cs == [cs[0]];
    } else {
      ComponentsOfJoin(cs[1..]);
      ComponentsConcat(cs[0], Join(cs[1..]));
      assert cs == [cs[0]] + cs[1..];
    }
  }

  lemma {:induction false} OneComponent(c: seq<byte>)
    requires SLASH !in c
    ensures Components(c) == [c]
    decreases |c|
  {
    if c != [] {
      assert c == [c[0]] + c[1..];
      OneComponent(c[1..]);
    }
  }

  // A path is taken if and only if it is the destination itself, or ordinary names joined.
  lemma SafeIsOrdinary(p: seq<byte>)
    ensures SafePath(p) <==> p == [] || exists cs :: cs != [] && AllOrdinary(cs) && p == Join(cs)
  {
    if SafePath(p) && p != [] {
      NoSlashInside(p);
      GoodMeans(Components(p));
      JoinComponents(p);
      assert AllOrdinary(Components(p));
    }
    if exists cs :: cs != [] && AllOrdinary(cs) && p == Join(cs) {
      var cs :| cs != [] && AllOrdinary(cs) && p == Join(cs);
      ComponentsOfJoin(cs);
      NoSlashInside(p);
      GoodMeans(cs);
    }
  }

  // ---- A safe path stays inside --------------------------------------------------------------

  // Where a component leads from a directory, its names from the top: on an Amiga an empty
  // component goes up and ".." is a name, elsewhere it is the other way round.
  datatype System = Amiga | Posix

  function Go(sys: System, at: seq<seq<byte>>, c: seq<byte>): seq<seq<byte>> {
    var up := if sys.Amiga? then c == [] else c == [46, 46];
    var stays := sys.Posix? && (c == [] || c == [46]);
    if up then (if at == [] then [] else at[..|at| - 1])
    else if stays then at
    else at + [c]
  }

  function Resolve(sys: System, base: seq<seq<byte>>, cs: seq<seq<byte>>): seq<seq<byte>> {
    if cs == [] then base else Go(sys, Resolve(sys, base, cs[..|cs| - 1]), cs[|cs| - 1])
  }

  lemma {:induction false} OrdinaryStaysInside(sys: System, base: seq<seq<byte>>, cs: seq<seq<byte>>)
    requires AllOrdinary(cs)
    ensures base <= Resolve(sys, base, cs)
    decreases |cs|
  {
    if cs != [] {
      OrdinaryStaysInside(sys, base, cs[..|cs| - 1]);
      assert OrdinaryName(cs[|cs| - 1]);
    }
  }

  // Followed from any directory, on either system, it never leaves it on the way, and it
  // names no volume.
  lemma StaysInside(sys: System, base: seq<seq<byte>>, p: seq<byte>, k: nat)
    requires SafePath(p) && p != [] && k <= |Components(p)|
    ensures base <= Resolve(sys, base, Components(p)[..k]) && 58 !in p
  {
    NoSlashInside(p);
    GoodMeans(Components(p));
    OrdinaryStaysInside(sys, base, Components(p)[..k]);
  }

  // What leaves the directory it starts from, if only on the way, or names a volume, is refused.
  lemma EscapesAreRefused(sys: System, base: seq<seq<byte>>, p: seq<byte>, k: nat)
    requires k <= |Components(p)| && p != []
    requires 58 in p || !(base <= Resolve(sys, base, Components(p)[..k]))
    ensures !SafePath(p)
  {
    if SafePath(p) {
      StaysInside(sys, base, p, k);
    }
  }

  // ---- A scan reports nothing else -----------------------------------------------------------

  // A tree of names as an Amiga has them, none of them "..".
  ghost predicate OrdinaryTree(ns: seq<Node>)
    decreases ns
  {
    ns == [] || (OrdinaryName(ns[0].name) && OrdinaryTree(ns[0].children) && OrdinaryTree(ns[1..]))
  }

  lemma OneMoreName(base: seq<byte>, name: seq<byte>)
    requires SafePath(base) && OrdinaryName(name)
    ensures SafePath(PathOf(base, name))
  {
    OneComponent(name);
    if base == [] {
      GoodMeans([name]);
    } else {
      ComponentsConcat(base, name);
      GoodMeans(Components(base));
      GoodMeans(Components(base) + [name]);
    }
  }

  // Safe, and no longer than a restore's key buffer takes.
  predicate Restorable(e: Entry) {
    SafePath(e.path) && |e.path| + 1 <= PATH_BUF
  }

  ghost predicate AllRestorable(es: seq<Entry>) {
    forall i :: 0 <= i < |es| ==> Restorable(es[i])
  }

  lemma {:induction false} NodeIsRestorable(x: Context, base: seq<byte>, n: Node, s: Seen)
    requires SafePath(base) && OrdinaryName(n.name) && OrdinaryTree(n.children) && AllRestorable(s.out)
    ensures AllRestorable(WalkNode(x, base, n, s).seen.out)
    decreases n, 1
  {
    var e := EntryOf(base, n);
    OneMoreName(base, n.name);
    if |e.path| + 1 <= BUF_LEN && e.etype == DIR && n.locks && Report(x, s, e).status.None? {
      NodesAreRestorable(x, e.path, n.children, Report(x, s, e).seen);
    }
  }

  lemma {:induction false} NodesAreRestorable(x: Context, base: seq<byte>, ns: seq<Node>, s: Seen)
    requires SafePath(base) && OrdinaryTree(ns) && AllRestorable(s.out)
    ensures AllRestorable(WalkNodes(x, base, ns, s).seen.out)
    decreases ns
  {
    if ns != [] {
      NodeIsRestorable(x, base, ns[0], s);
      if WalkNode(x, base, ns[0], s).status.None? {
        NodesAreRestorable(x, base, ns[1..], WalkNode(x, base, ns[0], s).seen);
      }
    }
  }

  // However it ends, a scan of ordinary names reports only paths a restore takes.
  lemma ScanIsRestorable(x: Context, root: Node)
    requires OrdinaryTree(root.children)
    ensures AllRestorable(WalkVolume(x, root).seen.out)
  {
    var w := Report(x, NOTHING, root.meta.(path := [], etype := DIR));
    assert w.seen.out == [root.meta.(path := [], etype := DIR)];
    NodesAreRestorable(x, [], root.children, w.seen);
  }
}
