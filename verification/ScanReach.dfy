// Which entries a scan reports, said by the chains of names that lead to them.

module ScanReach {
  import opened Bytes
  import opened Exclude
  import opened Meta
  import opened Paths
  import opened Scan
  import opened ScanOrder

  // What is not walked: a link, and what some pattern of the list hits.
  ghost predicate Cut(list: seq<Pattern>, e: Entry) {
    e.etype == 3 || e.etype == 4 || exists k :: 0 <= k < |list| && Hits(list[k], e.path, e.etype == 2)
  }

  // Names from the top, joined with '/'.
  function Joined(names: seq<seq<byte>>): seq<byte> {
    if names == [] then []
    else if |names| == 1 then names[0]
    else Joined(names[..|names| - 1]) + [47] + names[|names| - 1]
  }

  // What the last node of a chain is called from the top, `above` being where it starts.
  function Shown(above: seq<seq<byte>>, n: Node): Entry {
    n.meta.(path := Joined(above + [n.name]))
  }

  // A chain of nodes, each an entry of the directory before it and the first one of `ns`:
  // none is cut, and all but the last are directories that could be opened.
  ghost predicate Leads(list: seq<Pattern>, above: seq<seq<byte>>, ns: seq<Node>, chain: seq<Node>)
    decreases |chain|
  {
    && chain != [] && chain[0] in ns && !Cut(list, Shown(above, chain[0]))
    && (|chain| > 1 ==>
          chain[0].meta.etype == 2 && chain[0].locks
          && Leads(list, above + [chain[0].name], chain[0].children, chain[1..]))
  }

  function NamesOf(chain: seq<Node>): seq<seq<byte>> {
    seq(|chain|, i requires 0 <= i < |chain| => chain[i].name)
  }

  function LastShown(above: seq<seq<byte>>, chain: seq<Node>): Entry
    requires chain != []
  {
    Shown(above + NamesOf(chain[..|chain| - 1]), chain[|chain| - 1])
  }

  ghost predicate Reached(list: seq<Pattern>, above: seq<seq<byte>>, ns: seq<Node>, e: Entry) {
    exists chain :: Leads(list, above, ns, chain) && e == LastShown(above, chain)
  }

  // The walk's base is the names above, joined; no name is empty.
  ghost predicate IsBase(above: seq<seq<byte>>, base: seq<byte>) {
    base == Joined(above) && (above != [] ==> base != [])
  }

  lemma NextBase(above: seq<seq<byte>>, base: seq<byte>, n: Node)
    requires IsBase(above, base) && GoodName(n.name)
    ensures EntryOf(base, n) == Shown(above, n) && IsBase(above + [n.name], EntryOf(base, n).path)
  {
    assert (above + [n.name])[..|above|] == above;
  }

  lemma CutIs(list: seq<Pattern>, e: Entry)
    ensures Cut(list, e) <==> Excluded(list, e) || Link(e)
  {
  }

  lemma LongerChain(above: seq<seq<byte>>, n: Node, chain: seq<Node>)
    requires chain != []
    ensures LastShown(above, [n] + chain) == LastShown(above + [n.name], chain)
  {
    assert above + NamesOf(([n] + chain)[..|chain|]) == above + [n.name] + NamesOf(chain[..|chain| - 1]);
  }

  lemma ShortChain(above: seq<seq<byte>>, n: Node)
    ensures LastShown(above, [n]) == Shown(above, n)
  {
    assert above + NamesOf([n][..0]) == above;
  }

  // ---- Node by node ----------------------------------------------------------------------------

  ghost predicate ReachedFrom(list: seq<Pattern>, above: seq<seq<byte>>, n: Node, e: Entry) {
    && !Cut(list, Shown(above, n))
    && (e == Shown(above, n) || (n.meta.etype == 2 && n.locks && Reached(list, above + [n.name], n.children, e)))
  }

  lemma ReachedByFirst(list: seq<Pattern>, above: seq<seq<byte>>, ns: seq<Node>, e: Entry)
    ensures Reached(list, above, ns, e) <==> exists n :: n in ns && ReachedFrom(list, above, n, e)
  {
    if Reached(list, above, ns, e) {
      var chain :| Leads(list, above, ns, chain) && e == LastShown(above, chain);
      FirstOfChain(list, above, ns, chain);
      assert ReachedFrom(list, above, chain[0], e);
    }
    if exists n :: n in ns && ReachedFrom(list, above, n, e) {
      var n :| n in ns && ReachedFrom(list, above, n, e);
      FromFirst(list, above, ns, n, e);
    }
  }

  lemma FirstOfChain(list: seq<Pattern>, above: seq<seq<byte>>, ns: seq<Node>, chain: seq<Node>)
    requires Leads(list, above, ns, chain)
    ensures ReachedFrom(list, above, chain[0], LastShown(above, chain))
  {
    if |chain| == 1 {
      ShortChain(above, chain[0]);
      assert chain == [chain[0]];
    } else {
      LongerChain(above, chain[0], chain[1..]);
      assert chain == [chain[0]] + chain[1..];
    }
  }

  lemma FromFirst(list: seq<Pattern>, above: seq<seq<byte>>, ns: seq<Node>, n: Node, e: Entry)
    requires n in ns && ReachedFrom(list, above, n, e)
    ensures Reached(list, above, ns, e)
  {
    if e == Shown(above, n) {
      ShortChain(above, n);
      assert Leads(list, above, ns, [n]);
    } else {
      var chain :| Leads(list, above + [n.name], n.children, chain) && e == LastShown(above + [n.name], chain);
      LongerChain(above, n, chain);
      assert ([n] + chain)[1..] == chain;
      assert Leads(list, above, ns, [n] + chain);
    }
  }

  lemma {:induction false} NodeEmitsReached(list: seq<Pattern>, above: seq<seq<byte>>, base: seq<byte>, n: Node, e: Entry)
    requires IsBase(above, base) && GoodName(n.name) && GoodTree(n.children)
    ensures e in EmitNode(list, base, n) <==> ReachedFrom(list, above, n, e)
    decreases n, 1
  {
    NextBase(above, base, n);
    var e0 := EntryOf(base, n);
    CutIs(list, e0);
    if !Cut(list, e0) && e0.etype == DIR && n.locks {
      NodesEmitReached(list, above + [n.name], e0.path, n.children, e);
    }
  }

  lemma {:induction false} NodesEmitReached(list: seq<Pattern>, above: seq<seq<byte>>, base: seq<byte>, ns: seq<Node>, e: Entry)
    requires IsBase(above, base) && GoodTree(ns)
    ensures e in EmitNodes(list, base, ns) <==> Reached(list, above, ns, e)
    decreases ns
  {
    ReachedByFirst(list, above, ns, e);
    if ns != [] {
      NodeEmitsReached(list, above, base, ns[0], e);
      NodesEmitReached(list, above, base, ns[1..], e);
      ReachedByFirst(list, above, ns[1..], e);
      assert forall n :: n in ns <==> n == ns[0] || n in ns[1..];
    }
  }

  // A scan that ends well reports the root and exactly what such chains lead to.
  lemma ScanIsReached(x: Context, root: Node, e: Entry)
    requires GoodTree(root.children) && WalkVolume(x, root).status.None?
    ensures e in WalkVolume(x, root).seen.out <==>
            e == root.meta.(path := [], etype := 2) || Reached(x.exclude, [], root.children, e)
  {
    var w := Report(x, NOTHING, root.meta.(path := [], etype := DIR));
    var first := root.meta.(path := [], etype := DIR);
    assert w.seen.out == [first];
    WalkNodesEmits(x, [], root.children, w.seen);
    NodesEmitReached(x.exclude, [], [], root.children, e);
  }

  // And it ends well if nothing stops it: every listing works, every path fits, and the
  // visitor never objects.
  ghost predicate Walkable(base: seq<byte>, ns: seq<Node>)
    decreases ns
  {
    ns == [] || (|PathOf(base, ns[0].name)| < 2048 && !ns[0].ioError && Walkable(PathOf(base, ns[0].name), ns[0].children)
                 && Walkable(base, ns[1..]))
  }

  lemma {:induction false} NodeWalks(x: Context, base: seq<byte>, n: Node, s: Seen)
    requires (forall k :: x.answer(k).None?) && |PathOf(base, n.name)| < 2048 && !n.ioError
    requires Walkable(PathOf(base, n.name), n.children)
    ensures WalkNode(x, base, n, s).status.None?
    decreases n, 1
  {
    var e := EntryOf(base, n);
    if e.etype == DIR && n.locks && !Excluded(x.exclude, e) && !Link(e) {
      NodesWalk(x, e.path, n.children, Report(x, s, e).seen);
    }
  }

  lemma {:induction false} NodesWalk(x: Context, base: seq<byte>, ns: seq<Node>, s: Seen)
    requires (forall k :: x.answer(k).None?) && Walkable(base, ns)
    ensures WalkNodes(x, base, ns, s).status.None?
    decreases ns
  {
    if ns != [] {
      NodeWalks(x, base, ns[0], s);
      NodesWalk(x, base, ns[1..], WalkNode(x, base, ns[0], s).seen);
    }
  }

  lemma ScanEnds(x: Context, root: Node)
    requires (forall k :: x.answer(k).None?) && !root.ioError && Walkable([], root.children)
    ensures WalkVolume(x, root).status.None?
  {
    NodesWalk(x, [], root.children, Report(x, NOTHING, root.meta.(path := [], etype := DIR)).seen);
  }
}
