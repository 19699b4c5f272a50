// The order of a scan, and why applying metadata backwards leaves every stamp right.

module ScanOrder {
  import opened Bytes
  import opened Exclude
  import opened Meta
  import opened Paths
  import opened Scan

  // ---- What a scan that is not stopped reports -----------------------------------------------

  ghost function EmitNode(list: seq<Pattern>, base: seq<byte>, n: Node): seq<Entry>
    decreases n
  {
    var e := EntryOf(base, n);
    if Excluded(list, e) || Link(e) then []
    else [e] + if e.etype == DIR && n.locks then EmitNodes(list, e.path, n.children) else []
  }

  ghost function EmitNodes(list: seq<Pattern>, base: seq<byte>, ns: seq<Node>): seq<Entry>
    decreases ns
  {
    if ns == [] then [] else EmitNode(list, base, ns[0]) + EmitNodes(list, base, ns[1..])
  }

  // The walk reports a beginning of this, and all of it when it ends well.
  ghost predicate Goes(out: seq<Entry>, all: seq<Entry>, w: Walked) {
    w.seen.out <= out + all && (w.status.None? ==> w.seen.out == out + all)
  }

  lemma GoesOn(out: seq<Entry>, a: seq<Entry>, b: seq<Entry>, v: Walked, w: Walked)
    requires Goes(out, a, v) && (if v.status.Some? then w == v else Goes(v.seen.out, b, w))
    ensures Goes(out, a + b, w)
  {
    assert out + (a + b) == out + a + b;
  }

  lemma {:induction false} WalkNodeEmits(x: Context, base: seq<byte>, n: Node, s: Seen)
    ensures Goes(s.out, EmitNode(x.exclude, base, n), WalkNode(x, base, n, s))
    decreases n, 1
  {
    var e := EntryOf(base, n);
    if |e.path| + 1 <= BUF_LEN && !(Excluded(x.exclude, e) || Link(e)) {
      var w := Report(x, s, e);
      var more := if e.etype == DIR && n.locks then EmitNodes(x.exclude, e.path, n.children) else [];
      if w.status.None? && e.etype == DIR && n.locks {
        WalkNodesEmits(x, e.path, n.children, w.seen);
        GoesOn(s.out, [e], more, w, WalkDir(x, e.path, n, w.seen));
      } else {
        assert s.out + ([e] + more) == s.out + [e] + more;
      }
    }
  }

  lemma {:induction false} WalkNodesEmits(x: Context, base: seq<byte>, ns: seq<Node>, s: Seen)
    ensures Goes(s.out, EmitNodes(x.exclude, base, ns), WalkNodes(x, base, ns, s))
    decreases ns
  {
    if ns != [] {
      var v := WalkNode(x, base, ns[0], s);
      WalkNodeEmits(x, base, ns[0], s);
      if v.status.None? {
        WalkNodesEmits(x, base, ns[1..], v.seen);
      }
      GoesOn(s.out, EmitNode(x.exclude, base, ns[0]), EmitNodes(x.exclude, base, ns[1..]), v,
             WalkNodes(x, base, ns, s));
    } else {
      assert s.out + [] == s.out;
    }
  }

  // ---- What the counters say -----------------------------------------------------------------

  function Dirs(es: seq<Entry>): nat {
    if es == [] then 0 else Dirs(es[..|es| - 1]) + if es[|es| - 1].etype == DIR then 1 else 0
  }

  // Directories and files as often as they were reported.
  predicate Tallies(s: Seen) {
    s.count.dirs == Dirs(s.out) && s.count.files == |s.out| - Dirs(s.out)
  }

  lemma ReportTallies(x: Context, s: Seen, e: Entry)
    requires Tallies(s)
    ensures Tallies(Report(x, s, e).seen)
  {
    assert (s.out + [e])[..|s.out|] == s.out;
  }

  lemma {:induction false} NodeTallies(x: Context, base: seq<byte>, n: Node, s: Seen)
    requires Tallies(s)
    ensures Tallies(WalkNode(x, base, n, s).seen)
    decreases n, 1
  {
    var e := EntryOf(base, n);
    ReportTallies(x, s, e);
    if e.etype == DIR && n.locks {
      NodesTally(x, e.path, n.children, Report(x, s, e).seen);
    }
  }

  lemma {:induction false} NodesTally(x: Context, base: seq<byte>, ns: seq<Node>, s: Seen)
    requires Tallies(s)
    ensures Tallies(WalkNodes(x, base, ns, s).seen)
    decreases ns
  {
    if ns != [] {
      NodeTallies(x, base, ns[0], s);
      if WalkNode(x, base, ns[0], s).status.None? {
        NodesTally(x, base, ns[1..], WalkNode(x, base, ns[0], s).seen);
      }
    }
  }

  // However the scan ends, it counted exactly what it reported.
  lemma ScanTallies(x: Context, root: Node)
    ensures Tallies(WalkVolume(x, root).seen)
  {
    var e := root.meta.(path := [], etype := DIR);
    assert Tallies(NOTHING);
    ReportTallies(x, NOTHING, e);
    NodesTally(x, [], root.children, Report(x, NOTHING, e).seen);
  }

  // ---- Parents and first names ------------------------------------------------------------------

  function LastSlash(q: seq<byte>): (r: int)
    ensures -1 <= r < |q| && (r >= 0 ==> q[r] == SLASH) && forall i :: r < i < |q| ==> q[i] != SLASH
  {
    if q == [] then -1 else if q[|q| - 1] == SLASH then |q| - 1 else LastSlash(q[..|q| - 1])
  }

  // The directory a path is in; the root is in none.
  function Parent(q: seq<byte>): Option<seq<byte>> {
    if q == [] then None else Some(if LastSlash(q) < 0 then [] else q[..LastSlash(q)])
  }

  predicate Below(base: seq<byte>, q: seq<byte>) {
    if base == [] then q != [] else |q| > |base| + 1 && q[..|base|] == base && q[|base|] == SLASH
  }

  // What follows the base, and its first component.
  function After(base: seq<byte>, q: seq<byte>): seq<byte>
    requires Below(base, q)
  {
    if base == [] then q else q[|base| + 1..]
  }

  function FirstName(base: seq<byte>, q: seq<byte>): seq<byte>
    requires Below(base, q)
  {
    After(base, q)[..ComponentEnd(After(base, q), 0)]
  }

  predicate GoodName(name: seq<byte>) {
    name != [] && SLASH !in name
  }

  lemma {:induction false} EndOfName(s: seq<byte>, name: seq<byte>, pos: nat)
    requires SLASH !in name && name <= s && pos <= |name| && (|s| == |name| || s[|name|] == SLASH)
    ensures ComponentEnd(s, pos) == |name|
    decreases |name| - pos
  {
    if pos < |name| {
      assert s[pos] == name[pos] && name[pos] in name;
      EndOfName(s, name, pos + 1);
    }
  }

  lemma LastSlashIs(q: seq<byte>, k: int)
    requires -1 <= k < |q| && (k >= 0 ==> q[k] == SLASH) && forall i :: k < i < |q| ==> q[i] != SLASH
    ensures LastSlash(q) == k
  {
  }

  lemma OfSelf(base: seq<byte>, name: seq<byte>)
    requires GoodName(name)
    ensures var p := PathOf(base, name); Below(base, p) && FirstName(base, p) == name && Parent(p) == Some(base)
  {
    var p := PathOf(base, name);
    assert After(base, p) == name;
    EndOfName(name, name, 0);
    assert forall i :: 0 <= i < |name| ==> name[i] in name;
    if base == [] {
      LastSlashIs(p, -1);
    } else {
      assert forall i :: |base| < i < |p| ==> p[i] == name[i - |base| - 1];
      LastSlashIs(p, |base|);
      assert p[..|base|] == base;
    }
  }

  lemma OfBelow(base: seq<byte>, name: seq<byte>, q: seq<byte>)
    requires GoodName(name) && Below(PathOf(base, name), q)
    ensures Below(base, q) && FirstName(base, q) == name
  {
    var p := PathOf(base, name);
    if base != [] {
      assert q[..|base|] == q[..|p|][..|base|] == base;
      assert q[|base|] == q[..|p|][|base|];
    }
    var s := After(base, q);
    assert forall i :: 0 <= i < |name| ==> s[i] == q[..|p|][|p| - |name| + i];
    assert s[..|name|] == name;
    EndOfName(s, name, 0);
  }

  // The parent of what is below a base is the base, or below it under the same first name.
  lemma ParentBelow(base: seq<byte>, q: seq<byte>)
    requires Below(base, q) && FirstName(base, q) != []
    ensures Parent(q).Some?
    ensures var r := Parent(q).value;
      r == base || (Below(base, r) && FirstName(base, r) == FirstName(base, q))
  {
    var s, k := After(base, q), LastSlash(q);
    var e := ComponentEnd(s, 0);
    var off := |q| - |s|;
    if e == |s| {
      assert forall i :: off <= i < |q| ==> q[i] == s[i - off];
      assert base != [] ==> q[..|base|] == base;
    } else {
      assert q[off + e] == s[e] == SLASH;
      assert k >= off + e;
      var r := q[..k];
      assert base != [] ==> r[..|base|] == q[..|base|];
      assert After(base, r) == s[..k - off];
      var name := s[..e];
      assert SLASH !in name;
      assert name == After(base, r)[..e];
      EndOfName(After(base, r), name, 0);
    }
  }

  // ---- Ordered lists --------------------------------------------------------------------------

  ghost predicate AllBelow(es: seq<Entry>, base: seq<byte>) {
    forall i :: 0 <= i < |es| ==> Below(base, es[i].path) && FirstName(base, es[i].path) != []
  }

  // No entry comes before its own directory.
  ghost predicate ParentsFirst(es: seq<Entry>) {
    forall i, j :: 0 <= i < j < |es| ==> Parent(es[i].path) != Some(es[j].path)
  }

  // The directory of every entry is `base` or was reported before it.
  ghost predicate HasParent(es: seq<Entry>, base: seq<byte>, i: nat)
    requires i < |es|
  {
    Parent(es[i].path) == Some(base)
    || exists j :: 0 <= j < i && Parent(es[i].path) == Some(es[j].path) && es[j].etype == DIR
  }

  ghost predicate Closed(es: seq<Entry>, base: seq<byte>) {
    forall i :: 0 <= i < |es| ==> HasParent(es, base, i)
  }

  ghost predicate WellOrdered(es: seq<Entry>, base: seq<byte>) {
    AllBelow(es, base) && ParentsFirst(es) && PathsDiffer(es) && Closed(es, base)
  }

  ghost predicate Named(es: seq<Entry>, base: seq<byte>, names: set<seq<byte>>) {
    forall i :: 0 <= i < |es| ==> Below(base, es[i].path) && FirstName(base, es[i].path) in names
  }

  // Siblings' subtrees do not mix.
  lemma Siblings(a: seq<Entry>, b: seq<Entry>, base: seq<byte>, name: seq<byte>, names: set<seq<byte>>)
    requires WellOrdered(a, base) && WellOrdered(b, base) && Named(a, base, {name}) && Named(b, base, names)
    requires name !in names
    ensures WellOrdered(a + b, base) && Named(a + b, base, names + {name})
  {
    var c := a + b;
    forall i, j | 0 <= i < j < |c|
      ensures c[i].path != c[j].path && Parent(c[i].path) != Some(c[j].path)
    {
      if i < |a| <= j {
        assert c[i] == a[i] && c[j] == b[j - |a|];
        ParentBelow(base, a[i].path);
      }
    }
    forall i | 0 <= i < |c|
      ensures HasParent(c, base, i)
    {
      if i < |a| {
        KeepParent(a, b, base, i);
      } else {
        ShiftParent(a, b, base, i - |a|);
      }
    }
  }

  lemma KeepParent(a: seq<Entry>, b: seq<Entry>, base: seq<byte>, i: nat)
    requires i < |a| && HasParent(a, base, i)
    ensures HasParent(a + b, base, i)
  {
    if Parent(a[i].path) != Some(base) {
      var j :| 0 <= j < i && Parent(a[i].path) == Some(a[j].path) && a[j].etype == DIR;
      assert (a + b)[j] == a[j] && (a + b)[i] == a[i];
    }
  }

  lemma ShiftParent(a: seq<Entry>, b: seq<Entry>, base: seq<byte>, i: nat)
    requires i < |b| && HasParent(b, base, i)
    ensures HasParent(a + b, base, |a| + i)
  {
    if Parent(b[i].path) != Some(base) {
      var j :| 0 <= j < i && Parent(b[i].path) == Some(b[j].path) && b[j].etype == DIR;
      assert (a + b)[|a| + j] == b[j] && (a + b)[|a| + i] == b[i];
    }
  }

  // What is in a directory follows it.
  lemma InDirectory(e: Entry, es: seq<Entry>, base: seq<byte>, i: nat)
    requires e.etype == DIR && i < |es| && HasParent(es, e.path, i)
    ensures HasParent([e] + es, base, i + 1)
  {
    var c := [e] + es;
    assert c[0] == e && c[i + 1] == es[i];
    if Parent(es[i].path) != Some(e.path) {
      var j :| 0 <= j < i && Parent(es[i].path) == Some(es[j].path) && es[j].etype == DIR;
      assert c[j + 1] == es[j];
    }
  }

  lemma LongerPath(p: seq<byte>, base: seq<byte>, q: seq<byte>)
    requires Parent(p) == Some(base) && Below(base, p) && Below(p, q)
    ensures q != p && q != base
  {
  }

  // A directory and then what is below it.
  lemma DirectoryFirst(e: Entry, es: seq<Entry>, base: seq<byte>, name: seq<byte>)
    requires GoodName(name) && e.path == PathOf(base, name) && e.etype == DIR && WellOrdered(es, e.path)
    ensures WellOrdered([e] + es, base) && Named([e] + es, base, {name})
  {
    var c := [e] + es;
    OfSelf(base, name);
    forall i | 0 <= i < |es|
      ensures Below(base, es[i].path) && FirstName(base, es[i].path) == name
      ensures es[i].path != e.path && es[i].path != base
      ensures HasParent(c, base, i + 1)
    {
      OfBelow(base, name, es[i].path);
      LongerPath(e.path, base, es[i].path);
      assert HasParent(es, e.path, i);
      InDirectory(e, es, base, i);
    }
    OrderedCons(e, es, base);
    assert forall i :: 0 < i < |c| ==> c[i] == es[i - 1];
    assert HasParent(c, base, 0);
    forall i | 0 <= i < |c|
      ensures HasParent(c, base, i)
    {
      if i > 0 {
        assert HasParent(c, base, i - 1 + 1);
      }
    }
  }

  lemma OrderedCons(e: Entry, es: seq<Entry>, base: seq<byte>)
    requires Parent(e.path) == Some(base) && ParentsFirst(es) && PathsDiffer(es)
    requires forall i :: 0 <= i < |es| ==> es[i].path != e.path && es[i].path != base
    ensures ParentsFirst([e] + es) && PathsDiffer([e] + es)
  {
    var c := [e] + es;
    forall i, j | 0 <= i < j < |c|
      ensures c[i].path != c[j].path && Parent(c[i].path) != Some(c[j].path)
    {
      assert c[j] == es[j - 1];
      if i > 0 {
        assert c[i] == es[i - 1];
      }
    }
  }

  lemma SingleEntry(e: Entry, base: seq<byte>, name: seq<byte>)
    requires GoodName(name) && e.path == PathOf(base, name)
    ensures WellOrdered([e], base) && Named([e], base, {name})
  {
    OfSelf(base, name);
  }

  // ---- The scan is well ordered ------------------------------------------------------------------

  // Names of a directory are usable and different from one another.
  ghost predicate GoodTree(ns: seq<Node>)
    decreases ns
  {
    ns == [] || (GoodName(ns[0].name) && ns[0].name !in NamesIn(ns[1..]) && GoodTree(ns[0].children) && GoodTree(ns[1..]))
  }

  ghost function NamesIn(ns: seq<Node>): set<seq<byte>> {
    if ns == [] then {} else {ns[0].name} + NamesIn(ns[1..])
  }

  lemma {:induction false} NodeIsOrdered(list: seq<Pattern>, base: seq<byte>, n: Node)
    requires GoodName(n.name) && GoodTree(n.children)
    ensures WellOrdered(EmitNode(list, base, n), base) && Named(EmitNode(list, base, n), base, {n.name})
    decreases n, 1
  {
    var e := EntryOf(base, n);
    if !(Excluded(list, e) || Link(e)) {
      if e.etype == DIR && n.locks {
        NodesAreOrdered(list, e.path, n.children);
        DirectoryFirst(e, EmitNodes(list, e.path, n.children), base, n.name);
      } else {
        SingleEntry(e, base, n.name);
        assert [e] + [] == [e];
      }
    }
  }

  lemma {:induction false} NodesAreOrdered(list: seq<Pattern>, base: seq<byte>, ns: seq<Node>)
    requires GoodTree(ns)
    ensures WellOrdered(EmitNodes(list, base, ns), base) && Named(EmitNodes(list, base, ns), base, NamesIn(ns))
    decreases ns
  {
    if ns != [] {
      NodeIsOrdered(list, base, ns[0]);
      NodesAreOrdered(list, base, ns[1..]);
      Siblings(EmitNode(list, base, ns[0]), EmitNodes(list, base, ns[1..]), base, ns[0].name, NamesIn(ns[1..]));
    }
  }

  // Nothing excluded and no link is reported; with Closed, nothing below one either.
  lemma {:induction false} NodeIsCut(list: seq<Pattern>, base: seq<byte>, n: Node)
    ensures forall e :: e in EmitNode(list, base, n) ==> !Excluded(list, e) && !Link(e)
    decreases n, 1
  {
    var e := EntryOf(base, n);
    if e.etype == DIR && n.locks {
      NodesAreCut(list, e.path, n.children);
    }
  }

  lemma {:induction false} NodesAreCut(list: seq<Pattern>, base: seq<byte>, ns: seq<Node>)
    ensures forall e :: e in EmitNodes(list, base, ns) ==> !Excluded(list, e) && !Link(e)
    decreases ns
  {
    if ns != [] {
      NodeIsCut(list, base, ns[0]);
      NodesAreCut(list, base, ns[1..]);
    }
  }

  // What a scan that ends well reports: the root, then a list in which paths differ, every
  // entry comes after its directory, and nothing excluded or below something excluded (or a
  // link) appears.
  lemma ScanIsOrdered(x: Context, root: Node)
    requires GoodTree(root.children) && WalkVolume(x, root).status.None?
    ensures var out := WalkVolume(x, root).seen.out;
      && out != [] && out[0].path == [] && out[0].etype == DIR && WellOrdered(out[1..], [])
      && ParentsFirst(out) && PathsDiffer(out)
      && forall e :: e in out[1..] ==> !Excluded(x.exclude, e) && !Link(e)
  {
    var w := Report(x, NOTHING, root.meta.(path := [], etype := DIR));
    var first, es := w.seen.out[0], EmitNodes(x.exclude, [], root.children);
    WalkNodesEmits(x, [], root.children, w.seen);
    NodesAreOrdered(x.exclude, [], root.children);
    NodesAreCut(x.exclude, [], root.children);
    RootFirst(first, es);
    assert WalkVolume(x, root).seen.out == [first] + es;
    assert ([first] + es)[1..] == es;
  }

  lemma RootFirst(e: Entry, es: seq<Entry>)
    requires e.path == [] && WellOrdered(es, [])
    ensures ParentsFirst([e] + es) && PathsDiffer([e] + es)
  {
    var c := [e] + es;
    forall i, j | 0 <= i < j < |c|
      ensures c[i].path != c[j].path && Parent(c[i].path) != Some(c[j].path)
    {
      assert c[j] == es[j - 1];
      if i > 0 {
        assert c[i] == es[i - 1];
      }
    }
  }
}
