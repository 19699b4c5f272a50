// Paths: components joined with '/'.

module Paths {
  import opened Bytes

  const SLASH: byte := 47
  const COLON: byte := 58
  const DOT: byte := 46

  // The components of a path; the empty path has one, empty, component.
  function Components(p: seq<byte>): (r: seq<seq<byte>>)
    ensures r != []
  {
    if p == [] then [[]]
    else if p[0] == SLASH then [[]] + Components(p[1..])
    else var r := Components(p[1..]); [[p[0]] + r[0]] + r[1..]
  }

  // Where the component that starts at `pos` ends.
  function ComponentEnd(p: seq<byte>, pos: nat): (r: nat)
    requires pos <= |p|
    ensures pos <= r <= |p| && (r < |p| ==> p[r] == SLASH)
    ensures forall i :: pos <= i < r ==> p[i] != SLASH
    decreases |p| - pos
  {
    if pos == |p| || p[pos] == SLASH then pos else ComponentEnd(p, pos + 1)
  }

  // next_component
  method FindEnd(p: seq<byte>, pos: nat) returns (i: nat)
    requires pos <= |p|
    ensures i == ComponentEnd(p, pos)
  {
    i := pos;
    while i < |p| && p[i] != SLASH
      invariant pos <= i <= |p| && ComponentEnd(p, i) == ComponentEnd(p, pos)
    {
      i := i + 1;
    }
  }

  lemma {:induction false} ComponentsStep(p: seq<byte>, pos: nat)
    requires pos <= |p|
    ensures var e := ComponentEnd(p, pos);
      Components(p[pos..]) == if e == |p| then [p[pos..]] else [p[pos..e]] + Components(p[e + 1..])
    decreases |p| - pos
  {
    if pos < |p| && p[pos] != SLASH {
      var e := ComponentEnd(p, pos);
      ComponentsStep(p, pos + 1);
      assert p[pos..][1..] == p[pos + 1..];
      if e == |p| {
        assert [p[pos]] + p[pos + 1..] == p[pos..];
      } else {
        assert [p[pos]] + p[pos + 1..e] == p[pos..e];
      }
    } else if pos < |p| {
      assert p[pos..][1..] == p[pos + 1..] && p[pos..pos] == [];
    }
  }

  lemma FirstComponent(p: seq<byte>, pos: nat, e: nat) returns (rest: seq<seq<byte>>)
    requires pos <= |p| && e == ComponentEnd(p, pos)
    ensures Components(p[pos..]) == [p[pos..e]] + rest
    ensures rest == if e < |p| then Components(p[e + 1..]) else []
  {
    ComponentsStep(p, pos);
    if e < |p| {
      rest := Components(p[e + 1..]);
    } else {
      rest := [];
      assert p[pos..e] == p[pos..];
    }
  }

  // Joining components back.
  function Join(cs: seq<seq<byte>>): seq<byte>
    requires cs != []
  {
    if |cs| == 1 then cs[0] else cs[0] + [SLASH] + Join(cs[1..])
  }

  lemma {:induction false} JoinComponents(p: seq<byte>)
    ensures Join(Components(p)) == p
    decreases |p|
  {
    if p != [] {
      var r := Components(p[1..]);
      JoinComponents(p[1..]);
      if p[0] == SLASH {
        assert ([[]] + r)[1..] == r;
        assert [] + [SLASH] + Join(r) == [p[0]] + p[1..];
      } else {
        var c := [[p[0]] + r[0]] + r[1..];
        if |r| == 1 {
          assert Join(c) == [p[0]] + p[1..];
        } else {
          assert c[1..] == r[1..];
          assert [p[0]] + r[0] + [SLASH] + Join(r[1..]) == [p[0]] + (r[0] + [SLASH] + Join(r[1..]));
        }
      }
    }
  }

  // So different paths have different components.
  lemma ComponentsInjective(p: seq<byte>, q: seq<byte>)
    requires Components(p) == Components(q)
    ensures p == q
  {
    JoinComponents(p);
    JoinComponents(q);
  }

  lemma {:induction false} ComponentsConcat(p: seq<byte>, q: seq<byte>)
    ensures Components(p + [SLASH] + q) == Components(p) + Components(q)
    decreases |p|
  {
    var s := p + [SLASH] + q;
    if p == [] {
      assert s[1..] == q;
    } else {
      assert s[1..] == p[1..] + [SLASH] + q;
      ComponentsConcat(p[1..], q);
    }
  }

  // Only the components of `path`, when it continues at a component boundary.
  lemma {:induction false} PrefixIsSubpath(path: seq<byte>, pre: seq<byte>)
    ensures Components(pre) <= Components(path) <==> path == pre || (pre + [SLASH] <= path)
  {
    if path != pre && pre + [SLASH] <= path {
      assert path == pre + [SLASH] + path[|pre| + 1..];
      ComponentsConcat(pre, path[|pre| + 1..]);
    }
    if Components(pre) <= Components(path) && Components(pre) != Components(path) {
      var rest := Components(path)[|Components(pre)|..];
      JoinComponents(path);
      JoinComponents(pre);
      assert Components(path) == Components(pre) + rest;
      JoinConcat(Components(pre), rest);
      assert path == pre + [SLASH] + Join(rest);
    } else if Components(pre) == Components(path) {
      ComponentsInjective(path, pre);
    }
  }

  lemma {:induction false} JoinConcat(a: seq<seq<byte>>, b: seq<seq<byte>>)
    requires a != [] && b != []
    ensures Join(a + b) == Join(a) + [SLASH] + Join(b)
    decreases |a|
  {
    if |a| == 1 {
      assert (a + b)[1..] == b;
    } else {
      assert (a + b)[1..] == a[1..] + b;
      JoinConcat(a[1..], b);
    }
  }
}
