// Verifying a snapshot and restoring it: everything is checked before the destination is
// touched, content is written, metadata comes last and in reverse.

module Restore {
  import opened BackendStore
  import opened Bytes
  import opened Index
  import opened Manifest
  import opened ManifestProofs
  import opened Meta
  import opened Paths
  import opened Repo

  // ---- Paths -----------------------------------------------------------------------------

  predicate GoodComponents(cs: seq<seq<byte>>) {
    cs == [] || (cs[0] != [] && cs[0] != [DOT, DOT] && GoodComponents(cs[1..]))
  }

  // No colon, no empty component, no ".." among the components of the whole byte string.
  predicate SafePath(p: seq<byte>) {
    p == [] || (COLON !in p && GoodComponents(Components(p)))
  }

  lemma FirstComponentGood(p: seq<byte>, start: nat, i: nat)
    requires start <= |p| && i == ComponentEnd(p, start)
    ensures GoodComponents(Components(p[start..])) <==>
            p[start..i] != [] && p[start..i] != [DOT, DOT] && (i == |p| || GoodComponents(Components(p[i + 1..])))
  {
    var rest := FirstComponent(p, start, i);
    GoodCons(Components(p[start..]), p[start..i], rest);
  }

  lemma GoodCons(cs: seq<seq<byte>>, c: seq<byte>, rest: seq<seq<byte>>)
    requires cs == [c] + rest
    ensures GoodComponents(cs) <==> c != [] && c != [DOT, DOT] && GoodComponents(rest)
  {
    assert cs[1..] == rest;
  }

  lemma NoSlashBefore(p: seq<byte>, start: nat, i: nat)
    requires start <= |p| && start <= i <= ComponentEnd(p, start)
    ensures (i == |p| || p[i] == SLASH) <==> i == ComponentEnd(p, start)
  {
  }

  // What is left to check once the components before `start` were found good.
  ghost predicate RestDecides(p: seq<byte>, start: nat) {
    GoodComponents(Components(p)) <==> start > |p| || GoodComponents(Components(p[start..]))
  }

  // entry_path_is_safe
  method EntryPathIsSafe(p: seq<byte>) returns (r: bool)
    ensures r <==> SafePath(p)
  {
    if |p| == 0 {
      return true;
    }
    var start, i := 0, 0;
    assert p[0..] == p;
    while i <= |p|
      invariant start <= i <= |p| + 1 && (i <= |p| ==> i <= ComponentEnd(p, start)) && (i > |p| ==> start > |p|)
      invariant COLON !in p[..if i <= |p| then i else |p|]
      invariant RestDecides(p, start)
    {
      NoSlashBefore(p, start, i);
      if i == |p| || p[i] == SLASH {
        var bad := BadComponent(p, start, i);
        if bad {
          return false;
        }
        start := i + 1;
      } else if p[i] == COLON {
        return false;
      }
      i := i + 1;
    }
    assert p[..|p|] == p;
    return true;
  }

  // The component that ends at i is empty or "..".
  method BadComponent(p: seq<byte>, start: nat, i: nat) returns (bad: bool)
    requires start <= |p| && i == ComponentEnd(p, start) && RestDecides(p, start)
    ensures bad ==> !GoodComponents(Components(p))
    ensures !bad ==> RestDecides(p, i + 1)
  {
    FirstComponentGood(p, start, i);
    bad := i - start == 0 || (i - start == 2 && p[start] == DOT && p[start + 1] == DOT);
    assert bad <==> p[start..i] == [] || p[start..i] == [DOT, DOT];
  }

  // path_in_subtree
  predicate InSubtree(path: seq<byte>, pre: seq<byte>) {
    pre == [] || (|path| >= |pre| && path[..|pre|] == pre && (|path| == |pre| || path[|pre|] == SLASH))
  }

  // A subtree is the paths whose components begin with the subtree's, not those whose name
  // merely begins with the same letters.
  lemma SubtreeIsByComponents(path: seq<byte>, pre: seq<byte>)
    requires pre != []
    ensures InSubtree(path, pre) <==> Components(pre) <= Components(path)
  {
    PrefixIsSubpath(path, pre);
    if |path| > |pre| {
      assert pre + [SLASH] <= path <==> path[..|pre|] == pre && path[|pre|] == SLASH;
    } else if |path| == |pre| {
      assert path[..|pre|] == path;
    }
  }

  // ---- Verify ------------------------------------------------------------------------------

  ghost predicate Fetches(cfg: Config, s: Store, r: Ref)
    requires GoodConfig(cfg)
  {
    |r.hash| == 32 && ObjectKey(r.hash) in s && FetchBody(cfg, s[ObjectKey(r.hash)], r).Ok?
  }

  // Structural: the object is there. Full: it also gives what the reference says.
  ghost predicate Sound(cfg: Config, s: Store, r: Ref, full: bool)
    requires GoodConfig(cfg)
  {
    if full then Fetches(cfg, s, r) else |r.hash| == 32 && ObjectKey(r.hash) in s
  }

  ghost predicate AllSound(cfg: Config, s: Store, rs: seq<Ref>, full: bool)
    requires GoodConfig(cfg)
  {
    forall i :: 0 <= i < |rs| ==> Sound(cfg, s, rs[i], full)
  }

  lemma AllSoundSnoc(cfg: Config, s: Store, rs: seq<Ref>, i: nat, full: bool)
    requires GoodConfig(cfg) && i < |rs|
    ensures AllSound(cfg, s, rs[..i + 1], full) <==> AllSound(cfg, s, rs[..i], full) && Sound(cfg, s, rs[i], full)
  {
    assert rs[..i + 1] == rs[..i] + [rs[i]];
  }

  datatype Findings = Findings(checked: nat, missing: nat, corrupt: nat)

  lemma RefsOf32(es: seq<Event>)
    requires HashesOf32(es)
    ensures forall r :: r in Refs(es) ==> |r.hash| == 32
    decreases |es|
  {
    if es != [] {
      RefsOf32(es[..|es| - 1]);
    }
  }

  // What is wrong with references, counted: the object is not there, or (only looked for
  // when full) it does not give what the reference says.
  ghost function FindingsOf(cfg: Config, s: Store, rs: seq<Ref>, full: bool): Findings
    requires GoodConfig(cfg) && forall r :: r in rs ==> |r.hash| == 32
  {
    if rs == [] then Findings(0, 0, 0)
    else
      var f, last := FindingsOf(cfg, s, rs[..|rs| - 1], full), rs[|rs| - 1];
      OneMoreFinding(cfg, s, last, full, f)
  }

  ghost function OneMoreFinding(cfg: Config, s: Store, r: Ref, full: bool, f: Findings): Findings
    requires GoodConfig(cfg) && |r.hash| == 32
  {
    if ObjectKey(r.hash) !in s then f.(checked := f.checked + 1, missing := f.missing + 1)
    else if full && !Fetches(cfg, s, r) then f.(checked := f.checked + 1, corrupt := f.corrupt + 1)
    else f.(checked := f.checked + 1)
  }

  // verify_on_entry over every reference: a problem is counted, never fatal.
  method CheckRefs(be: Backend, cfg: Config, rs: seq<Ref>, full: bool) returns (f: Findings)
    requires GoodConfig(cfg) && forall r :: r in rs ==> |r.hash| == 32
    modifies be`clock
    ensures f.checked == |rs|
    ensures f.missing == 0 && f.corrupt == 0 ==> AllSound(cfg, be.store, rs, full)
    ensures Reliable(be) ==> f == FindingsOf(cfg, be.store, rs, full)
  {
    f := Findings(0, 0, 0);
    for i := 0 to |rs|
      invariant f.checked == i
      invariant f.missing == 0 && f.corrupt == 0 ==> AllSound(cfg, be.store, rs[..i], full)
      invariant Reliable(be) ==> f == FindingsOf(cfg, be.store, rs[..i], full)
    {
      AllSoundSnoc(cfg, be.store, rs, i, full);
      assert rs[..i + 1][..i] == rs[..i];
      f := CheckRef(be, cfg, rs[i], full, f);
    }
    assert rs[..|rs|] == rs;
  }

  method CheckRef(be: Backend, cfg: Config, r: Ref, full: bool, f: Findings) returns (g: Findings)
    requires GoodConfig(cfg) && |r.hash| == 32
    modifies be`clock
    ensures g.checked == f.checked + 1 && g.missing >= f.missing && g.corrupt >= f.corrupt
    ensures g.missing + g.corrupt <= f.missing + f.corrupt + 1
    ensures g.missing + g.corrupt == f.missing + f.corrupt ==> Sound(cfg, be.store, r, full)
    ensures Reliable(be) ==> g == OneMoreFinding(cfg, be.store, r, full, f)
  {
    g := f.(checked := f.checked + 1);
    if !full {
      var there := be.Exists(ObjectKey(r.hash));
      if there.Err? || !there.value {
        g := g.(missing := g.missing + 1);
      }
    } else {
      var c := FetchObject(be, cfg, r);
      if c == Err(NotFound) {
        g := g.(missing := g.missing + 1);
      } else if c.Err? {
        g := g.(corrupt := g.corrupt + 1);
      }
    }
  }

  ghost predicate HashesKnown(rs: seq<Ref>) {
    forall r :: r in rs ==> |r.hash| == 32
  }

  lemma {:induction false} SoundFindsNothing(cfg: Config, s: Store, rs: seq<Ref>, full: bool)
    requires GoodConfig(cfg) && HashesKnown(rs)
    ensures var f := FindingsOf(cfg, s, rs, full);
      AllSound(cfg, s, rs, full) <==> f.missing == 0 && f.corrupt == 0
    decreases |rs|
  {
    if rs != [] {
      var n := |rs| - 1;
      AllSoundSnoc(cfg, s, rs, n, full);
      assert rs[..n + 1] == rs;
      SoundFindsNothing(cfg, s, rs[..n], full);
    }
  }

  // amisnap_verify_manifest
  method VerifyManifest(be: Backend, cfg: Config, id: string, file: seq<byte>, full: bool) returns (r: Result<Findings>)
    requires GoodConfig(cfg)
    modifies be`clock
    ensures r.Ok? <==> EventsOf(cfg, id, file).Some?
    ensures r.Ok? ==> var rs := Refs(EventsOf(cfg, id, file).value);
              && r.value.checked == |rs|
              && (r.value.missing == 0 && r.value.corrupt == 0 ==> AllSound(cfg, be.store, rs, full))
              && (Reliable(be) ==> HashesKnown(rs) && r.value == FindingsOf(cfg, be.store, rs, full))
  {
    var plain := OpenManifestFile(cfg, id, file);
    if plain.Err? {
      return Err(plain.error);
    }
    var d := DecodeManifestLoop(plain.value, cfg.hash);
    if d.error.Some? {
      return Err(d.error.value);
    }
    DecodedRefs(plain.value, 8, BEGIN, cfg.hash);
    RefsOf32(d.events);
    var f := CheckRefs(be, cfg, Refs(d.events), full);
    return Ok(f);
  }
}
