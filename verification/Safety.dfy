// What a repository must never lose: every reference of every readable manifest names a
// present object that gives back the content it was made from.

module Safety {
  import opened BackendStore
  import opened Bytes
  import opened Manifest
  import opened Meta
  import opened Repo

  // The contents that occur in the runs considered; on these the hash does not collide.
  type Contents = iset<seq<byte>>

  ghost predicate NoCollision(cfg: Config, u: Contents) {
    forall a, b :: a in u && b in u && cfg.hash(a) == cfg.hash(b) ==> a == b
  }

  // An object filed under a content's name holds that content.
  ghost predicate GoodObjects(cfg: Config, s: Store, u: Contents)
    requires GoodConfig(cfg)
  {
    forall c :: c in u && ObjectKey(cfg.hash(c)) in s ==> Stores(cfg, s[ObjectKey(cfg.hash(c))], c)
  }

  // A reference made from one of the contents, whose object is there.
  ghost predicate GoodRef(cfg: Config, s: Store, u: Contents, r: Ref) {
    |r.hash| == 32 && ObjectKey(r.hash) in s && exists c :: c in u && r == RefOf(cfg, c)
  }

  ghost predicate GoodRefs(cfg: Config, s: Store, u: Contents, rs: seq<Ref>) {
    forall i :: 0 <= i < |rs| ==> GoodRef(cfg, s, u, rs[i])
  }

  // The events of a snapshot present in a store, when its manifest can be read.
  ghost function SnapshotEvents(cfg: Config, s: Store, id: string): Option<seq<Event>>
    requires GoodConfig(cfg)
  {
    if ManifestKey(id) in s then EventsOf(cfg, id, s[ManifestKey(id)]) else None
  }

  ghost predicate GoodSnapshot(cfg: Config, s: Store, u: Contents, id: string)
    requires GoodConfig(cfg)
  {
    var es := SnapshotEvents(cfg, s, id);
    es.Some? ==> GoodRefs(cfg, s, u, Refs(es.value))
  }

  ghost predicate GoodSnapshots(cfg: Config, s: Store, u: Contents)
    requires GoodConfig(cfg)
  {
    forall id: string :: |id| == 16 ==> GoodSnapshot(cfg, s, u, id)
  }

  // A snapshot is in the store; whether every one that is can be read.
  ghost predicate Present(s: Store, id: string) {
    |id| == 16 && ManifestKey(id) in s
  }

  ghost predicate AllReadable(cfg: Config, s: Store)
    requires GoodConfig(cfg)
  {
    forall id: string :: Present(s, id) ==> SnapshotEvents(cfg, s, id).Some?
  }

  ghost predicate Safe(cfg: Config, s: Store, u: Contents)
    requires GoodConfig(cfg)
  {
    GoodObjects(cfg, s, u) && GoodSnapshots(cfg, s, u)
  }

  // In a safe store every reference of every snapshot fetches to a content of exactly the
  // hash and size it states.
  lemma SafeMeansFetchable(cfg: Config, s: Store, u: Contents, id: string, r: Ref)
    requires GoodConfig(cfg) && Safe(cfg, s, u) && |id| == 16
    requires SnapshotEvents(cfg, s, id).Some? && r in Refs(SnapshotEvents(cfg, s, id).value)
    ensures |r.hash| == 32 && ObjectKey(r.hash) in s
    ensures var c := FetchBody(cfg, s[ObjectKey(r.hash)], r);
      c.Ok? && c.value in u && |c.value| == r.size && cfg.hash(c.value) == r.hash
  {
    assert GoodSnapshot(cfg, s, u, id);
    var rs := Refs(SnapshotEvents(cfg, s, id).value);
    var i :| 0 <= i < |rs| && rs[i] == r;
    assert GoodRef(cfg, s, u, rs[i]);
    var c :| c in u && r == RefOf(cfg, c);
    assert Stores(cfg, s[ObjectKey(cfg.hash(c))], c);
  }

  // ---- Steps that keep a store safe ---------------------------------------------------

  ghost predicate IsObject(cfg: Config, u: Contents, k: Key, v: seq<byte>)
    requires GoodConfig(cfg)
  {
    exists c :: c in u && k == ObjectKey(cfg.hash(c)) && Stores(cfg, v, c)
  }

  // Nothing is changed or taken away, and only objects holding what they are named after
  // are added.
  ghost predicate OnlyAdds(cfg: Config, u: Contents, s: Store, t: Store)
    requires GoodConfig(cfg)
  {
    && (forall k :: k in s ==> k in t && t[k] == s[k])
    && (forall k :: k in t && k !in s ==> IsObject(cfg, u, k, t[k]))
  }

  lemma OnlyAddsIsTransitive(cfg: Config, u: Contents, s: Store, t: Store, v: Store)
    requires GoodConfig(cfg) && OnlyAdds(cfg, u, s, t) && OnlyAdds(cfg, u, t, v)
    ensures OnlyAdds(cfg, u, s, v)
  {
    forall k | k in v && k !in s
      ensures IsObject(cfg, u, k, v[k])
    {
      if k in t {
        assert IsObject(cfg, u, k, t[k]);
      }
    }
  }

  lemma GoodObjectsKept(cfg: Config, u: Contents, s: Store, t: Store)
    requires GoodConfig(cfg) && NoCollision(cfg, u) && OnlyAdds(cfg, u, s, t) && GoodObjects(cfg, s, u)
    ensures GoodObjects(cfg, t, u)
  {
    forall c | c in u && ObjectKey(cfg.hash(c)) in t
      ensures Stores(cfg, t[ObjectKey(cfg.hash(c))], c)
    {
      var k := ObjectKey(cfg.hash(c));
      if k !in s {
        assert IsObject(cfg, u, k, t[k]);
        var c' :| c' in u && k == ObjectKey(cfg.hash(c')) && Stores(cfg, t[k], c');
        ObjectKeyIsInjective(cfg.hash(c), cfg.hash(c'));
      }
    }
  }

  lemma GoodRefsKept(cfg: Config, u: Contents, s: Store, t: Store, rs: seq<Ref>)
    requires GoodRefs(cfg, s, u, rs)
    requires forall i :: 0 <= i < |rs| && |rs[i].hash| == 32 && ObjectKey(rs[i].hash) in s ==> ObjectKey(rs[i].hash) in t
    ensures GoodRefs(cfg, t, u, rs)
  {
    forall i | 0 <= i < |rs|
      ensures GoodRef(cfg, t, u, rs[i])
    {
      assert GoodRef(cfg, s, u, rs[i]);
    }
  }

  lemma GoodRefsSnoc(cfg: Config, s: Store, u: Contents, rs: seq<Ref>, r: Ref)
    requires GoodRefs(cfg, s, u, rs) && GoodRef(cfg, s, u, r)
    ensures GoodRefs(cfg, s, u, rs + [r])
  {
  }

  lemma SafeKept(cfg: Config, u: Contents, s: Store, t: Store)
    requires GoodConfig(cfg) && NoCollision(cfg, u) && OnlyAdds(cfg, u, s, t) && Safe(cfg, s, u)
    ensures Safe(cfg, t, u)
    ensures forall id :: SnapshotEvents(cfg, t, id) == SnapshotEvents(cfg, s, id)
  {
    GoodObjectsKept(cfg, u, s, t);
    forall id: string
      ensures SnapshotEvents(cfg, t, id) == SnapshotEvents(cfg, s, id)
      ensures |id| == 16 ==> GoodSnapshot(cfg, t, u, id)
    {
      SameSnapshot(cfg, u, s, t, id);
      if |id| == 16 && SnapshotEvents(cfg, s, id).Some? {
        assert GoodSnapshot(cfg, s, u, id);
        GoodRefsKept(cfg, u, s, t, Refs(SnapshotEvents(cfg, s, id).value));
      }
    }
  }

  lemma SameSnapshot(cfg: Config, u: Contents, s: Store, t: Store, id: string)
    requires GoodConfig(cfg) && OnlyAdds(cfg, u, s, t)
    ensures ManifestKey(id) in t <==> ManifestKey(id) in s
    ensures SnapshotEvents(cfg, t, id) == SnapshotEvents(cfg, s, id)
  {
    if ManifestKey(id) in t {
      assert !IsObject(cfg, u, ManifestKey(id), t[ManifestKey(id)]);
    }
  }

  // A new manifest may be added when everything it refers to is there.
  lemma SafeWithManifest(cfg: Config, u: Contents, s: Store, id: string, file: seq<byte>)
    requires GoodConfig(cfg) && Safe(cfg, s, u)
    requires EventsOf(cfg, id, file).Some? ==> GoodRefs(cfg, s, u, Refs(EventsOf(cfg, id, file).value))
    ensures Safe(cfg, s[ManifestKey(id) := file], u)
  {
    var t := s[ManifestKey(id) := file];
    forall id': string | |id'| == 16
      ensures GoodSnapshot(cfg, t, u, id')
    {
      assert GoodSnapshot(cfg, s, u, id');
      if ManifestKey(id') == ManifestKey(id) {
        SuffixOnce(id, id');
      }
      var es := SnapshotEvents(cfg, t, id');
      if es.Some? {
        GoodRefsKept(cfg, u, s, t, Refs(es.value));
      }
    }
  }

  lemma SuffixOnce(a: string, b: string)
    requires ManifestKey(a) == ManifestKey(b)
    ensures a == b
  {
    assert (a + SUFFIX)[..|a|] == a && (b + SUFFIX)[..|b|] == b;
  }

  // ---- Every state on the way -------------------------------------------------------------

  // One operation that changes nothing, or puts one object under its name, which was free.
  ghost predicate OnePut(cfg: Config, u: Contents, s: Store, t: Store)
    requires GoodConfig(cfg)
  {
    t == s || exists c, raw :: c in u && Stores(cfg, raw, c) && ObjectKey(cfg.hash(c)) !in s
                               && t == s[ObjectKey(cfg.hash(c)) := raw]
  }

  // From s to t by such operations, each of which left the next of these stores behind.
  ghost predicate Puts(cfg: Config, u: Contents, s: Store, stores: seq<Store>, t: Store)
    requires GoodConfig(cfg)
    decreases |stores|
  {
    if stores == [] then t == s
    else
      var init := stores[..|stores| - 1];
      t == stores[|stores| - 1] && exists m :: Puts(cfg, u, s, init, m) && OnePut(cfg, u, m, t)
  }

  lemma {:induction false} PutsInTwo(cfg: Config, u: Contents, s: Store, a: seq<Store>, m: Store, b: seq<Store>,
                                     t: Store)
    requires GoodConfig(cfg) && Puts(cfg, u, s, a, m) && Puts(cfg, u, m, b, t)
    ensures Puts(cfg, u, s, a + b, t)
    decreases |b|
  {
    if b == [] {
      assert a + b == a;
    } else {
      var init := b[..|b| - 1];
      var m' :| Puts(cfg, u, m, init, m') && OnePut(cfg, u, m', t);
      PutsInTwo(cfg, u, s, a, m, init, m');
      assert (a + b)[..|a + b| - 1] == a + init;
    }
  }

  // From store s0 to s1, through the stores recorded in p1 after p0.
  ghost predicate Grown(cfg: Config, u: Contents, s0: Store, p0: seq<Store>, s1: Store, p1: seq<Store>)
    requires GoodConfig(cfg)
  {
    && p0 <= p1 && OnlyAdds(cfg, u, s0, s1) && Puts(cfg, u, s0, p1[|p0|..], s1)
    && forall i :: |p0| <= i < |p1| ==> OnlyAdds(cfg, u, s0, p1[i])
  }

  lemma GrownIsReflexive(cfg: Config, u: Contents, s: Store, p: seq<Store>)
    requires GoodConfig(cfg)
    ensures Grown(cfg, u, s, p, s, p)
  {
  }

  lemma GrownIsTransitive(cfg: Config, u: Contents, s0: Store, p0: seq<Store>, s1: Store, p1: seq<Store>,
                          s2: Store, p2: seq<Store>)
    requires GoodConfig(cfg) && Grown(cfg, u, s0, p0, s1, p1) && Grown(cfg, u, s1, p1, s2, p2)
    ensures Grown(cfg, u, s0, p0, s2, p2)
  {
    OnlyAddsIsTransitive(cfg, u, s0, s1, s2);
    PutsInTwo(cfg, u, s0, p1[|p0|..], s1, p2[|p1|..], s2);
    TailInTwo(p0, p1, p2);
    AllOnlyAdd(cfg, u, s0, p0, s1, p1, p2);
  }

  lemma TailInTwo<T>(p0: seq<T>, p1: seq<T>, p2: seq<T>)
    requires p0 <= p1 <= p2
    ensures p1[|p0|..] + p2[|p1|..] == p2[|p0|..]
  {
  }

  lemma AllOnlyAdd(cfg: Config, u: Contents, s0: Store, p0: seq<Store>, s1: Store, p1: seq<Store>, p2: seq<Store>)
    requires GoodConfig(cfg) && p0 <= p1 <= p2 && OnlyAdds(cfg, u, s0, s1)
    requires forall i :: |p0| <= i < |p1| ==> OnlyAdds(cfg, u, s0, p1[i])
    requires forall i :: |p1| <= i < |p2| ==> OnlyAdds(cfg, u, s1, p2[i])
    ensures forall i :: |p0| <= i < |p2| ==> OnlyAdds(cfg, u, s0, p2[i])
  {
    forall i | |p0| <= i < |p2|
      ensures OnlyAdds(cfg, u, s0, p2[i])
    {
      if i < |p1| {
        assert p2[i] == p1[i];
      } else {
        OnlyAddsIsTransitive(cfg, u, s0, s1, p2[i]);
      }
    }
  }

  // Safe at every point from p0 on.
  ghost predicate AllSafe(cfg: Config, u: Contents, past: seq<Store>, from: nat)
    requires GoodConfig(cfg)
  {
    forall i :: from <= i < |past| ==> Safe(cfg, past[i], u)
  }

  lemma GrownIsSafe(cfg: Config, u: Contents, s0: Store, p0: seq<Store>, s1: Store, p1: seq<Store>)
    requires GoodConfig(cfg) && NoCollision(cfg, u) && Grown(cfg, u, s0, p0, s1, p1) && Safe(cfg, s0, u)
    ensures Safe(cfg, s1, u) && AllSafe(cfg, u, p1, |p0|)
  {
    SafeKept(cfg, u, s0, s1);
    forall i | |p0| <= i < |p1|
      ensures Safe(cfg, p1[i], u)
    {
      SafeKept(cfg, u, s0, p1[i]);
    }
  }

  // ---- Content cut into references ----------------------------------------------------------

  // `data` is the concatenation of the contents the references name, in order.
  ghost predicate Splits(cfg: Config, u: Contents, rs: seq<Ref>, data: seq<byte>) {
    if rs == [] then data == []
    else
      var last := rs[|rs| - 1];
      && last.size <= |data|
      && data[|data| - last.size..] in u && last == RefOf(cfg, data[|data| - last.size..])
      && Splits(cfg, u, rs[..|rs| - 1], data[..|data| - last.size])
  }

  lemma SplitsSnoc(cfg: Config, u: Contents, rs: seq<Ref>, data: seq<byte>, c: seq<byte>, r: Ref, all: seq<byte>)
    requires Splits(cfg, u, rs, data) && c in u && r == RefOf(cfg, c) && all == data + c
    ensures Splits(cfg, u, rs + [r], all)
  {
    assert (rs + [r])[..|rs|] == rs;
    assert all[|all| - |c|..] == c && all[..|all| - |c|] == data;
  }

  // References determine the content.
  lemma {:induction false} SplitsOnce(cfg: Config, u: Contents, rs: seq<Ref>, a: seq<byte>, b: seq<byte>)
    requires NoCollision(cfg, u) && Splits(cfg, u, rs, a) && Splits(cfg, u, rs, b)
    ensures a == b
    decreases |rs|
  {
    if rs != [] {
      var n := rs[|rs| - 1].size;
      SplitsOnce(cfg, u, rs[..|rs| - 1], a[..|a| - n], b[..|b| - n]);
      SameParts(a, b, n);
    }
  }

  lemma SameParts(a: seq<byte>, b: seq<byte>, n: nat)
    requires n <= |a| && n <= |b| && a[..|a| - n] == b[..|b| - n] && a[|a| - n..] == b[|b| - n..]
    ensures a == b
  {
    assert a == a[..|a| - n] + a[|a| - n..] && b == b[..|b| - n] + b[|b| - n..];
  }
}
