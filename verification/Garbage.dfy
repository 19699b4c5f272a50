// Which objects a prune leaves, said of their hashes: those a snapshot that stays refers to.

module Garbage {
  import opened BackendStore
  import opened Bytes
  import opened HexNames
  import opened Manifest
  import opened ManifestProofs
  import opened Meta
  import opened Prune
  import opened PruneProofs
  import opened Repo
  import opened Restore
  import opened Safety

  // A snapshot that is there, can be read, and has an entry with this reference.
  ghost predicate RefersTo(cfg: Config, s: Store, id: string, r: Ref)
    requires GoodConfig(cfg)
  {
    |id| == 16 && ManifestKey(id) in s && SnapshotEvents(cfg, s, id).Some?
    && exists e :: OnEntry(e) in SnapshotEvents(cfg, s, id).value && r in e.content
  }

  ghost predicate InUse(cfg: Config, s: Store, targets: seq<string>, h: seq<byte>)
    requires GoodConfig(cfg)
  {
    exists id: string, r: Ref :: RefersTo(cfg, s, id, r) && id !in targets && r.hash == h
  }

  lemma {:induction false} RefsAreOfEntries(es: seq<Event>, r: Ref)
    ensures r in Refs(es) <==> exists e :: OnEntry(e) in es && r in e.content
    decreases |es|
  {
    if es != [] {
      var init, last := es[..|es| - 1], es[|es| - 1];
      RefsAreOfEntries(init, r);
      assert forall x :: x in es <==> x in init || x == last;
    }
  }

  lemma Marks32(cfg: Config, s: Store, id: string, r: Ref)
    requires GoodConfig(cfg) && SnapshotEvents(cfg, s, id).Some? && r in Refs(SnapshotEvents(cfg, s, id).value)
    ensures |r.hash| == 32
  {
    var plain := OpenManifest(cfg, id, s[ManifestKey(id)]).value;
    DecodedRefs(plain, 8, BEGIN, cfg.hash);
    RefsOf32(SnapshotEvents(cfg, s, id).value);
  }

  lemma NameIsMarked(cfg: Config, s: Store, id: string, r: Ref)
    requires GoodConfig(cfg) && |id| == 16 && SnapshotEvents(cfg, s, id).Some? && r in Refs(SnapshotEvents(cfg, s, id).value)
    ensures Marked(cfg, s, HexOf(r.hash))
  {
    var rs := Refs(SnapshotEvents(cfg, s, id).value);
    var i :| 0 <= i < |rs| && rs[i] == r;
    assert NamesOf(rs)[i] == HexOf(r.hash);
    assert MarkedBy(cfg, s, id, HexOf(r.hash));
  }

  lemma MarkHasRef(cfg: Config, s: Store, id: string, n: string) returns (r: Ref)
    requires GoodConfig(cfg) && MarkedBy(cfg, s, id, n)
    ensures r in Refs(SnapshotEvents(cfg, s, id).value) && HexOf(r.hash) == n
  {
    var rs := Refs(SnapshotEvents(cfg, s, id).value);
    var i :| 0 <= i < |NamesOf(rs)| && NamesOf(rs)[i] == n;
    r := rs[i];
  }

  // Without the targets' manifests the other snapshots say what they said.
  lemma OthersSay(cfg: Config, s: Store, targets: seq<string>, id: string)
    requires GoodConfig(cfg)
    ensures var s1 := s - TargetKeys(targets);
      && (ManifestKey(id) in s1 <==> ManifestKey(id) in s && id !in targets)
      && (id !in targets ==> SnapshotEvents(cfg, s1, id) == SnapshotEvents(cfg, s, id))
  {
    TargetKeyOnly(targets, id);
  }

  lemma UsedIsMarked(cfg: Config, s: Store, targets: seq<string>, h: seq<byte>)
    requires GoodConfig(cfg) && InUse(cfg, s, targets, h)
    ensures Marked(cfg, s - TargetKeys(targets), HexOf(h))
  {
    var id: string, r: Ref :| RefersTo(cfg, s, id, r) && id !in targets && r.hash == h;
    OthersSay(cfg, s, targets, id);
    RefsAreOfEntries(SnapshotEvents(cfg, s, id).value, r);
    NameIsMarked(cfg, s - TargetKeys(targets), id, r);
  }

  lemma MarkedIsUsed(cfg: Config, s: Store, targets: seq<string>, h: seq<byte>)
    requires GoodConfig(cfg) && |h| == 32 && Marked(cfg, s - TargetKeys(targets), HexOf(h))
    ensures InUse(cfg, s, targets, h)
  {
    var s1 := s - TargetKeys(targets);
    var id: string :| MarkedBy(cfg, s1, id, HexOf(h));
    OthersSay(cfg, s, targets, id);
    var r := MarkHasRef(cfg, s1, id, HexOf(h));
    Marks32(cfg, s1, id, r);
    HexIsInjective(r.hash, h);
    RefsAreOfEntries(SnapshotEvents(cfg, s, id).value, r);
    assert RefersTo(cfg, s, id, r);
  }

  lemma MarkedIffUsed(cfg: Config, s: Store, targets: seq<string>, h: seq<byte>)
    requires GoodConfig(cfg) && |h| == 32
    ensures Marked(cfg, s - TargetKeys(targets), HexOf(h)) <==> InUse(cfg, s, targets, h)
  {
    if InUse(cfg, s, targets, h) {
      UsedIsMarked(cfg, s, targets, h);
    } else if Marked(cfg, s - TargetKeys(targets), HexOf(h)) {
      MarkedIsUsed(cfg, s, targets, h);
    }
  }

  // An object under a hash's name stays if its name is marked.
  lemma MarkedStays(cfg: Config, s: Store, targets: seq<string>, k: Key, b: string, n: string)
    requires GoodConfig(cfg) && k == Object(b, n) && |b| == 2
    ensures k in Pruned(cfg, s, targets) <==> k in s && Marked(cfg, s - TargetKeys(targets), n)
    ensures k in Pruned(cfg, s, targets) ==> Pruned(cfg, s, targets)[k] == s[k]
  {
    var s1 := s - TargetKeys(targets);
    assert k !in TargetKeys(targets);
    assert Stays(cfg, s1, k) <==> Marked(cfg, s1, n);
  }

  // Of all the objects a writer can make, a prune leaves exactly those in use, as they were.
  lemma GarbageGoes(cfg: Config, s: Store, targets: seq<string>, h: seq<byte>)
    requires GoodConfig(cfg) && |h| == 32
    ensures var t := Pruned(cfg, s, targets);
      && (ObjectKey(h) in t <==> ObjectKey(h) in s && InUse(cfg, s, targets, h))
      && (ObjectKey(h) in t ==> t[ObjectKey(h)] == s[ObjectKey(h)])
  {
    MarkedStays(cfg, s, targets, ObjectKey(h), HexOf(h)[..2], HexOf(h));
    MarkedIffUsed(cfg, s, targets, h);
  }
}
