// Writing a snapshot: content objects first, each at most once, the manifest last.

module RepoWriters {
  import opened BackendStore
  import opened Bytes
  import opened Frame
  import opened Letters
  import opened Manifest
  import opened Meta
  import opened Records
  import opened Repo
  import opened RepoCrypto
  import opened Safety
  import opened SnapIds
  import opened Tlv

  // The repository's encoding, the algorithm this run prefers, and the checksum for E_XHASH.
  datatype Tools = Tools(cfg: Config, alg: byte, lz4: Lz4Build, deflate: Deflate, xxh: seq<byte> -> nat)

  ghost predicate GoodTools(t: Tools) {
    GoodConfig(t.cfg) && GoodBuild(t.lz4) && GoodZlib(t.deflate, t.cfg.inflate) && forall b :: t.xxh(b) < U32
  }

  // ---- One object ------------------------------------------------------------------------

  // Nonce, ciphertext and code around the body, or the body itself.
  method SealObject(cfg: Config, body: seq<byte>) returns (raw: seq<byte>)
    requires GoodConfig(cfg)
    ensures raw == SealBody(cfg, body)
  {
    if cfg.keys.None? {
      return body;
    }
    var frame := new byte[NONCE_SIZE + |body| + MAC_SIZE](_ => 0);
    var nonce := ObjectNonce(cfg.cipher, cfg.keys.value, cfg.hash(body));
    EncryptFrame(cfg.cipher, cfg.keys.value, nonce, body, frame);
    assert frame[..NONCE_SIZE + |body| + MAC_SIZE] == frame[..];
    return frame[..];
  }

  lemma ObjectAdded(cfg: Config, u: Contents, s: Store, t: Store, p: seq<Store>, raw: seq<byte>, c: seq<byte>)
    requires GoodConfig(cfg) && c in u && Stores(cfg, raw, c) && ObjectKey(cfg.hash(c)) !in s
    requires t == s || t == s[ObjectKey(cfg.hash(c)) := raw]
    ensures Grown(cfg, u, s, p, t, p + [t])
  {
    assert Puts(cfg, u, s, [], s) && OnePut(cfg, u, s, t);
    assert (p + [t])[|p|..] == [t] && [t][..0] == [];
  }

  // The preferred algorithm takes contents of this length.
  predicate Encodes(t: Tools, len: nat) {
    t.cfg.framed ==> CanEncode(t.alg, len)
  }

  // write_object: an object already there is left as it is.
  method WriteObject(be: Backend, t: Tools, data: seq<byte>, ghost u: Contents) returns (r: Result<Ref>)
    requires GoodTools(t) && data in u && |data| < U64
    modifies be
    ensures Grown(t.cfg, u, old(be.store), old(be.past), be.store, be.past)
    ensures r.Ok? ==> r.value == RefOf(t.cfg, data) && GoodRef(t.cfg, be.store, u, r.value)
    ensures r.Ok? && ObjectKey(t.cfg.hash(data)) in old(be.store) ==> be.store == old(be.store)
    ensures be.store.Keys <= old(be.store.Keys) + {ObjectKey(t.cfg.hash(data))}
    ensures Reliable(be) && Encodes(t, |data|) ==> r.Ok?
  {
    var hash := t.cfg.hash(data);
    var key := ObjectKey(hash);
    var there := be.Exists(key);
    if there.Err? {
      return Err(there.error);
    }
    if !there.value {
      var body := data;
      if t.cfg.framed {
        var framed, _ := FrameEncode(t.alg, data, t.lz4, t.deflate, t.cfg.inflate);
        if framed.Err? {
          return Err(framed.error);
        }
        body := framed.value;
      }
      var raw := SealObject(t.cfg, body);
      StoredThenFetched(t.cfg, body, data);
      ghost var before, past := be.store, be.past;
      var error := be.Put(key, raw);
      ObjectAdded(t.cfg, u, before, be.store, past, raw, data);
      if error.Some? {
        return Err(error.value);
      }
    }
    return Ok(Ref(hash, |data|));
  }

  // ---- Files read in chunks ---------------------------------------------------------------

  // The read callback of the chunked writer over an open file: it may fail, and it reads
  // short only at the end.
  class ChunkSource {
    const data: seq<byte>
    const fails: nat -> bool
    var pos: nat

    ghost predicate Valid()
      reads this
    {
      pos <= |data|
    }

    ghost predicate Steady() {
      forall n :: !fails(n)
    }

    constructor (d: seq<byte>, f: nat -> bool)
      ensures Valid() && pos == 0 && data == d && fails == f
    {
      data, fails, pos := d, f, 0;
    }

    method Read(want: nat) returns (r: Result<seq<byte>>)
      requires Valid()
      modifies this
      ensures Valid() && old(pos) <= pos
      ensures r.Err? ==> fails(old(pos))
      ensures r.Ok? ==> r.value == data[old(pos)..pos] && pos == if old(pos) + want <= |data| then old(pos) + want else |data|
    {
      if fails(pos) {
        return Err(Io);
      }
      var end := if pos + want <= |data| then pos + want else |data|;
      r := Ok(data[pos..end]);
      pos := end;
    }
  }

  ghost predicate SlicesIn(u: Contents, data: seq<byte>) {
    forall i, j :: 0 <= i <= j <= |data| ==> data[i..j] in u
  }

  // ---- The writer ----------------------------------------------------------------------------

  // The entry a file becomes.
  function FileEntry(entry: Entry, t: Tools, data: seq<byte>, rs: seq<Ref>): Entry {
    entry.(size := Some(|data|), xhash := Some(t.xxh(data)), content := rs)
  }

  // The references of a file cut into chunks, from `pos` on.
  function RefsFrom(cfg: Config, chunk: nat, data: seq<byte>, pos: nat): (rs: seq<Ref>)
    requires chunk > 0 && pos <= |data|
    decreases |data| - pos
  {
    if pos == |data| then []
    else
      var end := if pos + chunk <= |data| then pos + chunk else |data|;
      [RefOf(cfg, data[pos..end])] + RefsFrom(cfg, chunk, data, end)
  }

  function ChunkRefs(cfg: Config, chunk: nat, data: seq<byte>): seq<Ref>
    requires chunk > 0
  {
    RefsFrom(cfg, chunk, data, 0)
  }

  lemma {:induction false} RefsFromSplit(cfg: Config, u: Contents, chunk: nat, data: seq<byte>, pos: nat, rs: seq<Ref>)
    requires chunk > 0 && pos <= |data| && SlicesIn(u, data) && Splits(cfg, u, rs, data[..pos])
    ensures Splits(cfg, u, rs + RefsFrom(cfg, chunk, data, pos), data)
    decreases |data| - pos
  {
    if pos == |data| {
      assert data[..pos] == data && rs + RefsFrom(cfg, chunk, data, pos) == rs;
    } else {
      var end := if pos + chunk <= |data| then pos + chunk else |data|;
      var r := RefOf(cfg, data[pos..end]);
      SliceJoin(data, pos, end);
      SplitsSnoc(cfg, u, rs, data[..pos], data[pos..end], r, data[..end]);
      assert rs + RefsFrom(cfg, chunk, data, pos) == rs + [r] + RefsFrom(cfg, chunk, data, end);
      RefsFromSplit(cfg, u, chunk, data, end, rs + [r]);
    }
  }

  // The chunks put together are the file.
  lemma ChunksSplit(cfg: Config, u: Contents, chunk: nat, data: seq<byte>)
    requires chunk > 0 && SlicesIn(u, data)
    ensures Splits(cfg, u, ChunkRefs(cfg, chunk, data), data)
  {
    assert data[..0] == [] && [] + ChunkRefs(cfg, chunk, data) == ChunkRefs(cfg, chunk, data);
    RefsFromSplit(cfg, u, chunk, data, 0, []);
  }

  // A file that is not longer than a chunk is one object.
  lemma OneChunk(cfg: Config, chunk: nat, data: seq<byte>)
    requires 0 < |data| <= chunk
    ensures ChunkRefs(cfg, chunk, data) == [RefOf(cfg, data)]
  {
    assert data[0..|data|] == data;
    assert RefsFrom(cfg, chunk, data, |data|) == [];
  }

  // What can be read of a file said to be `total` bytes long.
  function Head(data: seq<byte>, total: nat): seq<byte> {
    data[..if total <= |data| then total else |data|]
  }

  // One turn of the chunked writer reads exactly the next chunk.
  lemma NextPiece(cfg: Config, chunk: nat, data: seq<byte>, total: nat, at: nat, pos: nat, got: seq<byte>, rs: seq<Ref>)
    requires chunk > 0 && at < total && at < pos <= |data| && got == data[at..pos]
    requires var want := if total - at < chunk then total - at else chunk;
             pos == if at + want <= |data| then at + want else |data|
    requires var file := Head(data, total);
             rs + RefsFrom(cfg, chunk, file, at) == ChunkRefs(cfg, chunk, file)
    ensures var file := Head(data, total);
            pos <= |file| && rs + [RefOf(cfg, got)] + RefsFrom(cfg, chunk, file, pos) == ChunkRefs(cfg, chunk, file)
  {
    var file := Head(data, total);
    assert file[at..pos] == got;
  }

  lemma RefsSnoc(es: seq<Event>, e: Event)
    ensures Refs(es + [e]) == Refs(es) + if e.OnEntry? then e.entry.content else []
  {
    assert (es + [e])[..|es|] == es;
  }

  class RepoWriter {
    const be: Backend
    const mw: ManifestWriter
    const t: Tools
    ghost const u: Contents
    var snapTime: Stamp
    var haveSnap: bool

    ghost predicate Ready() {
      GoodTools(t) && NoCollision(t.cfg, u)
    }

    // Every reference accepted so far is already backed by an object.
    ghost predicate Valid()
      reads this, be, mw
    {
      mw.Valid() && haveSnap == mw.haveSnap && GoodRefs(t.cfg, be.store, u, Refs(mw.events))
    }

    constructor (be: Backend, t: Tools, ghost u: Contents)
      requires GoodTools(t) && NoCollision(t.cfg, u)
      ensures Valid() && fresh(mw) && mw.events == [] && mw.error.None? && !haveSnap
      ensures this.be == be && this.t == t && this.u == u
    {
      this.be, this.t, this.u := be, t, u;
      mw := new ManifestWriter();
      snapTime, haveSnap := Stamp(0, 0, 0), false;
    }

    method Snap(s: Snap) returns (r: Option<Error>)
      requires Ready() && Valid()
      modifies this, mw
      ensures Valid() && (r.None? <==> old(mw.error).None? && !old(haveSnap) && !TooLongSnap(s))
      ensures mw.events == if r.None? then old(mw.events) + [OnSnap(s)] else old(mw.events)
      ensures r.None? ==> snapTime == s.created && haveSnap
      ensures mw.error == r
    {
      r := mw.AddSnap(s);
      if r.None? {
        RefsSnoc(old(mw.events), OnSnap(s));
        snapTime, haveSnap := s.created, true;
      }
    }

    method AddVolume(v: Records.Volume) returns (r: Option<Error>)
      requires Ready() && Valid()
      modifies mw
      ensures Valid() && (r.None? <==> old(mw.error).None? && haveSnap && !TooLongVolume(v))
      ensures mw.events == if r.None? then old(mw.events) + [OnVolume(v)] else old(mw.events)
      ensures mw.error == r
    {
      r := mw.AddVolume(v);
      if r.None? {
        RefsSnoc(old(mw.events), OnVolume(v));
      }
    }

    // amisnap_repo_writer_entry: directories, and files whose references are known already.
    method AddEntry(n: Entry) returns (r: Option<Error>)
      requires Ready() && Valid() && GoodRefs(t.cfg, be.store, u, n.content)
      modifies mw
      ensures Valid() && (r.None? <==> old(mw.error).None? && haveSnap && !TooLongEntry(n))
      ensures mw.events == if r.None? then old(mw.events) + [OnEntry(n)] else old(mw.events)
      ensures mw.error == r
    {
      r := mw.AddEntry(n);
      if r.None? {
        RefsSnoc(old(mw.events), OnEntry(n));
      }
    }

    lemma StillValid(s: Store, p: seq<Store>)
      requires GoodTools(t) && GoodRefs(t.cfg, s, u, Refs(mw.events))
      requires Grown(t.cfg, u, s, p, be.store, be.past)
      ensures GoodRefs(t.cfg, be.store, u, Refs(mw.events))
    {
      GoodRefsKept(t.cfg, u, s, be.store, Refs(mw.events));
    }

    // A file whose entry, and whose objects of up to `len` bytes, can be written.
    ghost predicate Accepts(entry: Entry, len: nat)
      reads this
    {
      haveSnap && entry.etype == FILE && !TooLongEntry(entry) && Encodes(t, len)
    }

    // amisnap_repo_writer_file: a whole file as one object.
    method File(entry: Entry, data: seq<byte>) returns (r: Option<Error>)
      requires Ready() && Valid() && (data != [] ==> data in u) && |data| < U64
      modifies be, mw
      ensures Valid() && Grown(t.cfg, u, old(be.store), old(be.past), be.store, be.past)
      ensures mw.events == if r.Some? then old(mw.events) else
                old(mw.events) + [OnEntry(FileEntry(entry, t, data, if data == [] then [] else [RefOf(t.cfg, data)]))]
      ensures entry.etype != FILE ==> r == Some(Malformed)
      ensures r.None? ==> old(mw.error).None? && mw.error.None? && !TooLongEntry(entry)
      ensures Accepts(entry, |data|) && Reliable(be) && old(mw.error).None? ==> r.None?
      ensures old(mw.error).None? && haveSnap && !TooLongEntry(entry) ==> mw.error.None?
    {
      if entry.etype != FILE {
        return Some(Malformed);
      }
      ghost var s, p := be.store, be.past;
      var rs: seq<Ref> := [];
      if |data| > 0 {
        var ref := WriteObject(be, t, data, u);
        StillValid(s, p);
        if ref.Err? {
          return Some(ref.error);
        }
        rs := [ref.value];
      }
      r := AddEntry(FileEntry(entry, t, data, rs));
    }

    // The loop of the chunked writer: one object per chunk, until nothing remains or the
    // file ends early.
    method WriteChunks(total: nat, chunk: nat, src: ChunkSource) returns (r: Result<seq<Ref>>)
      requires Ready() && Valid() && src.Valid() && src.pos == 0 && chunk > 0
      requires SlicesIn(u, src.data) && total < U64 && chunk < U64
      modifies be, src
      ensures Valid() && Grown(t.cfg, u, old(be.store), old(be.past), be.store, be.past)
      ensures mw.events == old(mw.events) && mw.error == old(mw.error)
      ensures r.Ok? ==> GoodRefs(t.cfg, be.store, u, r.value)
      ensures r.Ok? ==> r.value == ChunkRefs(t.cfg, chunk, Head(src.data, total))
      ensures r.Ok? ==> src.pos == |Head(src.data, total)|
      ensures Reliable(be) && Encodes(t, chunk) && src.Steady() ==> r.Ok?
    {
      ghost var s, p := be.store, be.past;
      ghost var file := Head(src.data, total);
      var rs: seq<Ref> := [];
      while src.pos < total
        invariant src.pos <= |file| && Valid() && GoodRefs(t.cfg, be.store, u, rs)
        invariant rs + RefsFrom(t.cfg, chunk, file, src.pos) == ChunkRefs(t.cfg, chunk, file)
        invariant Grown(t.cfg, u, s, p, be.store, be.past)
        invariant mw.events == old(mw.events) && mw.error == old(mw.error)
        decreases total - src.pos
      {
        var want := if total - src.pos < chunk then total - src.pos else chunk;
        ghost var at, s1, p1 := src.pos, be.store, be.past;
        var got := src.Read(want);
        if got.Err? {
          return Err(got.error);
        }
        if |got.value| == 0 {
          break;
        }
        NextPiece(t.cfg, chunk, src.data, total, at, src.pos, got.value, rs);
        r := WriteChunk(got.value, rs);
        GrownIsTransitive(t.cfg, u, s, p, s1, p1, be.store, be.past);
        if r.Err? {
          return;
        }
        rs := r.value;
        if |got.value| < want {
          break;
        }
      }
      assert rs + [] == rs;
      return Ok(rs);
    }

    method WriteChunk(c: seq<byte>, rs: seq<Ref>) returns (r: Result<seq<Ref>>)
      requires Ready() && Valid() && c in u && |c| < U64 && GoodRefs(t.cfg, be.store, u, rs)
      modifies be
      ensures Valid() && Grown(t.cfg, u, old(be.store), old(be.past), be.store, be.past)
      ensures r.Ok? ==> r.value == rs + [RefOf(t.cfg, c)] && GoodRefs(t.cfg, be.store, u, r.value)
      ensures Reliable(be) && Encodes(t, |c|) ==> r.Ok?
    {
      ghost var s, p := be.store, be.past;
      var ref := WriteObject(be, t, c, u);
      StillValid(s, p);
      GoodRefsKept(t.cfg, u, s, be.store, rs);
      if ref.Err? {
        return Err(ref.error);
      }
      GoodRefsSnoc(t.cfg, be.store, u, rs, ref.value);
      return Ok(rs + [ref.value]);
    }

    // amisnap_repo_writer_file_chunked. `total` is what the directory said; the size that
    // is recorded is what was read.
    method FileChunked(entry: Entry, total: nat, chunk: nat, src: ChunkSource) returns (r: Option<Error>)
      requires Ready() && Valid() && src.Valid() && src.pos == 0
      requires SlicesIn(u, src.data) && total < U64 && chunk < U64
      modifies be, mw, src
      ensures Valid() && Grown(t.cfg, u, old(be.store), old(be.past), be.store, be.past)
      ensures r.None? ==> chunk > 0
      ensures mw.events == if r.Some? then old(mw.events) else
                var file := Head(src.data, total);
                old(mw.events) + [OnEntry(FileEntry(entry, t, file, ChunkRefs(t.cfg, chunk, file)))]
      ensures entry.etype != FILE || chunk == 0 ==> r == Some(Malformed)
      ensures r.None? ==> old(mw.error).None? && mw.error.None? && !TooLongEntry(entry)
      ensures Accepts(entry, chunk) && Reliable(be) && chunk > 0 && old(mw.error).None? && src.Steady() ==> r.None?
      ensures old(mw.error).None? && haveSnap && !TooLongEntry(entry) ==> mw.error.None?
    {
      if entry.etype != FILE || chunk == 0 {
        return Some(Malformed);
      }
      var rs := WriteChunks(total, chunk, src);
      if rs.Err? {
        return Some(rs.error);
      }
      r := AddEntry(FileEntry(entry, t, src.data[..src.pos], rs.value));
    }

    // amisnap_repo_writer_finish: the manifest goes under the first free id, and nothing
    // that exists is overwritten.
    method Finish() returns (r: Result<string>)
      requires Ready() && Valid()
      modifies be
      ensures r.Ok? ==> |r.value| == 16 && Committed(t.cfg, old(be.store), r.value, mw.events, be.store)
      ensures CommittedTo(t.cfg, u, old(be.store), old(be.past), mw.events, be.store, be.past)
      ensures r.Ok? ==> IsIdFor(old(be.store), snapTime, r.value)
      ensures Reliable(be) && haveSnap && mw.error.None? && r.Err? ==> NoFreeId(be.store, snapTime)
    {
      if !haveSnap {
        return Err(MissingField);
      }
      var m := mw.Finish(t.cfg.hash);
      if m.Err? {
        return Err(m.error);
      }
      r := CommitFree(m.value);
    }

    // Under the first free id.
    method CommitFree(plain: seq<byte>) returns (r: Result<string>)
      requires Ready() && Valid() && Ordered(mw.events) && plain == ManifestBytes(mw.events, t.cfg.hash)
      modifies be
      ensures r.Ok? ==> |r.value| == 16 && Committed(t.cfg, old(be.store), r.value, mw.events, be.store)
      ensures CommittedTo(t.cfg, u, old(be.store), old(be.past), mw.events, be.store, be.past)
      ensures r.Ok? ==> IsIdFor(old(be.store), snapTime, r.value)
      ensures Reliable(be) && r.Err? ==> NoFreeId(be.store, snapTime)
    {
      r := PickId(be, snapTime.days, (snapTime.mins % U32, snapTime.ticks % U32));
      if r.Err? {
        return;
      }
      var error := CommitAs(r.value, plain);
      if error.Some? {
        return Err(error.value);
      }
    }

    // The manifest is put under an id that is free.
    method CommitAs(id: string, plain: seq<byte>) returns (error: Option<Error>)
      requires Ready() && Valid() && |id| == 16 && ManifestKey(id) !in be.store
      requires Ordered(mw.events) && plain == ManifestBytes(mw.events, t.cfg.hash)
      modifies be
      ensures error.None? ==> Committed(t.cfg, old(be.store), id, mw.events, be.store)
      ensures CommittedTo(t.cfg, u, old(be.store), old(be.past), mw.events, be.store, be.past)
      ensures Reliable(be) ==> error.None?
    {
      StartsWithHeader(mw.events, t.cfg.hash);
      var file := SealManifest(t.cfg, id, plain);
      error := be.Put(ManifestKey(id), file);
      if be.store != old(be.store) {
        assert Committed(t.cfg, old(be.store), id, mw.events, be.store);
      }
    }
  }

  // At most one manifest of these events was added; everything it refers to was there.
  ghost predicate CommittedTo(cfg: Config, u: Contents, mid: Store, q: seq<Store>, es: seq<Event>,
                              s': Store, p': seq<Store>)
    requires GoodConfig(cfg)
  {
    && ((p' == q && s' == mid) || p' == q + [s'])
    && (s' == mid || (Ordered(es) && GoodRefs(cfg, mid, u, Refs(es))
                      && exists id: string :: Committed(cfg, mid, id, es, s')))
  }

  // One manifest more, under an id that was free.
  ghost predicate Committed(cfg: Config, s: Store, id: string, es: seq<Event>, t: Store)
    requires GoodConfig(cfg)
  {
    StartsWithHeader(es, cfg.hash);
    && |id| == 16 && ManifestKey(id) !in s
    && t == s[ManifestKey(id) := ManifestFile(cfg, id, ManifestBytes(es, cfg.hash))]
  }

  // A commit keeps a store safe, and the new snapshot reads back as it was written.
  lemma CommitIsSafe(cfg: Config, u: Contents, s: Store, id: string, es: seq<Event>, t: Store)
    requires GoodConfig(cfg) && Safe(cfg, s, u) && Committed(cfg, s, id, es, t)
    requires Ordered(es) && ValidEvents(es) && GoodRefs(cfg, s, u, Refs(es))
    ensures Safe(cfg, t, u) && SnapshotEvents(cfg, t, id) == Some(es)
  {
    CommittedIsRead(cfg, id, es);
    SafeWithManifest(cfg, u, s, id, ManifestFile(cfg, id, ManifestBytes(es, cfg.hash)));
  }

  method SealManifest(cfg: Config, id: string, plain: seq<byte>) returns (file: seq<byte>)
    requires GoodConfig(cfg) && |plain| >= 8
    ensures file == ManifestFile(cfg, id, plain)
  {
    if cfg.keys.None? {
      return plain;
    }
    var nonce := cfg.cipher.keyed(cfg.keys.value.nonce, Ascii(id))[..NONCE_SIZE];
    var frame := new byte[NONCE_SIZE + |plain[8..]| + MAC_SIZE](_ => 0);
    EncryptFrame(cfg.cipher, cfg.keys.value, nonce, plain[8..], frame);
    assert frame[..NONCE_SIZE + |plain[8..]| + MAC_SIZE] == frame[..];
    return Manifest.Header(FTYPE_MANIFEST, 1) + frame[..];
  }

  // The first k ids to try all exist.
  ghost predicate AllTaken(s: Store, days: nat, mt: (nat, nat), k: nat) {
    forall j: nat :: j < k ==> ManifestKey(Candidate(days, mt, j)) in s
  }

  ghost predicate IsFirstFree(s: Store, days: nat, mt: (nat, nat), id: string) {
    exists k: nat :: k < ATTEMPTS && id == Candidate(days, mt, k) && AllTaken(s, days, mt, k)
  }

  ghost predicate IsIdFor(s: Store, at: Stamp, id: string) {
    IsFirstFree(s, at.days, (at.mins % U32, at.ticks % U32), id)
  }

  ghost predicate NoFreeId(s: Store, at: Stamp) {
    AllTaken(s, at.days, (at.mins % U32, at.ticks % U32), 0x1_0000)
  }

  // The collision loop: ids in order, each later than the last, until one is free.
  method PickId(be: Backend, days: nat, mt: (nat, nat)) returns (r: Result<string>)
    requires mt.0 < U32 && mt.1 < U32
    modifies be`clock
    ensures r.Ok? ==> IsFirstFree(be.store, days, mt, r.value)
    ensures r.Ok? ==> ManifestKey(r.value) !in be.store
    ensures r == Err(Malformed) ==> AllTaken(be.store, days, mt, ATTEMPTS)
    ensures r.Err? ==> r.error in {Io, Malformed}
    ensures r == Err(Io) ==> !Reliable(be)
  {
    var now := mt;
    for attempts := 0 to ATTEMPTS
      invariant now == TickAt(mt, attempts)
      invariant AllTaken(be.store, days, mt, attempts)
    {
      var id := SnapId(days, now.0, now.1);
      assert id == Candidate(days, mt, attempts);
      var there := be.Exists(ManifestKey(id));
      if there.Err? {
        return Err(there.error);
      }
      if !there.value {
        return Ok(id);
      }
      now := NextTick(now);
    }
    return Err(Malformed);
  }
}
