// How content and manifests are kept in a repository, and how they are got back.

module Repo {
  import opened BackendStore
  import opened Bytes
  import opened Frame
  import opened HexNames
  import opened Letters
  import opened Manifest
  import opened ManifestProofs
  import opened Meta
  import opened RepoCrypto
  import opened Tlv

  // What is fixed for a repository: its hash, its cipher and keys (none when it is plain)
  // and whether objects are framed.
  datatype Config = Config(hash: Hash, cipher: Cipher, keys: Option<Subkeys>, framed: bool, inflate: Inflate)

  ghost predicate GoodConfig(cfg: Config) {
    GoodHash(cfg.hash) && GoodCipher(cfg.cipher)
  }

  const OVERHEAD: nat := NONCE_SIZE + MAC_SIZE

  // amisnap_repo_object_key
  function ObjectKey(hash: seq<byte>): Key
    requires |hash| == 32
  {
    Object(HexOf(hash)[..2], HexOf(hash))
  }

  lemma ObjectKeyIsInjective(h: seq<byte>, h': seq<byte>)
    requires |h| == 32 && |h'| == 32 && ObjectKey(h) == ObjectKey(h')
    ensures h == h'
  {
    HexIsInjective(h, h');
  }

  // ---- Objects ------------------------------------------------------------------------

  // The stored form of a content that was framed (or not) as `body`.
  ghost function SealBody(cfg: Config, body: seq<byte>): (r: seq<byte>)
    requires GoodConfig(cfg)
    ensures |r| == |body| + if cfg.keys.Some? then OVERHEAD else 0
  {
    if cfg.keys.None? then body
    else SealFrame(cfg.cipher, cfg.keys.value, ObjectNonce(cfg.cipher, cfg.keys.value, cfg.hash(body)), body)
  }

  function Unframe(cfg: Config, body: seq<byte>, size: nat): Result<seq<byte>> {
    if cfg.framed then FrameDecode(body, size, cfg.inflate) else Ok(body)
  }

  function CheckHash(cfg: Config, content: seq<byte>, hash: seq<byte>): Result<seq<byte>> {
    if cfg.hash(content) != hash then Err(HashMismatch) else Ok(content)
  }

  predicate PossibleSize(cfg: Config, len: nat, size: nat) {
    if cfg.keys.Some? then
      if cfg.framed then OVERHEAD + HEADER_SIZE <= len <= OVERHEAD + HEADER_SIZE + size
      else len == OVERHEAD + size
    else cfg.framed || len == size
  }

  // amisnap_repo_fetch_object, once the stored bytes are there: possible sizes, then the
  // message code, then the frame, then the hash.
  ghost function FetchBody(cfg: Config, raw: seq<byte>, ref: Ref): Result<seq<byte>>
    requires GoodConfig(cfg)
  {
    if !PossibleSize(cfg, |raw|, ref.size) then Err(Malformed)
    else
      match if cfg.keys.None? then Ok(raw) else OpenFrame(cfg.cipher, cfg.keys.value, raw)
      case Err(e) => Err(e)
      case Ok(body) =>
        match Unframe(cfg, body, ref.size)
        case Err(e) => Err(e)
        case Ok(content) => CheckHash(cfg, content, ref.hash)
  }

  // What comes back has the size and the hash that were asked for.
  lemma FetchedIsNamed(cfg: Config, raw: seq<byte>, ref: Ref)
    requires GoodConfig(cfg) && FetchBody(cfg, raw, ref).Ok?
    ensures |FetchBody(cfg, raw, ref).value| == ref.size && cfg.hash(FetchBody(cfg, raw, ref).value) == ref.hash
  {
  }

  function RefOf(cfg: Config, content: seq<byte>): Ref {
    Ref(cfg.hash(content), |content|)
  }

  // The bytes under a content's key give that content back.
  ghost predicate Stores(cfg: Config, raw: seq<byte>, content: seq<byte>)
    requires GoodConfig(cfg)
  {
    FetchBody(cfg, raw, RefOf(cfg, content)) == Ok(content)
  }

  // A body the writer may store for a content.
  ghost predicate IsBodyOf(cfg: Config, body: seq<byte>, content: seq<byte>) {
    if cfg.framed then IsFrameOf(body, content, cfg.inflate) else body == content
  }

  // What is stored is what is fetched, plain or sealed, framed or not.
  lemma StoredThenFetched(cfg: Config, body: seq<byte>, content: seq<byte>)
    requires GoodConfig(cfg) && IsBodyOf(cfg, body, content)
    ensures Stores(cfg, SealBody(cfg, body), content)
  {
    if cfg.keys.Some? {
      SealThenOpen(cfg.cipher, cfg.keys.value, ObjectNonce(cfg.cipher, cfg.keys.value, cfg.hash(body)), body);
    }
  }

  // amisnap_repo_fetch_object
  method FetchObject(be: Backend, cfg: Config, ref: Ref) returns (r: Result<seq<byte>>)
    requires GoodConfig(cfg) && |ref.hash| == 32
    modifies be`clock
    ensures r.Ok? ==> ObjectKey(ref.hash) in be.store
    ensures r.Ok? ==> FetchBody(cfg, be.store[ObjectKey(ref.hash)], ref) == r
    ensures r.Err? ==> (r.error == Io && be.fault(old(be.clock)).Fails?)
                       || (r.error == NotFound && ObjectKey(ref.hash) !in be.store)
                       || (ObjectKey(ref.hash) in be.store && FetchBody(cfg, be.store[ObjectKey(ref.hash)], ref) == r)
  {
    var raw := be.Get(ObjectKey(ref.hash));
    if raw.Err? {
      return raw;
    }
    if !PossibleSize(cfg, |raw.value|, ref.size) {
      return Err(Malformed);
    }
    var body := raw;
    if cfg.keys.Some? {
      body := DecryptFrame(cfg.cipher, cfg.keys.value, raw.value);
      if body.Err? {
        return body;
      }
    }
    if cfg.framed {
      body := FrameDecodeInto(body.value, ref.size, cfg.inflate);
      if body.Err? {
        return body;
      }
    }
    return CheckHash(cfg, body.value, ref.hash);
  }

  // ---- Manifests ------------------------------------------------------------------------

  const SUFFIX: string := ".mf"

  function ManifestKey(snapid: string): Key {
    Snapshot(snapid + SUFFIX)
  }

  ghost function ManifestNonce(cfg: Config, snapid: string): (r: seq<byte>)
    requires GoodConfig(cfg) && cfg.keys.Some?
    ensures |r| == NONCE_SIZE
  {
    cfg.cipher.keyed(cfg.keys.value.nonce, Ascii(snapid))[..NONCE_SIZE]
  }

  // The file a finished manifest becomes.
  ghost function ManifestFile(cfg: Config, snapid: string, plain: seq<byte>): seq<byte>
    requires GoodConfig(cfg) && |plain| >= 8
  {
    if cfg.keys.None? then plain
    else Manifest.Header(FTYPE_MANIFEST, 1)
         + SealFrame(cfg.cipher, cfg.keys.value, ManifestNonce(cfg, snapid), plain[8..])
  }

  // amisnap_repo_open_manifest: a repository with keys takes only sealed manifests whose
  // nonce is their id's, one without takes only plain ones.
  ghost function OpenManifest(cfg: Config, snapid: string, raw: seq<byte>): Result<seq<byte>>
    requires GoodConfig(cfg)
  {
    match ReadHeader(raw, FTYPE_MANIFEST)
    case Err(e) => Err(e)
    case Ok(flags) =>
      if flags % 2 == 0 then
        if cfg.keys.Some? then Err(MissingField) else Ok(raw)
      else if cfg.keys.None? then Err(MissingField)
      else if |raw| - 8 < OVERHEAD then Err(Malformed)
      else if raw[8..8 + NONCE_SIZE] != ManifestNonce(cfg, snapid) then Err(Malformed)
      else
        match OpenFrame(cfg.cipher, cfg.keys.value, raw[8..])
        case Err(e) => Err(e)
        case Ok(plain) => Ok(Manifest.Header(FTYPE_MANIFEST, 0) + plain)
  }

  method OpenManifestFile(cfg: Config, snapid: string, raw: seq<byte>) returns (r: Result<seq<byte>>)
    requires GoodConfig(cfg)
    ensures r == OpenManifest(cfg, snapid, raw)
  {
    var header := ReadHeader(raw, FTYPE_MANIFEST);
    if header.Err? {
      return Err(header.error);
    }
    if header.value % 2 == 0 {
      return if cfg.keys.Some? then Err(MissingField) else Ok(raw);
    }
    if cfg.keys.None? {
      return Err(MissingField);
    }
    if |raw| - 8 < OVERHEAD {
      return Err(Malformed);
    }
    if raw[8..8 + NONCE_SIZE] != cfg.cipher.keyed(cfg.keys.value.nonce, Ascii(snapid))[..NONCE_SIZE] {
      return Err(Malformed);
    }
    var plain := DecryptFrame(cfg.cipher, cfg.keys.value, raw[8..]);
    return if plain.Err? then Err(plain.error) else Ok(Manifest.Header(FTYPE_MANIFEST, 0) + plain.value);
  }

  lemma OpenedIsFinished(cfg: Config, snapid: string, body: seq<byte>)
    requires GoodConfig(cfg)
    ensures OpenManifest(cfg, snapid, ManifestFile(cfg, snapid, Manifest.Header(FTYPE_MANIFEST, 0) + body))
            == Ok(Manifest.Header(FTYPE_MANIFEST, 0) + body)
  {
    var head := Manifest.Header(FTYPE_MANIFEST, 0);
    if cfg.keys.None? {
      HeaderRoundTrip(FTYPE_MANIFEST, 0, body);
    } else {
      var nonce := ManifestNonce(cfg, snapid);
      var sealed := SealFrame(cfg.cipher, cfg.keys.value, nonce, body);
      assert (head + body)[8..] == body;
      HeaderRoundTrip(FTYPE_MANIFEST, 1, sealed);
      SealThenOpen(cfg.cipher, cfg.keys.value, nonce, body);
      SealedParts(Manifest.Header(FTYPE_MANIFEST, 1), cfg, nonce, body, sealed);
    }
  }

  lemma SealedParts(head: seq<byte>, cfg: Config, nonce: seq<byte>, body: seq<byte>, sealed: seq<byte>)
    requires GoodConfig(cfg) && cfg.keys.Some? && |head| == 8 && |nonce| == NONCE_SIZE
    requires sealed == SealFrame(cfg.cipher, cfg.keys.value, nonce, body)
    ensures (head + sealed)[8..] == sealed && (head + sealed)[8..8 + NONCE_SIZE] == nonce
  {
    assert sealed[..NONCE_SIZE] == nonce;
  }

  // What a manifest file says, if it can be read at all.
  ghost function EventsOf(cfg: Config, snapid: string, raw: seq<byte>): Option<seq<Event>>
    requires GoodConfig(cfg)
  {
    match OpenManifest(cfg, snapid, raw)
    case Err(_) => None
    case Ok(plain) =>
      if DecodeManifest(plain, cfg.hash).error.Some? then None else Some(DecodeManifest(plain, cfg.hash).events)
  }

  // A committed manifest says exactly what the writer was told.
  lemma CommittedIsRead(cfg: Config, snapid: string, es: seq<Event>)
    requires GoodConfig(cfg) && Ordered(es) && ValidEvents(es)
    ensures |ManifestBytes(es, cfg.hash)| >= 8
    ensures EventsOf(cfg, snapid, ManifestFile(cfg, snapid, ManifestBytes(es, cfg.hash))) == Some(es)
  {
    StartsWithHeader(es, cfg.hash);
    OpenedIsFinished(cfg, snapid, ManifestBytes(es, cfg.hash)[8..]);
    ManifestRoundTrip(es, cfg.hash);
  }

  lemma StartsWithHeader(es: seq<Event>, hash: Hash)
    ensures |ManifestBytes(es, hash)| >= 8
    ensures ManifestBytes(es, hash) == Manifest.Header(FTYPE_MANIFEST, 0) + ManifestBytes(es, hash)[8..]
  {
  }

  // Every content reference of a manifest, in order.
  function Refs(es: seq<Event>): seq<Ref> {
    if es == [] then []
    else Refs(es[..|es| - 1]) + if es[|es| - 1].OnEntry? then es[|es| - 1].entry.content else []
  }
}
