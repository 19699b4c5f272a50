// The object frame: an algorithm byte, the plain size, and the payload; stored as it
// is when compressing would not make it smaller.

module Frame {
  import opened Bytes
  import opened Lz4Compressor
  import opened Lz4Decoder
  import opened Lz4Encoding
  import opened Lz4Format
  import opened Lz4Greedy
  import opened Lz4Search
  import opened Tlv

  const STORED: byte := 0
  const LZ4: byte := 1
  const ZLIB: byte := 2
  const HEADER_SIZE: nat := 9
  const INT_MAX: nat := 0x7FFF_FFFF

  // miniz: a failing compression is None, and what it makes inflates back.
  type Deflate = seq<byte> -> Option<seq<byte>>
  type Inflate = (seq<byte>, nat) -> Option<seq<byte>>

  ghost predicate GoodZlib(deflate: Deflate, inflate: Inflate) {
    forall d: seq<byte> :: deflate(d).Some? ==> inflate(deflate(d).value, |d|) == Some(d)
  }

  // The LZ4 build: its position hash, word size, and whether tables hold addresses.
  datatype Lz4Build = Lz4Build(hash: (seq<byte>, nat) -> nat, slots: nat, step: nat, addresses: bool)

  ghost predicate GoodBuild(l: Lz4Build) {
    && l.slots > 0 && (l.step == 4 || l.step == 8)
    && forall s, p :: l.hash(s, p) < l.slots
  }

  function FrameHeader(alg: byte, usize: nat): (r: seq<byte>)
    ensures |r| == HEADER_SIZE
  {
    [alg] + Be(8, usize)
  }

  // amisnap_frame_decode
  function FrameDecode(data: seq<byte>, usize: nat, inflate: Inflate): Result<seq<byte>> {
    if |data| < HEADER_SIZE || GetBe(data[1..9]) != usize then Err(Malformed)
    else
      var payload := data[HEADER_SIZE..];
      if data[0] == STORED then
        if |payload| != usize then Err(Malformed) else Ok(payload)
      else if data[0] == LZ4 then
        if |payload| > INT_MAX || usize > INT_MAX then Err(Malformed)
        else
          var out := SafeDecode(payload, usize);
          if out.None? || |out.value| != usize then Err(Malformed) else Ok(out.value)
      else if data[0] == ZLIB then
        var out := inflate(payload, usize);
        if out.None? || |out.value| != usize then Err(Malformed) else Ok(out.value)
      else Err(Error.CriticalTag)
  }

  // A body that decodes to `content`, never longer than the content and a header.
  ghost predicate IsFrameOf(body: seq<byte>, content: seq<byte>, inflate: Inflate) {
    && HEADER_SIZE <= |body| <= HEADER_SIZE + |content|
    && FrameDecode(body, |content|, inflate) == Ok(content)
  }

  lemma HeaderParts(alg: byte, usize: nat, payload: seq<byte>)
    requires usize < U64
    ensures var b := FrameHeader(alg, usize) + payload;
      |b| == HEADER_SIZE + |payload| && b[0] == alg && GetBe(b[1..9]) == usize && b[HEADER_SIZE..] == payload
  {
    var b := FrameHeader(alg, usize) + payload;
    Widths();
    GetPutBe(8, usize);
    assert b[1..9] == Be(8, usize);
  }

  // What a frame may be made of.
  lemma FrameRoundTrip(alg: byte, content: seq<byte>, payload: seq<byte>, inflate: Inflate)
    requires |content| < U64 && |payload| <= |content|
    requires alg == STORED ==> payload == content
    requires alg == LZ4 ==> |content| <= INT_MAX && SafeDecode(payload, |content|) == Some(content)
    requires alg == ZLIB ==> inflate(payload, |content|) == Some(content)
    requires alg in {STORED, LZ4, ZLIB}
    ensures IsFrameOf(FrameHeader(alg, |content|) + payload, content, inflate)
  {
    HeaderParts(alg, |content|, payload);
  }

  function HashOf(l: Lz4Build, src: seq<byte>): Hash {
    p => l.hash(src, p)
  }

  // The table as it is cleared for an input of n bytes.
  function Tables(l: Lz4Build, n: nat): (r: (TableType, int)) {
    if n < LIMIT_64K then (ByU16, 0) else if l.addresses then (ByPtr, -DISTANCE_MAX - 1) else (ByU32, 0)
  }

  ghost function ParseOf(l: Lz4Build, src: seq<byte>): seq<Sequence>
    requires GoodBuild(l)
  {
    Parse(src, HashOf(l, src), 1, seq(l.slots, _ => Tables(l, |src|).1))
  }

  // LZ4_compress_default with room for the worst case.
  method CompressDefault(src: seq<byte>, l: Lz4Build) returns (r: seq<byte>)
    requires GoodBuild(l) && 1 <= |src| <= MAX_INPUT_SIZE
    ensures |r| <= CompressBound(|src|) && SafeDecode(r, |src|) == Some(src) && IsGreedy(src, r, ParseOf(l, src))
  {
    var (tt, nil) := Tables(l, |src|);
    var table := new int[l.slots](_ => nil);
    var dst := new byte[CompressBound(|src|)](_ => 0);
    assert table[..] == seq(l.slots, _ => nil);
    var n := Compress(src, dst, table, tt, nil, HashOf(l, src), 1, l.step);
    return dst[..n];
  }

  // The compressed form is kept exactly when it is the shorter one.
  function Framed(alg: byte, data: seq<byte>, packed: Option<seq<byte>>): seq<byte> {
    if packed.Some? && |packed.value| < |data| then FrameHeader(alg, |data|) + packed.value
    else FrameHeader(STORED, |data|) + data
  }

  // A frame takes nine bytes and the shorter of the two forms.
  lemma FramedIsShortest(alg: byte, data: seq<byte>, packed: Option<seq<byte>>)
    ensures |Framed(alg, data, packed)| == 9 + if packed.Some? && |packed.value| < |data| then |packed.value| else |data|
    ensures Framed(alg, data, packed)[9..] == if packed.Some? && |packed.value| < |data| then packed.value else data
  {
  }

  // What the algorithm made of the data, if it was asked to and could.
  ghost predicate IsPacked(alg: byte, data: seq<byte>, l: Lz4Build, deflate: Deflate, packed: Option<seq<byte>>)
    requires GoodBuild(l)
  {
    if data == [] || alg == STORED then packed.None?
    else if alg == LZ4 then
      packed.Some? && SafeDecode(packed.value, |data|) == Some(data) && IsGreedy(data, packed.value, ParseOf(l, data))
    else packed == deflate(data)
  }

  predicate CanEncode(alg: byte, len: nat) {
    alg in {STORED, LZ4, ZLIB} && (alg == LZ4 ==> len <= MAX_INPUT_SIZE)
  }

  // amisnap_frame_encode: fails only for an unknown algorithm or an input LZ4 cannot take.
  method FrameEncode(alg: byte, data: seq<byte>, l: Lz4Build, deflate: Deflate, ghost inflate: Inflate)
    returns (r: Result<seq<byte>>, ghost packed: Option<seq<byte>>)
    requires GoodBuild(l) && GoodZlib(deflate, inflate) && |data| < U64
    ensures r.Ok? ==> IsFrameOf(r.value, data, inflate)
    ensures r.Ok? ==> r.value == Framed(alg, data, packed) && IsPacked(alg, data, l, deflate, packed)
    ensures r.Err? ==> r.error == if alg == LZ4 then TooLong else Malformed
    ensures r.Ok? <==> CanEncode(alg, |data|)
  {
    packed := None;
    FrameRoundTrip(STORED, data, data, inflate);
    var stored := FrameHeader(STORED, |data|) + data;
    if alg == STORED {
      return Ok(stored), packed;
    }
    var payload;
    if alg == LZ4 {
      if |data| > MAX_INPUT_SIZE {
        return Err(TooLong), packed;
      }
      if |data| == 0 {
        return Ok(stored), packed;
      }
      payload := CompressDefault(data, l);
      packed := Some(payload);
      if |payload| == 0 || |payload| >= |data| {
        return Ok(stored), packed;
      }
    } else if alg == ZLIB {
      if |data| == 0 {
        return Ok(stored), packed;
      }
      var out := deflate(data);
      packed := out;
      if out.None? || |out.value| >= |data| {
        return Ok(stored), packed;
      }
      payload := out.value;
    } else {
      return Err(Malformed), packed;
    }
    FrameRoundTrip(alg, data, payload, inflate);
    return Ok(FrameHeader(alg, |data|) + payload), packed;
  }

  // A position's slot depends on the eight bytes there.
  ghost predicate LocalBuild(l: Lz4Build) {
    forall s, p: nat, q: nat :: p + 8 <= |s| && q + 8 <= |s| && s[p..p + 8] == s[q..q + 8] ==> l.hash(s, p) == l.hash(s, q)
  }

  // Asked for LZ4, an input of runs is kept compressed, at five bytes a run and one for every
  // 255 bytes.
  lemma RunsShrink(data: seq<byte>, l: Lz4Build, deflate: Deflate, packed: Option<seq<byte>>, ends: seq<nat>)
    requires GoodBuild(l) && LocalBuild(l) && IsPacked(LZ4, data, l, deflate, packed)
    requires Runs(data, 0, ends) && ends != []
    ensures |Framed(LZ4, data, packed)| <= HEADER_SIZE + 5 * |ends| + |data| / 255 + 6 < HEADER_SIZE + |data|
    ensures Framed(LZ4, data, packed)[0] == LZ4
  {
    RunsAreLong(data, 0, ends);
    RunsBlock(data, packed.value, HashOf(l, data), 1, seq(l.slots, _ => Tables(l, |data|).1), ends);
  }

  // The decoder, with the real LZ4 decoder writing into a buffer of the expected size.
  method FrameDecodeInto(data: seq<byte>, usize: nat, inflate: Inflate) returns (r: Result<seq<byte>>)
    ensures r == FrameDecode(data, usize, inflate)
  {
    if |data| < HEADER_SIZE || GetBe(data[1..9]) != usize {
      return Err(Malformed);
    }
    var payload := data[HEADER_SIZE..];
    if data[0] == STORED {
      return if |payload| != usize then Err(Malformed) else Ok(payload);
    }
    if data[0] == LZ4 {
      if |payload| > INT_MAX || usize > INT_MAX {
        return Err(Malformed);
      }
      var out := new byte[if usize == 0 then 1 else usize](_ => 0);
      var n := DecompressSafe(payload, out, usize);
      return if n < 0 || n != usize then Err(Malformed) else Ok(out[..usize]);
    }
    if data[0] == ZLIB {
      var out := inflate(payload, usize);
      return if out.None? || |out.value| != usize then Err(Malformed) else Ok(out.value);
    }
    return Err(Error.CriticalTag);
  }
}
