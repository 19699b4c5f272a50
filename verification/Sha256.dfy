// Streaming SHA-256 over any compression function: whatever the cuts, the state is that
// of the padded message.

module Sha256 {
  import opened Bytes
  import opened Tlv

  const BLOCK: nat := 64

  type Compress<!S> = (S, seq<byte>) -> S

  // ---- The definition (sections 5.1.1 and 6.2 of FIPS 180-4) -------------------------------

  // The whole blocks of m, folded in.
  function Fold<S>(c: Compress<S>, s: S, m: seq<byte>): S {
    if |m| < 64 then s else Fold(c, c(s, m[..64]), m[64..])
  }

  function Zeros(n: nat): (r: seq<byte>)
    ensures |r| == n
  {
    seq(n, _ => 0)
  }

  // The fewest zero bytes after the end mark that leave room for the length.
  function PadZeros(len: nat): (k: nat)
    ensures (len + 1 + k + 8) % 64 == 0 && k < 64
  {
    (119 - len % 64) % 64
  }

  // End mark, zeros, and the length in bits as eight bytes.
  function Padding(len: nat): seq<byte> {
    [0x80] + Zeros(PadZeros(len)) + Be(8, 8 * len)
  }

  function Digest<S>(c: Compress<S>, s: S, m: seq<byte>): S {
    Fold(c, s, m + Padding(|m|))
  }

  // ---- Taking a message in -----------------------------------------------------------------

  // What is left over after the whole blocks.
  function Left(m: seq<byte>): (r: seq<byte>)
    ensures |r| < BLOCK
  {
    if |m| < BLOCK then m else Left(m[BLOCK..])
  }

  lemma {:induction false} FoldInTwo<S>(c: Compress<S>, s: S, a: seq<byte>, b: seq<byte>)
    ensures Fold(c, s, a + b) == Fold(c, Fold(c, s, a), Left(a) + b)
    ensures Left(a + b) == Left(Left(a) + b)
    decreases |a|
  {
    if |a| >= BLOCK {
      assert (a + b)[..BLOCK] == a[..BLOCK] && (a + b)[BLOCK..] == a[BLOCK..] + b;
      FoldInTwo(c, c(s, a[..BLOCK]), a[BLOCK..], b);
    }
  }

  lemma FoldBlock<S>(c: Compress<S>, s: S, block: seq<byte>, rest: seq<byte>)
    requires |block| == BLOCK
    ensures Fold(c, s, block + rest) == Fold(c, c(s, block), rest) && Left(block + rest) == Left(rest)
  {
    assert (block + rest)[..BLOCK] == block && (block + rest)[BLOCK..] == rest;
  }

  lemma {:induction false} LeftLength(m: seq<byte>)
    ensures |Left(m)| == |m| % BLOCK
    decreases |m|
  {
    if |m| >= BLOCK {
      LeftLength(m[BLOCK..]);
    }
  }

  // ---- The context ---------------------------------------------------------------------------

  class Sha256Context<S> {
    const c: Compress<S>
    ghost const s0: S
    var state: S
    var count: nat  // bytes, 64 bits wide
    const buf: array<byte>
    var buflen: nat
    ghost var msg: seq<byte>

    ghost predicate Valid()
      reads this, buf
    {
      && buf.Length == BLOCK && buflen < BLOCK && count == |msg| % U64
      && state == Fold(c, s0, msg) && buf[..buflen] == Left(msg)
    }

    constructor (c: Compress<S>, s: S)
      ensures Valid() && fresh(buf) && msg == [] && this.c == c && s0 == s
    {
      this.c, state, s0, count, buflen, msg := c, s, s, 0, 0, [];
      buf := new byte[BLOCK](_ => 0);
    }

    // Topping up a partial block; it is compressed when it is full.
    method TopUp(data: seq<byte>) returns (used: nat)
      requires buf.Length == BLOCK && buflen < BLOCK
      modifies `state, `buflen, buf
      ensures buflen < BLOCK && used <= |data| && (used < |data| ==> buflen == 0)
      ensures Fold(c, state, buf[..buflen] + data[used..]) == old(Fold(c, state, buf[..buflen] + data))
      ensures Left(buf[..buflen] + data[used..]) == old(Left(buf[..buflen] + data))
    {
      if buflen == 0 {
        assert buf[..0] + data[0..] == buf[..0] + data;
        return 0;
      }
      var need := BLOCK - buflen;
      used := if |data| < need then |data| else need;
      ghost var whole := buf[..buflen] + data;
      CopyBytes(buf, buflen, data[..used]);
      buflen := buflen + used;
      assert whole == buf[..buflen] + data[used..];
      if buflen == BLOCK {
        FoldBlock(c, state, buf[..], data[used..]);
        assert buf[..BLOCK] == buf[..];
        state := c(state, buf[..]);
        buflen := 0;
        assert buf[..0] + data[used..] == data[used..];
      }
    }

    // amisnap_sha256_update
    method Update(data: seq<byte>)
      requires Valid()
      modifies `state, `count, `buflen, `msg, buf
      ensures Valid() && msg == old(msg) + data
    {
      FoldInTwo(c, s0, msg, data);
      ghost var goal := msg + data;
      count := (count + |data|) % U64;
      var i := TopUp(data);
      if i < |data| {
        assert buf[..0] + data[i..] == data[i..];
        i := WholeBlocks(data, i);
        if i < |data| {
          CopyBytes(buf, 0, data[i..]);
          buflen := |data| - i;
          assert buf[..buflen] == data[i..];
        } else {
          assert buf[..0] == data[i..];
        }
      } else {
        assert buf[..buflen] + data[i..] == buf[..buflen];
      }
      msg := goal;
    }

    // Whole blocks straight from the input.
    method WholeBlocks(data: seq<byte>, from: nat) returns (i: nat)
      requires from <= |data|
      modifies `state
      ensures from <= i <= |data| && |data| - i < BLOCK
      ensures state == old(Fold(c, state, data[from..])) && data[i..] == Left(data[from..])
    {
      i := from;
      while |data| - i >= BLOCK
        invariant from <= i <= |data|
        invariant Fold(c, state, data[i..]) == old(Fold(c, state, data[from..]))
        invariant Left(data[i..]) == Left(data[from..])
      {
        assert data[i..][..BLOCK] == data[i..i + BLOCK] && data[i..][BLOCK..] == data[i + BLOCK..];
        state := c(state, data[i..i + BLOCK]);
        i := i + BLOCK;
      }
    }

    // amisnap_sha256_final: a block more when the length does not fit behind the end mark.
    method Final() returns (digest: S)
      requires Valid()
      modifies `state, `buflen, buf
      ensures digest == Digest(c, s0, msg)
    {
      ghost var tail, st := buf[..buflen], state;
      var bits := count * 8 % U64;
      PaddingAfter(c, s0, msg, st, tail, bits);
      buf[buflen] := 0x80;
      buflen := buflen + 1;
      assert buf[..buflen] == tail + [0x80];
      if buflen > 56 {
        CopyBytes(buf, buflen, Zeros(BLOCK - buflen));
        assert buf[..BLOCK] == buf[..];
        state := c(state, buf[..]);
        buflen := 0;
      }
      ghost var begun := buf[..buflen];
      CopyBytes(buf, buflen, Zeros(56 - buflen));
      CopyBytes(buf, 56, Be(8, bits));
      assert buf[..] == begun + Zeros(56 - |begun|) + Be(8, bits);
      state := c(state, buf[..]);
      return state;
    }
  }

  // The padding splits into one last block or two.
  lemma PaddingAfter<S>(c: Compress<S>, s0: S, m: seq<byte>, st: S, tail: seq<byte>, bits: nat)
    requires st == Fold(c, s0, m) && tail == Left(m) && bits == |m| % U64 * 8 % U64
    ensures |tail| < BLOCK
    ensures |tail| + 1 <= 56 ==>
              Digest(c, s0, m) == c(st, tail + [0x80] + Zeros(56 - |tail| - 1) + Be(8, bits))
    ensures |tail| + 1 > 56 ==>
              Digest(c, s0, m) == c(c(st, tail + [0x80] + Zeros(BLOCK - |tail| - 1)), [] + Zeros(56) + Be(8, bits))
  {
    LeftLength(m);
    var len := PaddingIs(|m|, |tail|, bits);
    FoldInTwo(c, s0, m, Padding(|m|));
    if |tail| + 1 <= 56 {
      OneBlockLeft(c, st, tail, len, Padding(|m|));
    } else {
      TwoBlocksLeft(c, st, tail, len, Padding(|m|));
    }
  }

  lemma PaddingIs(n: nat, left: nat, bits: nat) returns (len: seq<byte>)
    requires left == n % BLOCK && bits == n % U64 * 8 % U64
    ensures len == Be(8, bits)
    ensures Padding(n) == [0x80] + Zeros(if left + 1 <= 56 then 56 - left - 1 else BLOCK - left - 1 + 56) + len
  {
    SameBits(n, bits);
    ZerosLeft(n, left);
    len := Be(8, bits);
  }

  lemma ZerosLeft(n: nat, left: nat)
    requires left == n % BLOCK
    ensures PadZeros(n) == if left + 1 <= 56 then 56 - left - 1 else BLOCK - left - 1 + 56
  {
  }

  lemma OneBlockLeft<S>(c: Compress<S>, st: S, tail: seq<byte>, len: seq<byte>, padding: seq<byte>)
    requires |tail| + 1 <= 56 && |len| == 8 && padding == [0x80] + Zeros(56 - |tail| - 1) + len
    ensures Fold(c, st, tail + padding) == c(st, tail + [0x80] + Zeros(56 - |tail| - 1) + len)
  {
    var block := tail + [0x80] + Zeros(56 - |tail| - 1) + len;
    assert tail + padding == block + [];
    FoldBlock(c, st, block, []);
  }

  lemma TwoBlocksLeft<S>(c: Compress<S>, st: S, tail: seq<byte>, len: seq<byte>, padding: seq<byte>)
    requires 56 < |tail| + 1 <= BLOCK && |len| == 8
    requires padding == [0x80] + Zeros(BLOCK - |tail| - 1 + 56) + len
    ensures Fold(c, st, tail + padding)
            == c(c(st, tail + [0x80] + Zeros(BLOCK - |tail| - 1)), [] + Zeros(56) + len)
  {
    var one, two := tail + [0x80] + Zeros(BLOCK - |tail| - 1), [] + Zeros(56) + len;
    assert tail + padding == one + two;
    FoldBlock(c, st, one, two);
    FoldBlock(c, c(st, one), two, []);
    assert two + [] == two;
  }

  // Eight bytes hold the number of bits modulo 2^64, as the 64-bit byte counter gives it.
  lemma SameBits(n: nat, bits: nat)
    requires bits == n % U64 * 8 % U64
    ensures Be(8, 8 * n) == Be(8, bits)
  {
    var a, b := n / U64, n % U64 * 8 / U64;
    Widths();
    assert 8 * n == bits + U64 * (8 * a + b);
    HighBytesDrop(8, bits, 8 * a + b);
  }

  // What does not fit the field is dropped.
  lemma {:induction false} HighBytesDrop(k: nat, w: nat, q: nat)
    ensures Be(k, w + Pow256(k) * q) == Be(k, w)
    decreases k
  {
    if k > 0 {
      var r := Pow256(k - 1) * q;
      assert Pow256(k) * q == 256 * r;
      HighBytesDrop(k - 1, w / 256, q);
      assert (w + 256 * r) / 256 == w / 256 + r;
    }
  }
}
