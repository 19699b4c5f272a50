// Streaming BLAKE2s over any compression function: the last block is held back, so the
// final flag goes to it and to it alone, however the message was cut.

module Blake2s {
  import opened Bytes

  const BLOCK: nat := 64

  // h, the block, the byte counter and the final flag.
  type Compress<!H> = (H, seq<byte>, nat, bool) -> H

  function Pad(m: seq<byte>): (r: seq<byte>)
    requires |m| <= 64
    ensures |r| == 64
  {
    m + seq(64 - |m|, _ => 0)
  }

  // ---- The definition (section 3.3 of RFC 7693) ------------------------------------------

  // h after the first n blocks, none of them the last.
  function FirstBlocks<H>(f: Compress<H>, h: H, m: seq<byte>, n: nat): H
    requires n * 64 <= |m|
  {
    if n == 0 then h
    else f(FirstBlocks(f, h, m, n - 1), m[(n - 1) * 64..n * 64], n * 64 % U64, false)
  }

  // The number of blocks before the last; an empty message is one, empty, block.
  function BlocksBeforeLast(len: nat): (n: nat)
    ensures n * 64 <= len && len - n * 64 <= 64 && (n > 0 ==> n * 64 < len)
  {
    if len == 0 then 0 else (len - 1) / 64
  }

  function Digest<H>(f: Compress<H>, h: H, m: seq<byte>): H {
    var n := BlocksBeforeLast(|m|);
    f(FirstBlocks(f, h, m, n), Pad(m[n * 64..]), |m| % U64, true)
  }

  // ---- Taking a message in, block by block ---------------------------------------------------

  // h, the counter and what is held back once `m` is taken in from (h, t).
  function Absorb<H>(f: Compress<H>, h: H, t: nat, m: seq<byte>): (r: (H, nat, seq<byte>))
    ensures |r.2| <= BLOCK && (m != [] ==> r.2 != [])
    decreases |m|
  {
    if |m| <= BLOCK then (h, t, m)
    else Absorb(f, f(h, m[..BLOCK], (t + BLOCK) % U64, false), (t + BLOCK) % U64, m[BLOCK..])
  }

  // Cutting: what is held back goes in again before the rest.
  lemma {:induction false} AbsorbInTwo<H>(f: Compress<H>, h: H, t: nat, a: seq<byte>, b: seq<byte>)
    ensures var s := Absorb(f, h, t, a);
      Absorb(f, h, t, a + b) == Absorb(f, s.0, s.1, s.2 + b)
    decreases |a|
  {
    if |a| > BLOCK {
      assert (a + b)[..BLOCK] == a[..BLOCK] && (a + b)[BLOCK..] == a[BLOCK..] + b;
      AbsorbInTwo(f, f(h, a[..BLOCK], (t + BLOCK) % U64, false), (t + BLOCK) % U64, a[BLOCK..], b);
    }
  }

  lemma AbsorbBlock<H>(f: Compress<H>, h: H, t: nat, m: seq<byte>, k: nat)
    requires k + BLOCK < |m|
    ensures Absorb(f, h, t, m[k..])
            == Absorb(f, f(h, m[k..k + BLOCK], (t + BLOCK) % U64, false), (t + BLOCK) % U64, m[k + BLOCK..])
  {
    var s := m[k..];
    assert s[..BLOCK] == m[k..k + BLOCK] && s[BLOCK..] == m[k + BLOCK..];
  }

  lemma CounterStep(k: nat)
    ensures (k % U64 + BLOCK) % U64 == (k + BLOCK) % U64
  {
  }

  lemma CounterEnd(k: nat, n: nat)
    ensures (k % U64 + n) % U64 == (k + n) % U64
  {
  }

  // After n blocks of the whole message, the rest is taken in from the n-th state.
  lemma {:induction false} AbsorbFromBlock<H>(f: Compress<H>, h: H, m: seq<byte>, n: nat)
    requires n == 0 || n * BLOCK < |m|
    ensures Absorb(f, h, 0, m) == Absorb(f, FirstBlocks(f, h, m, n), n * BLOCK % U64, m[n * BLOCK..])
    decreases n
  {
    if n == 0 {
      assert m[0..] == m;
    } else {
      var k := (n - 1) * BLOCK;
      AbsorbFromBlock(f, h, m, n - 1);
      AbsorbBlock(f, FirstBlocks(f, h, m, n - 1), k % U64, m, k);
      CounterStep(k);
    }
  }

  lemma AbsorbShort<H>(f: Compress<H>, h: H, t: nat, m: seq<byte>)
    requires |m| <= BLOCK
    ensures Absorb(f, h, t, m) == (h, t, m)
  {
  }

  // Finishing from the state a message was taken into gives its digest.
  lemma FinishIsDigest<H>(f: Compress<H>, h: H, m: seq<byte>)
    ensures var s := Absorb(f, h, 0, m);
      f(s.0, Pad(s.2), (s.1 + |s.2|) % U64, true) == Digest(f, h, m)
  {
    var n := BlocksBeforeLast(|m|);
    var k := n * BLOCK;
    AbsorbFromBlock(f, h, m, n);
    AbsorbShort(f, FirstBlocks(f, h, m, n), k % U64, m[k..]);
    CounterEnd(k, |m| - k);
  }

  // ---- The context ---------------------------------------------------------------------------

  class Blake2sContext<H> {
    const f: Compress<H>
    ghost const h0: H
    var h: H
    var t0: nat
    var t1: nat
    const buf: array<byte>
    var buflen: nat
    ghost var msg: seq<byte>  // everything taken in

    ghost predicate Valid()
      reads this, buf
    {
      && buf.Length == BLOCK && buflen <= BLOCK && t0 < U32 && t1 < U32
      && (h, t1 * U32 + t0, buf[..buflen]) == Absorb(f, h0, 0, msg)
    }

    constructor (f: Compress<H>, h: H)
      ensures Valid() && fresh(buf) && msg == [] && this.f == f && h0 == h
    {
      this.f, this.h, h0, t0, t1, buflen, msg := f, h, h, 0, 0, 0, [];
      buf := new byte[BLOCK](_ => 0);
    }

    // increment_counter: two 32-bit words with a carry.
    method IncrementCounter(inc: nat)
      requires inc <= BLOCK && t0 < U32 && t1 < U32
      modifies `t0, `t1
      ensures t0 < U32 && t1 < U32 && t1 * U32 + t0 == (old(t1 * U32 + t0) + inc) % U64
    {
      t0 := (t0 + inc) % U32;
      if t0 < inc {
        t1 := (t1 + 1) % U32;
      }
    }

    // The buffer is full and more is known to follow.
    method CompressBuffer()
      requires buf.Length == BLOCK && buflen == BLOCK && t0 < U32 && t1 < U32
      modifies `h, `t0, `t1, `buflen
      ensures t0 < U32 && t1 < U32 && buflen == 0
      ensures t1 * U32 + t0 == (old(t1 * U32 + t0) + BLOCK) % U64
      ensures h == f(old(h), buf[..], t1 * U32 + t0, false)
    {
      IncrementCounter(BLOCK);
      h := f(h, buf[..], t1 * U32 + t0, false);
      buflen := 0;
    }

    method Fill(data: seq<byte>, i: nat, take: nat)
      requires buf.Length == BLOCK && buflen + take <= BLOCK && i + take <= |data|
      modifies `buflen, buf
      ensures buflen == old(buflen) + take && buf[..buflen] == old(buf[..buflen]) + data[i..i + take]
    {
      CopyBytes(buf, buflen, data[i..i + take]);
      buflen := buflen + take;
    }

    // One turn of the update loop.
    method TakeIn(data: seq<byte>, i: nat) returns (i': nat)
      requires buf.Length == BLOCK && buflen <= BLOCK && t0 < U32 && t1 < U32 && i < |data|
      modifies `h, `t0, `t1, `buflen, buf
      ensures buflen <= BLOCK && t0 < U32 && t1 < U32 && i <= i' <= |data|
      ensures i' > i || buflen < old(buflen)
      ensures Absorb(f, h, t1 * U32 + t0, buf[..buflen] + data[i'..])
              == old(Absorb(f, h, t1 * U32 + t0, buf[..buflen] + data[i..]))
    {
      var left := BLOCK - buflen;
      var take := if |data| - i < left then |data| - i else left;
      ghost var whole := buf[..buflen] + data[i..];
      Fill(data, i, take);
      i' := i + take;
      assert whole == buf[..buflen] + data[i'..];
      if buflen == BLOCK && i' < |data| {
        assert whole[..BLOCK] == buf[..] && whole[BLOCK..] == data[i'..] && whole[0..] == whole;
        AbsorbBlock(f, h, t1 * U32 + t0, whole, 0);
        CompressBuffer();
        assert buf[..0] + data[i'..] == data[i'..];
      }
    }

    // amisnap_blake2s_update
    method Update(data: seq<byte>)
      requires Valid()
      modifies `h, `t0, `t1, `buflen, `msg, buf
      ensures Valid() && msg == old(msg) + data
    {
      AbsorbInTwo(f, h0, 0, msg, data);
      ghost var goal := msg + data;
      var i: nat := 0;
      assert data[0..] == data;
      while i < |data|
        invariant 0 <= i <= |data| && buflen <= BLOCK && t0 < U32 && t1 < U32
        invariant Absorb(f, h, t1 * U32 + t0, buf[..buflen] + data[i..]) == Absorb(f, h0, 0, goal)
        decreases |data| - i, buflen
      {
        i := TakeIn(data, i);
      }
      assert buf[..buflen] + data[i..] == buf[..buflen];
      msg := goal;
    }

    // amisnap_blake2s_final: what was held back is the last block.
    method Final() returns (digest: H)
      requires Valid()
      modifies `h, `t0, `t1, buf
      ensures digest == Digest(f, h0, msg)
    {
      ghost var tail := buf[..buflen];
      FinishIsDigest(f, h0, msg);
      IncrementCounter(buflen);
      CopyBytes(buf, buflen, seq(BLOCK - buflen, _ => 0));
      assert buf[..] == buf[..BLOCK] == Pad(tail);
      h := f(h, buf[..], t1 * U32 + t0, true);
      return h;
    }
  }

  // ---- Keyed hashing --------------------------------------------------------------------------

  // amisnap_blake2s_init_key: the key, padded to a block, goes in first.
  method InitKey<H>(f: Compress<H>, h: H, key: seq<byte>) returns (c: Blake2sContext<H>)
    requires |key| <= 32
    ensures c.Valid() && fresh(c) && fresh(c.buf) && c.f == f && c.h0 == h
    ensures c.msg == if key == [] then [] else Pad(key)
  {
    c := new Blake2sContext(f, h);
    if |key| > 0 {
      c.Update(Pad(key));
    }
  }

  // However the message is cut, the digest is that of the key block and the message.
  method HashParts<H>(f: Compress<H>, h: H, key: seq<byte>, parts: seq<seq<byte>>) returns (digest: H)
    requires |key| <= 32
    ensures digest == Digest(f, h, (if key == [] then [] else Pad(key)) + Concat(parts))
  {
    var c := InitKey(f, h, key);
    ghost var start := c.msg;
    for i := 0 to |parts|
      invariant c.Valid() && fresh(c) && fresh(c.buf) && c.f == f && c.h0 == h
      invariant c.msg + Concat(parts[i..]) == start + Concat(parts)
    {
      assert parts[i..][1..] == parts[i + 1..];
      c.Update(parts[i]);
    }
    assert c.msg + [] == c.msg;
    digest := c.Final();
  }
}
