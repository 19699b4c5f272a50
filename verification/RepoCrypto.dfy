// Encrypted frames: nonce, ciphertext and message code side by side, over any keystream
// and any keyed hash.

module RepoCrypto {
  import opened Bytes

  const NONCE_SIZE: nat := 12
  const MAC_SIZE: nat := 16
  const KEY_SIZE: nat := 32

  // ChaCha20's keystream for a key and a nonce, and keyed BLAKE2s-256.
  datatype Cipher = Cipher(
    stream: (seq<byte>, seq<byte>, nat) -> seq<byte>,
    keyed: (seq<byte>, seq<byte>) -> seq<byte>)

  datatype Subkeys = Subkeys(enc: seq<byte>, mac: seq<byte>, nonce: seq<byte>)

  ghost predicate GoodCipher(c: Cipher) {
    && (forall k, n, len :: |c.stream(k, n, len)| == len)
    && (forall k, m :: |c.keyed(k, m)| == 32)
  }

  // ---- Exclusive or ----------------------------------------------------------------

  function Pow2(k: nat): nat {
    if k == 0 then 1 else 2 * Pow2(k - 1)
  }

  // The low k bits of a ^ b and of a | b.
  function XorBits(a: nat, b: nat, k: nat): (r: nat)
    ensures r < Pow2(k)
  {
    if k == 0 then 0 else 2 * XorBits(a / 2, b / 2, k - 1) + (a + b) % 2
  }

  function OrBits(a: nat, b: nat, k: nat): (r: nat)
    ensures r < Pow2(k)
  {
    if k == 0 then 0 else 2 * OrBits(a / 2, b / 2, k - 1) + if a % 2 == 1 || b % 2 == 1 then 1 else 0
  }

  lemma {:induction false} XorBitsTwice(a: nat, b: nat, k: nat)
    requires a < Pow2(k)
    ensures XorBits(XorBits(a, b, k), b, k) == a
  {
    if k > 0 {
      XorBitsTwice(a / 2, b / 2, k - 1);
      LowBit(a, b, XorBits(a / 2, b / 2, k - 1), XorBits(a, b, k));
    }
  }

  lemma LowBit(a: nat, b: nat, high: nat, x: nat)
    requires x == 2 * high + (a + b) % 2
    ensures x / 2 == high && (x + b) % 2 == a % 2
  {
  }

  lemma {:induction false} XorBitsZero(a: nat, b: nat, k: nat)
    requires a < Pow2(k) && b < Pow2(k)
    ensures XorBits(a, b, k) == 0 <==> a == b
  {
    if k > 0 {
      XorBitsZero(a / 2, b / 2, k - 1);
    }
  }

  lemma {:induction false} OrBitsZero(a: nat, b: nat, k: nat)
    requires a < Pow2(k) && b < Pow2(k)
    ensures OrBits(a, b, k) == 0 <==> a == 0 && b == 0
  {
    if k > 0 {
      OrBitsZero(a / 2, b / 2, k - 1);
    }
  }

  lemma Pow2Byte()
    ensures Pow2(8) == 256
  {
    assert Pow2(4) == 16 && Pow2(6) == 64;
  }

  function XorByte(a: byte, b: byte): byte {
    Pow2Byte();
    XorBits(a, b, 8)
  }

  function Xor(s: seq<byte>, t: seq<byte>): (r: seq<byte>)
    requires |s| == |t|
    ensures |r| == |s|
  {
    seq(|s|, i requires 0 <= i < |s| => XorByte(s[i], t[i]))
  }

  lemma XorTwice(s: seq<byte>, t: seq<byte>)
    requires |s| == |t|
    ensures Xor(Xor(s, t), t) == s
  {
    forall i | 0 <= i < |s|
      ensures Xor(Xor(s, t), t)[i] == s[i]
    {
      Pow2Byte();
      XorBitsTwice(s[i], t[i], 8);
    }
  }

  // ---- Frames -----------------------------------------------------------------------

  function ObjectNonce(c: Cipher, k: Subkeys, bodyHash: seq<byte>): (r: seq<byte>)
    requires |c.keyed(k.nonce, bodyHash)| == 32
    ensures |r| == NONCE_SIZE
  {
    c.keyed(k.nonce, bodyHash)[..NONCE_SIZE]
  }

  function Mac16(c: Cipher, k: Subkeys, nonce: seq<byte>, ct: seq<byte>): (r: seq<byte>)
    requires |c.keyed(k.mac, nonce + ct)| == 32
    ensures |r| == MAC_SIZE
  {
    c.keyed(k.mac, nonce + ct)[..MAC_SIZE]
  }

  ghost function Ciphertext(c: Cipher, k: Subkeys, nonce: seq<byte>, plain: seq<byte>): (r: seq<byte>)
    requires GoodCipher(c)
    ensures |r| == |plain|
  {
    Xor(plain, c.stream(k.enc, nonce, |plain|))
  }

  ghost function SealFrame(c: Cipher, k: Subkeys, nonce: seq<byte>, plain: seq<byte>): (r: seq<byte>)
    requires GoodCipher(c) && |nonce| == NONCE_SIZE
    ensures |r| == NONCE_SIZE + |plain| + MAC_SIZE
  {
    var ct := Ciphertext(c, k, nonce, plain);
    nonce + ct + Mac16(c, k, nonce, ct)
  }

  // amisnap_repo_decrypt_frame
  ghost function OpenFrame(c: Cipher, k: Subkeys, frame: seq<byte>): (r: Result<seq<byte>>)
    requires GoodCipher(c)
    ensures r.Ok? ==> |r.value| == |frame| - NONCE_SIZE - MAC_SIZE
  {
    if |frame| < NONCE_SIZE + MAC_SIZE then Err(Malformed)
    else
      var nonce, ct := frame[..NONCE_SIZE], frame[NONCE_SIZE..|frame| - MAC_SIZE];
      if Mac16(c, k, nonce, ct) != frame[|frame| - MAC_SIZE..] then Err(HashMismatch)
      else Ok(Ciphertext(c, k, nonce, ct))
  }

  lemma FrameParts(nonce: seq<byte>, ct: seq<byte>, mac: seq<byte>)
    requires |nonce| == NONCE_SIZE && |mac| == MAC_SIZE
    ensures var f := nonce + ct + mac;
      f[..NONCE_SIZE] == nonce && f[NONCE_SIZE..|f| - MAC_SIZE] == ct && f[|f| - MAC_SIZE..] == mac
  {
  }

  lemma SealThenOpen(c: Cipher, k: Subkeys, nonce: seq<byte>, plain: seq<byte>)
    requires GoodCipher(c) && |nonce| == NONCE_SIZE
    ensures OpenFrame(c, k, SealFrame(c, k, nonce, plain)) == Ok(plain)
  {
    var ct := Ciphertext(c, k, nonce, plain);
    FrameParts(nonce, ct, Mac16(c, k, nonce, ct));
    XorTwice(plain, c.stream(k.enc, nonce, |plain|));
  }

  // A frame opens to `plain` exactly when sealing `plain` under its nonce makes that frame.
  lemma OpensIffSealed(c: Cipher, k: Subkeys, frame: seq<byte>, plain: seq<byte>)
    requires GoodCipher(c)
    ensures OpenFrame(c, k, frame) == Ok(plain) <==>
            |frame| >= NONCE_SIZE + MAC_SIZE && frame == SealFrame(c, k, frame[..NONCE_SIZE], plain)
  {
    if |frame| >= NONCE_SIZE + MAC_SIZE {
      var nonce := frame[..NONCE_SIZE];
      if OpenFrame(c, k, frame) == Ok(plain) {
        var ct := frame[NONCE_SIZE..|frame| - MAC_SIZE];
        XorTwice(ct, c.stream(k.enc, nonce, |ct|));
        assert frame == nonce + ct + frame[|frame| - MAC_SIZE..];
      }
      SealThenOpen(c, k, nonce, plain);
    }
  }

  // ---- The loops ---------------------------------------------------------------------

  // amisnap_chacha20_xor from block 0.
  method XorStream(c: Cipher, key: seq<byte>, nonce: seq<byte>, input: seq<byte>, out: array<byte>, at: nat)
    requires GoodCipher(c) && at + |input| <= out.Length
    modifies out
    ensures out[at..at + |input|] == Xor(input, c.stream(key, nonce, |input|))
    ensures forall j :: 0 <= j < at || at + |input| <= j < out.Length ==> out[j] == old(out[j])
  {
    var ks := c.stream(key, nonce, |input|);
    for i := 0 to |input|
      invariant forall j :: 0 <= j < i ==> out[at + j] == XorByte(input[j], ks[j])
      invariant forall j :: 0 <= j < at || at + i <= j < out.Length ==> out[j] == old(out[j])
    {
      out[at + i] := XorByte(input[i], ks[i]);
    }
  }

  // amisnap_repo_encrypt_frame, into a buffer with room for the overhead.
  method EncryptFrame(c: Cipher, k: Subkeys, nonce: seq<byte>, plain: seq<byte>, out: array<byte>)
    requires GoodCipher(c) && |nonce| == NONCE_SIZE && out.Length >= NONCE_SIZE + |plain| + MAC_SIZE
    modifies out
    ensures out[..NONCE_SIZE + |plain| + MAC_SIZE] == SealFrame(c, k, nonce, plain)
    ensures forall j :: NONCE_SIZE + |plain| + MAC_SIZE <= j < out.Length ==> out[j] == old(out[j])
  {
    var end := NONCE_SIZE + |plain|;
    CopyBytes(out, 0, nonce);
    XorStream(c, k.enc, nonce, plain, out, NONCE_SIZE);
    var ct := out[NONCE_SIZE..end];
    assert out[..NONCE_SIZE] == nonce;
    CopyBytes(out, end, c.keyed(k.mac, nonce + ct)[..MAC_SIZE]);
    assert out[..NONCE_SIZE] == nonce && out[NONCE_SIZE..end] == ct;
    assert out[..end + MAC_SIZE] == out[..NONCE_SIZE] + out[NONCE_SIZE..end] + out[end..end + MAC_SIZE];
  }

  // Comparison without an early exit.
  method CtEq(a: seq<byte>, b: seq<byte>) returns (r: bool)
    requires |a| == |b|
    ensures r <==> a == b
  {
    Pow2Byte();
    var diff: byte := 0;
    for i := 0 to |a|
      invariant diff == 0 <==> a[..i] == b[..i]
    {
      var x := XorByte(a[i], b[i]);
      XorBitsZero(a[i], b[i], 8);
      OrBitsZero(diff, x, 8);
      diff := OrBits(diff, x, 8);
      assert a[..i + 1] == a[..i] + [a[i]] && b[..i + 1] == b[..i] + [b[i]];
    }
    assert a[..|a|] == a && b[..|b|] == b;
    return diff == 0;
  }

  method DecryptFrame(c: Cipher, k: Subkeys, frame: seq<byte>) returns (r: Result<seq<byte>>)
    requires GoodCipher(c)
    ensures r == OpenFrame(c, k, frame)
  {
    if |frame| < NONCE_SIZE + MAC_SIZE {
      return Err(Malformed);
    }
    var nonce, ct := frame[..NONCE_SIZE], frame[NONCE_SIZE..|frame| - MAC_SIZE];
    var eq := CtEq(Mac16(c, k, nonce, ct), frame[|frame| - MAC_SIZE..]);
    if !eq {
      return Err(HashMismatch);
    }
    var out := new byte[|ct|](_ => 0);
    XorStream(c, k.enc, nonce, ct, out, 0);
    assert out[0..|ct|] == out[..];
    return Ok(out[..]);
  }

  // ---- The wrapped repository key -------------------------------------------------------

  // Subkeys of the wrapping key, by label.
  function WrapKeys(c: Cipher, kWrap: seq<byte>, encLabel: seq<byte>, macLabel: seq<byte>): Subkeys {
    Subkeys(c.keyed(kWrap, encLabel), c.keyed(kWrap, macLabel), seq(KEY_SIZE, _ => 0))
  }

  // Unwrapping what was wrapped gives the key back; a wrapped key is 60 bytes.
  lemma WrapThenUnwrap(c: Cipher, kWrap: seq<byte>, encLabel: seq<byte>, macLabel: seq<byte>,
                       nonce: seq<byte>, key: seq<byte>)
    requires GoodCipher(c) && |nonce| == NONCE_SIZE && |key| == KEY_SIZE
    ensures var k := WrapKeys(c, kWrap, encLabel, macLabel);
      |SealFrame(c, k, nonce, key)| == 60 && OpenFrame(c, k, SealFrame(c, k, nonce, key)) == Ok(key)
  {
    SealThenOpen(c, WrapKeys(c, kWrap, encLabel, macLabel), nonce, key);
  }
}
