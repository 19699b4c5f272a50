// What the two hashes feed to their compression functions, call by call.

module HashCalls {
  import opened Bytes
  import opened Tlv
  import Blake2s
  import Sha256

  // ---- BLAKE2s --------------------------------------------------------------------------------

  // One call of the compression function, and a function that only writes its calls down.
  datatype Call = Call(block: seq<byte>, counter: nat, last: bool)

  function Recorder(): Blake2s.Compress<seq<Call>> {
    (h: seq<Call>, b: seq<byte>, t: nat, last: bool) => h + [Call(b, t, last)]
  }

  // The i-th block of a message, zeros behind it where the message ends inside it.
  predicate BlockAt(b: seq<byte>, m: seq<byte>, i: nat) {
    && |b| == 64
    && forall k :: 0 <= k < 64 ==> b[k] == if 64 * i + k < |m| then m[64 * i + k] else 0
  }

  // All calls for a message: one for every 64 bytes begun, at least one; the counter says how
  // many bytes of the message are in; only the last one is marked.
  predicate CallsFor(calls: seq<Call>, m: seq<byte>) {
    && |calls| == (if m == [] then 1 else (|m| + 63) / 64)
    && forall i :: 0 <= i < |calls| ==>
         && BlockAt(calls[i].block, m, i) && calls[i].last == (i == |calls| - 1)
         && calls[i].counter == (if i == |calls| - 1 then |m| else 64 * (i + 1)) % 0x1_0000_0000_0000_0000
  }

  predicate FullCalls(calls: seq<Call>, m: seq<byte>, n: nat) {
    && |calls| == n
    && forall i :: 0 <= i < n ==>
         BlockAt(calls[i].block, m, i) && !calls[i].last && calls[i].counter == 64 * (i + 1) % 0x1_0000_0000_0000_0000
  }

  lemma {:induction false} FirstCalls(m: seq<byte>, n: nat)
    requires 64 * n <= |m|
    ensures FullCalls(Blake2s.FirstBlocks(Recorder(), [], m, n), m, n)
    decreases n
  {
    if n > 0 {
      FirstCalls(m, n - 1);
      var before, b := Blake2s.FirstBlocks(Recorder(), [], m, n - 1), m[(n - 1) * 64..n * 64];
      assert Blake2s.FirstBlocks(Recorder(), [], m, n) == before + [Call(b, n * 64 % U64, false)];
      assert forall k :: 0 <= k < 64 ==> b[k] == m[64 * (n - 1) + k];
    }
  }

  lemma BlocksOf(len: nat)
    ensures Blake2s.BlocksBeforeLast(len) + 1 == if len == 0 then 1 else (len + 63) / 64
  {
  }

  lemma DigestCalls(m: seq<byte>)
    ensures CallsFor(Blake2s.Digest(Recorder(), [], m), m)
  {
    var n := Blake2s.BlocksBeforeLast(|m|);
    FirstCalls(m, n);
    BlocksOf(|m|);
    var before, last := Blake2s.FirstBlocks(Recorder(), [], m, n), Blake2s.Pad(m[n * 64..]);
    assert Blake2s.Digest(Recorder(), [], m) == before + [Call(last, |m| % U64, true)];
    assert BlockAt(last, m, n);
  }

  // ---- SHA-256 --------------------------------------------------------------------------------

  // What section 5.1.1 of FIPS 180-4 asks of a padded message: the message, a one bit, as few
  // zeros as fill up the last block, and the length in bits in the last eight bytes.
  predicate PaddedFrom(p: seq<byte>, m: seq<byte>) {
    && |p| % 64 == 0 && |m| + 9 <= |p| <= |m| + 72 && p[..|m|] == m && p[|m|] == 0x80
    && (forall k :: |m| < k < |p| - 8 ==> p[k] == 0)
    && p[|p| - 8..] == Be(8, 8 * |m|)
  }

  lemma PaddingPads(m: seq<byte>)
    ensures PaddedFrom(m + Sha256.Padding(|m|), m)
  {
    var k := Sha256.PadZeros(|m|);
    var p := m + Sha256.Padding(|m|);
    assert p == m + [0x80] + Sha256.Zeros(k) + Be(8, 8 * |m|);
    assert p[|p| - 8..] == Be(8, 8 * |m|);
  }

  function BlockRecorder(): Sha256.Compress<seq<seq<byte>>> {
    (s, b) => s + [b]
  }

  // Its blocks are taken in one after the other, every byte once.
  lemma {:induction false} FoldCalls(s: seq<seq<byte>>, p: seq<byte>)
    requires |p| % 64 == 0
    ensures var calls := Sha256.Fold(BlockRecorder(), s, p);
      && |calls| == |s| + |p| / 64 && calls[..|s|] == s
      && forall i :: 0 <= i < |p| / 64 ==> calls[|s| + i] == p[64 * i..64 * i + 64]
    decreases |p|
  {
    if |p| >= 64 {
      FoldCalls(s + [p[..64]], p[64..]);
      var calls := Sha256.Fold(BlockRecorder(), s, p);
      assert calls == Sha256.Fold(BlockRecorder(), s + [p[..64]], p[64..]);
      assert calls[|s|] == calls[..|s| + 1][|s|] == p[..64];
      assert calls[..|s|] == calls[..|s| + 1][..|s|] == s;
      forall i | 1 <= i < |p| / 64
        ensures calls[|s| + i] == p[64 * i..64 * i + 64]
      {
        assert calls[|s| + 1 + (i - 1)] == p[64..][64 * (i - 1)..64 * (i - 1) + 64];
      }
    }
  }
}
