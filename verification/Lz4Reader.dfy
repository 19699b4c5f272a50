// The second decoder, lz4_block_decompress of the Python reader, and its
// agreement with the C decoder and the compressor.

module Lz4Reader {
  import opened Bytes
  import opened Lz4Encoding
  import opened Lz4Format

  // As the simple decoder, but a zero offset is an error.
  function ReaderFrom(b: seq<byte>, i: nat, out: seq<byte>): (r: Option<seq<byte>>)
    requires i <= |b|
    ensures r.Some? ==> |r.value| >= |out|
    decreases |b| - i
  {
    if i == |b| then Some(out)
    else match ParseSeq(b, i)
      case None => None
      case Some(Last(lits)) => Some(out + lits)
      case Some(Match(lits, offset, mlen, next)) =>
        if offset == 0 || offset > |out + lits| then None
        else ReaderFrom(b, next, CopyMatch(out + lits, offset, mlen))
  }

  // The reader's result for a block that should hold `usize` bytes.
  function ReaderDecode(b: seq<byte>, usize: nat): Option<seq<byte>> {
    match ReaderFrom(b, 0, [])
    case None => None
    case Some(out) => if |out| == usize then Some(out) else None
  }

  // The reader differs from the simple decoder exactly on blocks with a zero offset.
  lemma {:induction false} ReaderFromIsDecode(b: seq<byte>, i: nat, out: seq<byte>)
    requires i <= |b|
    ensures ReaderFrom(b, i, out) == if MeetsZeroOffset(b, i, out) then None else Decode(b, i, out)
    decreases |b| - i
  {
    if i < |b| {
      match ParseSeq(b, i)
      case Some(Match(lits, offset, mlen, next)) =>
        if offset <= |out + lits| {
          ReaderFromIsDecode(b, next, CopyMatch(out + lits, offset, mlen));
        }
      case _ =>
    }
  }

  // Whatever the C decoder accepts with k bytes, the reader accepts as k bytes, with
  // the same content, if and only if no offset is zero.
  lemma DecodersAgree(b: seq<byte>, cap: nat)
    requires SafeDecode(b, cap).Some?
    ensures var out := SafeDecode(b, cap).value;
            ReaderDecode(b, |out|) == if MeetsZeroOffset(b, 0, []) then None else Some(out)
  {
    SafeDecodeIsDecode(b, cap);
    ReaderFromIsDecode(b, 0, []);
  }

  const ZERO_OFFSET: seq<byte> := [0x10, 7, 0, 0, 0x90, 1, 2, 3, 4, 5, 6, 7, 8, 9]

  lemma FirstSequence(b: seq<byte>)
    requires b == ZERO_OFFSET
    ensures SafeSeq(b, 14, 0, 0) == Some(Match([7], 0, 4, 4))
  {
    assert b[1..2] == [7];
    assert ReadLE16(b, 2) == 0;
    assert SafeLits(b, 14, 0, 0) == Some((1, 1, false));
    assert SafeMatch(b, 14, 0, false, 2, 1) == Some((0, 4, 4));
  }

  lemma LastSequence(b: seq<byte>)
    requires b == ZERO_OFFSET
    ensures SafeSeq(b, 14, 4, 5) == Some(Last(b[5..])) && b[5..] == [1, 2, 3, 4, 5, 6, 7, 8, 9]
  {
  }

  lemma TwoSequences(b: seq<byte>, cap: nat, out: seq<byte>, next: nat, rest: seq<byte>)
    requires 0 < next < |b| && |out| <= cap && SafeSeq(b, cap, 0, 0) == Some(Match([7], 0, 4, next))
    requires CopyMatch([7], 0, 4) == out && SafeSeq(b, cap, next, |out|) == Some(Last(rest))
    ensures SafeDecode(b, cap) == Some(out + rest)
  {
    assert [] + [7] == [7];
    assert SafeFrom(b, cap, next, out) == Some(out + rest);
  }

  // A zero offset does get past the C decoder: 13 literals' worth of room, one
  // literal, then a match of offset zero is read as zeros.
  lemma ZeroOffsetIsAccepted()
    ensures SafeDecode(ZERO_OFFSET, 14) == Some([7, 0, 0, 0, 0, 1, 2, 3, 4, 5, 6, 7, 8, 9])
    ensures ReaderDecode(ZERO_OFFSET, 14) == None
  {
    var b, out := ZERO_OFFSET, [7, 0, 0, 0, 0];
    FirstSequence(b);
    FourZeros();
    LastSequence(b);
    TwoSequences(b, 14, out, 4, b[5..]);
    assert out + b[5..] == [7, 0, 0, 0, 0, 1, 2, 3, 4, 5, 6, 7, 8, 9];
    SafeSeqIsParseSeq(b, 14, 0, 0);
  }

  lemma FourZeros()
    ensures CopyMatch([7], 0, 4) == [7, 0, 0, 0, 0]
  {
    assert CopyMatch([7, 0, 0], 0, 2) == CopyMatch([7, 0, 0, 0], 0, 1);
  }

  // Both decoders give back what the compressor took: its blocks obey the rules.
  lemma ReaderTakesCompressed(b: seq<byte>, data: seq<byte>)
    requires Decode(b, 0, []) == Some(data) && ObeysRules(b, 0, 0, |data|)
    ensures ReaderDecode(b, |data|) == Some(data)
  {
    RulesMeanNoZeroOffset(b, 0, [], |data|);
    ReaderFromIsDecode(b, 0, []);
  }

  // ---- The loop ---------------------------------------------------------------

  // `while True: ... lit += b; if b != 255: break`, shared by both lengths.
  method ReadLength(src: seq<byte>, i: nat) returns (r: Option<(nat, nat)>)
    ensures r == ReadExt(src, i)
  {
    var v: nat, j := 0, i;
    while true
      invariant i <= j
      invariant ReadExt(src, i) == match ReadExt(src, j)
                                   case None => None
                                   case Some((w, k)) => Some((v + w, k))
      decreases |src| - j
    {
      if j >= |src| {
        return None;
      }
      v, j := v + src[j], j + 1;
      if src[j - 1] != 255 {
        return Some((v, j));
      }
    }
  }

  // Appending a match one byte at a time.
  method AppendMatch(out: seq<byte>, offset: nat, mlen: nat) returns (dst: seq<byte>)
    requires 0 < offset <= |out|
    ensures dst == CopyMatch(out, offset, mlen)
  {
    dst := out;
    var pos := |dst| - offset;
    for k := 0 to mlen
      invariant pos == |dst| - offset && offset <= |dst|
      invariant CopyMatch(dst, offset, mlen - k) == CopyMatch(out, offset, mlen)
    {
      dst := dst + [dst[pos]];
      pos := pos + 1;
    }
  }

  // Growing output never shrinks back under the declared size.
  lemma TooLongStays(b: seq<byte>, i: nat, out: seq<byte>, usize: nat)
    requires i <= |b| && |out| > usize
    ensures ReaderFrom(b, i, out).Some? ==> |ReaderFrom(b, i, out).value| != usize
  {
  }

  // One sequence, with the reader's checks in the reader's order.
  method ReadSequence(src: seq<byte>, i0: nat, outLen: nat) returns (r: Option<Step>)
    requires i0 < |src|
    ensures r.Some? ==> r == ParseSeq(src, i0)
                        && (r.value.Match? ==> 0 < r.value.offset <= outLen + |r.value.lits|)
    ensures r.None? ==> match ParseSeq(src, i0)
                        case None => true
                        case Some(Last(_)) => false
                        case Some(Match(lits, offset, _, _)) => offset == 0 || offset > outLen + |lits|
  {
    var i := i0 + 1;
    var lit: nat := src[i0] / 16;
    if lit == RUN_MASK {
      var ext := ReadLength(src, i);
      if ext.None? {
        return None;
      }
      lit, i := lit + ext.value.0, ext.value.1;
    }
    if i + lit > |src| {
      return None;
    }
    if i + lit == |src| {
      return Some(Last(src[i..]));
    }
    var lits := src[i..i + lit];
    i := i + lit;
    if i + 2 > |src| {
      return None;
    }
    var offset := ReadLE16(src, i);
    i := i + 2;
    if offset == 0 || offset > outLen + lit {
      return None;
    }
    var mlen: nat := src[i0] % 16 + MINMATCH;
    if src[i0] % 16 == ML_MASK {
      var ext := ReadLength(src, i);
      if ext.None? {
        return None;
      }
      mlen, i := mlen + ext.value.0, ext.value.1;
    }
    return Some(Match(lits, offset, mlen, i));
  }

  method ReaderDecompress(src: seq<byte>, usize: nat) returns (r: Option<seq<byte>>)
    ensures r == ReaderDecode(src, usize)
  {
    var dst: seq<byte> := [];
    var i := 0;
    while i < |src|
      invariant i <= |src|
      invariant ReaderFrom(src, 0, []) == ReaderFrom(src, i, dst)
      decreases |src| - i
    {
      var step := ReadSequence(src, i, |dst|);
      if step.None? {
        return None;
      }
      match step.value
      case Last(lits) =>
        return if |dst + lits| == usize then Some(dst + lits) else None;
      case Match(lits, offset, mlen, next) =>
        dst := AppendMatch(dst + lits, offset, mlen);
        i := next;
        if |dst| > usize {
          TooLongStays(src, i, dst, usize);
          return None;
        }
    }
    return if |dst| == usize then Some(dst) else None;
  }
}
