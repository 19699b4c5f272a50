// Sequences byte by byte, as the LZ4 block format has them, and what a decoder reads of them.

module Lz4Bytes {
  import opened Bytes
  import opened Lz4Encoding
  import opened Lz4Format

  // What of a length does not fit its half of the token: 255 as often as it goes, then the rest.
  function More(v: nat): (r: seq<byte>)
    ensures |r| > 0
  {
    if v < 255 then [v] else [255] + More(v - 255)
  }

  function LengthBytes(x: nat): seq<byte> {
    if x < 15 then [] else More(x - 15)
  }

  function HalfToken(x: nat): (r: nat)
    ensures r <= 15
  {
    if x < 15 then x else 15
  }

  // Token, literals, offset with its low byte first, and a match of at least four bytes.
  function SequenceBytes(lits: seq<byte>, offset: nat, mlen: nat): seq<byte>
    requires offset < 0x1_0000 && mlen >= 4
  {
    [16 * HalfToken(|lits|) + HalfToken(mlen - 4)] + LengthBytes(|lits|) + lits + [offset % 256, offset / 256]
    + LengthBytes(mlen - 4)
  }

  // The last sequence is literals only.
  function LastBytes(lits: seq<byte>): seq<byte> {
    [16 * HalfToken(|lits|)] + LengthBytes(|lits|) + lits
  }

  lemma {:induction false} MoreIsRead(pre: seq<byte>, v: nat, post: seq<byte>)
    ensures ReadExt(pre + More(v) + post, |pre|) == Some((v, |pre| + |More(v)|))
    decreases v
  {
    var b := pre + More(v) + post;
    if v >= 255 {
      assert More(v) == [255] + More(v - 255);
      assert b == (pre + [255]) + More(v - 255) + post;
      MoreIsRead(pre + [255], v - 255, post);
    }
  }

  // A length in its two parts: what is still to add to the half of the token, and where
  // reading goes on.
  function Rest(b: seq<byte>, i: nat, half: nat): Option<(nat, nat)> {
    if half == 15 then ReadExt(b, i) else Some((0, i))
  }

  lemma LengthIsRead(b: seq<byte>, pre: seq<byte>, x: nat, post: seq<byte>)
    requires b == pre + LengthBytes(x) + post
    ensures Rest(b, |pre|, HalfToken(x)) == Some((x - HalfToken(x), |pre| + |LengthBytes(x)|))
  {
    if x >= 15 {
      LongLength(b, pre, x, post);
    }
  }

  lemma LongLength(b: seq<byte>, pre: seq<byte>, x: nat, post: seq<byte>)
    requires x >= 15 && b == pre + LengthBytes(x) + post
    ensures ReadExt(b, |pre|) == Some((x - 15, |pre| + |LengthBytes(x)|))
  {
    MoreIsRead(pre, x - 15, post);
    assert b == pre + More(x - 15) + post;
  }

  lemma TokenHalves(h: nat, l: nat)
    requires h <= 15 && l <= 15
    ensures (16 * h + l) / 16 == h && (16 * h + l) % 16 == l && 16 * h + l < 256
  {
  }

  lemma OffsetHalves(offset: nat)
    requires offset < 0x1_0000
    ensures offset / 256 < 256 && offset % 256 + 256 * (offset / 256) == offset
  {
  }

  // Where the pieces of a sequence lie.
  lemma SequenceParts(pre: seq<byte>, token: byte, ll: seq<byte>, lits: seq<byte>, rest: seq<byte>)
    ensures var b := pre + ([token] + ll + lits + rest);
      && b[|pre|] == token && b == (pre + [token]) + ll + (lits + rest)
      && b[|pre| + 1 + |ll|..|pre| + 1 + |ll| + |lits|] == lits
      && b == (pre + [token] + ll + lits) + rest && |pre + [token] + ll + lits| == |pre| + 1 + |ll| + |lits|
  {
    var b := pre + ([token] + ll + lits + rest);
    var q := pre + [token] + ll;
    assert b == q + (lits + rest);
    assert b[|q|..|q| + |lits|] == lits;
  }

  // The token, and the literals behind it.
  lemma LiteralsAreRead(b: seq<byte>, pre: seq<byte>, lits: seq<byte>, low: nat, rest: seq<byte>)
    requires low <= 15
    requires b == pre + ([16 * HalfToken(|lits|) + low] + LengthBytes(|lits|) + lits + rest)
    ensures var p := |pre| + 1 + |LengthBytes(|lits|)|;
      && |b| == p + |lits| + |rest| && b[p..p + |lits|] == lits
      && b[|pre|] / 16 == HalfToken(|lits|) && b[|pre|] % 16 == low
      && Rest(b, |pre| + 1, HalfToken(|lits|)) == Some((|lits| - HalfToken(|lits|), p))
  {
    var h := HalfToken(|lits|);
    TokenHalves(h, low);
    SequenceParts(pre, 16 * h + low, LengthBytes(|lits|), lits, rest);
    LengthIsRead(b, pre + [16 * h + low], |lits|, lits + rest);
  }

  // The offset and the match length behind the literals.
  lemma MatchIsRead(b: seq<byte>, pre: seq<byte>, offset: nat, x: nat, post: seq<byte>)
    requires offset < 0x1_0000 && b == pre + [offset % 256, offset / 256] + LengthBytes(x) + post
    ensures |b| >= |pre| + 2 && ReadLE16(b, |pre|) == offset
    ensures Rest(b, |pre| + 2, HalfToken(x)) == Some((x - HalfToken(x), |pre| + 2 + |LengthBytes(x)|))
  {
    var o: seq<byte> := [offset % 256, offset / 256];
    LengthIsRead(b, pre + o, x, post);
    assert b[|pre|] == o[0] && b[|pre| + 1] == o[1];
    OffsetHalves(offset);
  }

  // What a sequence is read as, from what is read of its parts.
  lemma PartsAreRead(b: seq<byte>, i: nat, lits: seq<byte>, p: nat, offset: nat, x: nat, next: nat)
    requires i < |b| && p + |lits| + 2 <= |b| && b[p..p + |lits|] == lits && ReadLE16(b, p + |lits|) == offset
    requires b[i] / 16 == HalfToken(|lits|) && b[i] % 16 == HalfToken(x)
    requires Rest(b, i + 1, HalfToken(|lits|)) == Some((|lits| - HalfToken(|lits|), p))
    requires Rest(b, p + |lits| + 2, HalfToken(x)) == Some((x - HalfToken(x), next))
    ensures ParseSeq(b, i) == Some(Match(lits, offset, x + 4, next))
  {
  }

  // Cutting the bytes of a sequence where its parts meet.
  lemma Cuts(pre: seq<byte>, t: seq<byte>, ll: seq<byte>, lits: seq<byte>, o: seq<byte>, ml: seq<byte>, post: seq<byte>)
    ensures pre + (t + ll + lits + o + ml) + post == pre + (t + ll + lits + (o + ml + post))
    ensures pre + (t + ll + lits + o + ml) + post == (pre + t + ll + lits) + o + ml + post
  {
    assert pre + (t + ll + lits) == pre + t + ll + lits;
    var f := t + ll + lits;
    assert pre + (f + o + ml) + post == pre + (f + (o + ml + post));
    assert pre + (f + o + ml) + post == (pre + f) + o + ml + post;
  }

  lemma PiecesAreRead(b: seq<byte>, pre: seq<byte>, ll: seq<byte>, lits: seq<byte>, offset: nat, x: nat, ml: seq<byte>,
                      post: seq<byte>)
    requires offset < 0x1_0000 && ll == LengthBytes(|lits|) && ml == LengthBytes(x)
    requires b == pre + ([16 * HalfToken(|lits|) + HalfToken(x)] + ll + lits + ([offset % 256, offset / 256] + ml + post))
    requires b == (pre + [16 * HalfToken(|lits|) + HalfToken(x)] + ll + lits) + [offset % 256, offset / 256] + ml + post
    ensures |pre| < |b|
    ensures ParseSeq(b, |pre|) == Some(Match(lits, offset, x + 4, |pre| + 1 + |ll| + |lits| + 2 + |ml|))
  {
    var p, front := |pre| + 1 + |ll|, pre + [16 * HalfToken(|lits|) + HalfToken(x)] + ll + lits;
    assert |front| == p + |lits|;
    LiteralsAreRead(b, pre, lits, HalfToken(x), [offset % 256, offset / 256] + ml + post);
    MatchIsRead(b, front, offset, x, post);
    PartsAreRead(b, |pre|, lits, p, offset, x, p + |lits| + 2 + |ml|);
  }

  // A sequence, wherever it stands in a block, is read as its literals, offset and length.
  lemma SequenceIsRead(b: seq<byte>, pre: seq<byte>, lits: seq<byte>, offset: nat, mlen: nat, post: seq<byte>)
    requires offset < 0x1_0000 && mlen >= 4 && b == pre + SequenceBytes(lits, offset, mlen) + post
    ensures |pre| < |b| && ParseSeq(b, |pre|) == Some(Match(lits, offset, mlen, |pre| + |SequenceBytes(lits, offset, mlen)|))
  {
    var ll, ml := LengthBytes(|lits|), LengthBytes(mlen - 4);
    Cuts(pre, [16 * HalfToken(|lits|) + HalfToken(mlen - 4)], ll, lits, [offset % 256, offset / 256], ml, post);
    PiecesAreRead(b, pre, ll, lits, offset, mlen - 4, ml, post);
  }

  lemma LastPartsAreRead(b: seq<byte>, i: nat, lits: seq<byte>, p: nat)
    requires i < |b| && p + |lits| == |b| && b[p..p + |lits|] == lits && b[i] / 16 == HalfToken(|lits|)
    requires Rest(b, i + 1, HalfToken(|lits|)) == Some((|lits| - HalfToken(|lits|), p))
    ensures ParseSeq(b, i) == Some(Last(lits))
  {
    assert b[p..] == b[p..p + |lits|];
  }

  // The closing literals end the block.
  lemma LastIsRead(pre: seq<byte>, lits: seq<byte>)
    ensures ParseSeq(pre + LastBytes(lits), |pre|) == Some(Last(lits))
  {
    var b := pre + LastBytes(lits);
    assert LastBytes(lits) == [16 * HalfToken(|lits|) + 0] + LengthBytes(|lits|) + lits + [];
    LiteralsAreRead(b, pre, lits, 0, []);
    LastPartsAreRead(b, |pre|, lits, |pre| + 1 + |LengthBytes(|lits|)|);
  }

  // ---- Whole blocks ------------------------------------------------------------------------------

  predicate Writable(seqs: seq<Sequence>) {
    forall s :: s in seqs ==> s.offset < 0x1_0000 && s.mlen >= 4
  }

  function BlockBytes(seqs: seq<Sequence>, lits: seq<byte>): seq<byte>
    requires Writable(seqs)
  {
    if seqs == [] then LastBytes(lits)
    else
      assert seqs[0] in seqs;
      SequenceBytes(seqs[0].lits, seqs[0].offset, seqs[0].mlen) + BlockBytes(seqs[1..], lits)
  }

  // What sequences say after `out`, each byte of a match being the one `offset` before it;
  // nothing, when a match reaches back before the beginning.
  function Says(seqs: seq<Sequence>, lits: seq<byte>, out: seq<byte>): Option<seq<byte>> {
    if seqs == [] then Some(out + lits)
    else
      var s, o := seqs[0], out + seqs[0].lits;
      if s.offset > |o| then None else Says(seqs[1..], lits, Copied(o, s.offset, s.mlen))
  }

  function Copied(out: seq<byte>, offset: nat, n: nat): (r: seq<byte>)
    requires offset <= |out|
    ensures |r| == |out| + n
    decreases n
  {
    if n == 0 then out
    else
      var before := Copied(out, offset, n - 1);
      before + [if offset == 0 then 0 else before[|before| - offset]]
  }

  lemma {:induction false} CopyOneMore(out: seq<byte>, offset: nat, n: nat)
    requires offset <= |out|
    ensures var c := CopyMatch(out, offset, n);
      CopyMatch(out, offset, n + 1) == c + [if offset == 0 then 0 else c[|c| - offset]]
    decreases n
  {
    if n > 0 {
      var b: byte := if offset == 0 then 0 else out[|out| - offset];
      CopyOneMore(out + [b], offset, n - 1);
    } else {
      assert CopyMatch(out, offset, 1) == CopyMatch(out + [if offset == 0 then 0 else out[|out| - offset]], offset, 0);
    }
  }

  lemma {:induction false} CopyIsCopied(out: seq<byte>, offset: nat, n: nat)
    requires offset <= |out|
    ensures CopyMatch(out, offset, n) == Copied(out, offset, n)
    decreases n
  {
    if n > 0 {
      CopyIsCopied(out, offset, n - 1);
      CopyOneMore(out, offset, n - 1);
    }
  }

  // The first sequence of a block, and where the others start.
  lemma BlockStep(b: seq<byte>, i: nat, seqs: seq<Sequence>, lits: seq<byte>)
    requires Writable(seqs) && seqs != [] && i <= |b| && b[i..] == BlockBytes(seqs, lits)
    ensures var s := seqs[0]; s in seqs && s.offset < 0x1_0000 && s.mlen >= 4
    ensures var s := seqs[0]; var q := i + |SequenceBytes(s.lits, s.offset, s.mlen)|;
      q <= |b| && b == b[..i] + SequenceBytes(s.lits, s.offset, s.mlen) + b[q..] && b[q..] == BlockBytes(seqs[1..], lits)
  {
    var s := seqs[0];
    assert s in seqs;
    var x, rest := SequenceBytes(s.lits, s.offset, s.mlen), BlockBytes(seqs[1..], lits);
    InTwo(b, i, x, rest);
  }

  lemma InTwo(b: seq<byte>, i: nat, x: seq<byte>, rest: seq<byte>)
    requires i <= |b| && b[i..] == x + rest
    ensures i + |x| <= |b| && b[i + |x|..] == rest && b == b[..i] + x + b[i + |x|..]
  {
    assert b == b[..i] + b[i..];
    assert b[i + |x|..] == b[i..][|x|..];
  }

  lemma DecodeStep(b: seq<byte>, i: nat, out: seq<byte>, s: Sequence, next: nat)
    requires i < |b| && ParseSeq(b, i) == Some(Match(s.lits, s.offset, s.mlen, next))
    ensures next <= |b| && Decode(b, i, out) == if s.offset > |out + s.lits| then None
                                             else Decode(b, next, Copied(out + s.lits, s.offset, s.mlen))
  {
    if s.offset <= |out + s.lits| {
      CopyIsCopied(out + s.lits, s.offset, s.mlen);
    }
  }

  lemma {:induction false} BlockIsRead(b: seq<byte>, i: nat, seqs: seq<Sequence>, lits: seq<byte>, out: seq<byte>)
    requires Writable(seqs) && i <= |b| && b[i..] == BlockBytes(seqs, lits)
    ensures Decode(b, i, out) == Says(seqs, lits, out)
    decreases |seqs|
  {
    if seqs == [] {
      assert b == b[..i] + LastBytes(lits);
      LastIsRead(b[..i], lits);
    } else {
      var s := seqs[0];
      BlockStep(b, i, seqs, lits);
      var q := i + |SequenceBytes(s.lits, s.offset, s.mlen)|;
      SequenceIsRead(b, b[..i], s.lits, s.offset, s.mlen, b[q..]);
      DecodeStep(b, i, out, s, q);
      if s.offset <= |out + s.lits| {
        BlockIsRead(b, q, seqs[1..], lits, Copied(out + s.lits, s.offset, s.mlen));
      }
    }
  }

  // Whatever sequences a block is written from, it decodes to what they say.
  lemma BlockDecodes(seqs: seq<Sequence>, lits: seq<byte>)
    requires Writable(seqs)
    ensures Decode(BlockBytes(seqs, lits), 0, []) == Says(seqs, lits, [])
  {
    var b := BlockBytes(seqs, lits);
    assert b[0..] == b;
    BlockIsRead(b, 0, seqs, lits, []);
  }
}
