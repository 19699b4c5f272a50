// The LZ4 block format: what a block means when it is decoded one byte at a
// time, and which blocks the C decoder (LZ4_decompress_safe) accepts.

module Lz4Format {
  import opened Bytes

  const MINMATCH: int := 4
  const LASTLITERALS: int := 5
  const MFLIMIT: int := 12
  const RUN_MASK: int := 15
  const ML_MASK: int := 15
  const DISTANCE_MAX: int := 65535

  // ---- Match copying ------------------------------------------------------

  // Overlapping byte-at-a-time copy. A zero offset is outside the format; the
  // C decoder fills with zeros there, and so does this function.
  function CopyMatch(out: seq<byte>, offset: nat, len: nat): (r: seq<byte>)
    requires offset <= |out|
    ensures |r| == |out| + len
    decreases len
  {
    if len == 0 then out
    else CopyMatch(out + [if offset == 0 then 0 else out[|out| - offset]], offset, len - 1)
  }

  // The byte an endless match would put at index j.
  function Ext(out: seq<byte>, offset: nat, j: nat): byte
    requires offset <= |out|
    decreases j
  {
    if j < |out| then out[j]
    else if offset == 0 then 0
    else Ext(out, offset, j - offset)
  }

  lemma {:induction false} ExtSkip(out: seq<byte>, offset: nat, j: nat)
    requires offset <= |out| <= j
    ensures var b := if offset == 0 then 0 else out[|out| - offset];
            Ext(out + [b], offset, j) == Ext(out, offset, j)
    decreases j
  {
    var b := if offset == 0 then 0 else out[|out| - offset];
    if j > |out| && offset > 0 && j - offset >= |out| {
      ExtSkip(out, offset, j - offset);
    }
  }

  // CopyMatch read by index.
  lemma {:induction false} CopyMatchAt(out: seq<byte>, offset: nat, len: nat, j: nat)
    requires offset <= |out| && j < |out| + len
    ensures CopyMatch(out, offset, len)[j] == Ext(out, offset, j)
    decreases len
  {
    if len > 0 {
      var b := if offset == 0 then 0 else out[|out| - offset];
      CopyMatchAt(out + [b], offset, len - 1, j);
      if j >= |out| {
        ExtSkip(out, offset, j);
      }
    }
  }

  // ---- Variable lengths ---------------------------------------------------

  // Reads an extension from b[i..]; the value and the index after it.
  function ReadExt(b: seq<byte>, i: nat): (r: Option<(nat, nat)>)
    ensures r.Some? ==> i < r.value.1 <= |b|
    decreases |b| - i
  {
    if i >= |b| then None
    else if b[i] != 255 then Some((b[i], i + 1))
    else match ReadExt(b, i + 1)
      case None => None
      case Some((v, j)) => Some((v + 255, j))
  }

  // read_variable_length: as ReadExt, but gives up when the index after a byte
  // passes `limit`.
  function ReadVar(b: seq<byte>, i: nat, limit: int): (r: Option<(nat, nat)>)
    requires i < |b| && limit < |b|
    ensures r.Some? ==> i < r.value.1 <= limit
    decreases |b| - i
  {
    if i + 1 > limit then None
    else if b[i] != 255 then Some((b[i], i + 1))
    else match ReadVar(b, i + 1, limit)
      case None => None
      case Some((v, j)) => Some((v + 255, j))
  }

  // The limit only rejects; it never changes the value read.
  lemma {:induction false} ReadVarIsReadExt(b: seq<byte>, i: nat, limit: int)
    requires i < |b| && limit < |b|
    ensures ReadVar(b, i, limit) ==
            if ReadExt(b, i).Some? && ReadExt(b, i).value.1 <= limit then ReadExt(b, i) else None
    decreases |b| - i
  {
    if i + 1 <= limit {
      if b[i] == 255 {
        ReadVarIsReadExt(b, i + 1, limit);
      }
    }
  }

  function ReadLE16(b: seq<byte>, i: nat): nat
    requires i + 1 < |b|
  {
    var lo: nat, hi: nat := b[i], b[i + 1];
    lo + 256 * hi
  }

  // ---- The meaning of a block ---------------------------------------------

  // One parsed sequence: literals b[lit..lit+litLen], then a match, next token at `next`.
  datatype Step =
    | Last(lits: seq<byte>)
    | Match(lits: seq<byte>, offset: nat, mlen: nat, next: nat)

  // Parses the sequence whose token is at i. Nothing but the format itself is
  // checked here: lengths and literals must lie inside the block.
  function ParseSeq(b: seq<byte>, i: nat): (r: Option<Step>)
    requires i < |b|
    ensures r.Some? && r.value.Match? ==> i < r.value.next <= |b|
  {
    var lv := if b[i] / 16 == RUN_MASK then ReadExt(b, i + 1) else Some((0, i + 1));
    if lv.None? then None else
    var lit, p := b[i] / 16 + lv.value.0, lv.value.1;
    if p + lit > |b| then None
    else if p + lit == |b| then Some(Last(b[p..]))
    else if p + lit + 2 > |b| then None else
    var offset := ReadLE16(b, p + lit);
    var mv := if b[i] % 16 == ML_MASK then ReadExt(b, p + lit + 2) else Some((0, p + lit + 2));
    if mv.None? then None
    else Some(Match(b[p..p + lit], offset, b[i] % 16 + mv.value.0 + MINMATCH, mv.value.1))
  }

  // The simple decoder: literals, then a byte-at-a-time match, until the input ends.
  function Decode(b: seq<byte>, i: nat, out: seq<byte>): (r: Option<seq<byte>>)
    requires i <= |b|
    ensures r.Some? ==> |r.value| >= |out|
    decreases |b| - i
  {
    if i == |b| then Some(out)
    else match ParseSeq(b, i)
      case None => None
      case Some(Last(lits)) => Some(out + lits)
      case Some(Match(lits, offset, mlen, next)) =>
        if offset > |out + lits| then None
        else Decode(b, next, CopyMatch(out + lits, offset, mlen))
  }

  // True when decoding meets an offset of zero, which the format forbids.
  ghost predicate MeetsZeroOffset(b: seq<byte>, i: nat, out: seq<byte>)
    requires i <= |b|
    decreases |b| - i
  {
    i < |b| && match ParseSeq(b, i)
      case Some(Match(lits, offset, mlen, next)) =>
        offset <= |out + lits| &&
        (offset == 0 || MeetsZeroOffset(b, next, CopyMatch(out + lits, offset, mlen)))
      case _ => false
  }

  // ---- What LZ4_decompress_safe accepts -----------------------------------

  // The two-stage shortcut is entered with short literals and room to spare on both sides.
  predicate Shortcut(b: seq<byte>, cap: nat, i: nat, outLen: nat)
    requires i < |b|
  {
    b[i] / 16 != RUN_MASK && i + 1 < |b| - 16 && outLen <= cap - 32
  }

  // The literal length of the sequence at i and where the literals start.
  function SafeLitLength(b: seq<byte>, i: nat): (r: Option<(nat, nat)>)
    requires i < |b|
    ensures r.Some? ==> i < r.value.1 <= |b|
  {
    if b[i] / 16 != RUN_MASK then Some((b[i] / 16, i + 1))
    else if i + 1 >= |b| - 15 then None
    else match ReadVar(b, i + 1, |b| - 15)
      case None => None
      case Some((v, p)) => Some((RUN_MASK + v, p))
  }

  // The literals of the sequence at i: where they start, how many there are, and
  // whether they must be the last. Outside the shortcut a run that comes near
  // either end of its buffer must be the last one and fit exactly.
  function SafeLits(b: seq<byte>, cap: nat, i: nat, outLen: nat): (r: Option<(nat, nat, bool)>)
    requires i < |b| && outLen <= cap
    ensures r.Some? ==> var (p, lit, last) := r.value;
                        i < p && outLen + lit <= cap && p + lit <= |b|
                        && (last ==> p + lit == |b|)
                        && (!last ==> p + lit + 2 <= |b| - 1)
                        && (!last ==> outLen + lit <= cap - 12)
                        && (!last && !Shortcut(b, cap, i, outLen) ==> p + lit <= |b| - 8)
  {
    match SafeLitLength(b, i)
    case None => None
    case Some((lit, p)) =>
    if !Shortcut(b, cap, i, outLen) && (outLen + lit > cap - MFLIMIT || p + lit > |b| - 8) then
      if p + lit == |b| && outLen + lit <= cap then Some((p, lit, true)) else None
    else Some((p, lit, false))
  }

  // The match of the sequence at i: the code is the token's low half, its offset is at q.
  // Outside the shortcut's second stage a match must leave LASTLITERALS bytes of output.
  function SafeMatch(b: seq<byte>, cap: nat, i: nat, short: bool, q: nat, outLen: nat)
    : (r: Option<(nat, nat, nat)>)
    requires i < |b| && q + 2 < |b|
    requires short ==> outLen <= cap - 18
    ensures r.Some? ==> var (offset, mlen, next) := r.value;
                        offset <= outLen && mlen >= MINMATCH && outLen + mlen <= cap && q < next < |b|
  {
    var offset := ReadLE16(b, q);
    var mv := if b[i] % 16 == ML_MASK then ReadVar(b, q + 2, |b| - 4) else Some((0, q + 2));
    if mv.None? then None else
    var mlen := b[i] % 16 + mv.value.0 + MINMATCH;
    if offset > outLen then None
    else if !(short && b[i] % 16 != ML_MASK && offset >= 8) && outLen + mlen > cap - LASTLITERALS
    then None
    else Some((offset, mlen, mv.value.1))
  }

  // One turn of the safe loop's parsing.
  function SafeSeq(b: seq<byte>, cap: nat, i: nat, outLen: nat): (r: Option<Step>)
    requires i < |b| && outLen <= cap
    ensures r.Some? && r.value.Match? ==> i < r.value.next < |b|
    ensures r.Some? && r.value.Match? ==>
              r.value.offset <= outLen + |r.value.lits| && outLen + |r.value.lits| + r.value.mlen <= cap
    ensures r.Some? && r.value.Last? ==> outLen + |r.value.lits| <= cap
  {
    match SafeLits(b, cap, i, outLen)
    case None => None
    case Some((p, lit, last)) =>
      if last then Some(Last(b[p..]))
      else match SafeMatch(b, cap, i, Shortcut(b, cap, i, outLen), p + lit, outLen + lit)
        case None => None
        case Some((offset, mlen, next)) => Some(Match(b[p..p + lit], offset, mlen, next))
  }

  function SafeFrom(b: seq<byte>, cap: nat, i: nat, out: seq<byte>): (r: Option<seq<byte>>)
    requires i < |b| && |out| <= cap
    ensures r.Some? ==> |r.value| <= cap
    decreases |b| - i
  {
    match SafeSeq(b, cap, i, |out|)
    case None => None
    case Some(Last(lits)) => Some(out + lits)
    case Some(Match(lits, offset, mlen, next)) =>
      SafeFrom(b, cap, next, CopyMatch(out + lits, offset, mlen))
  }

  // LZ4_decompress_safe as a function of the block and the capacity.
  function SafeDecode(b: seq<byte>, cap: nat): (r: Option<seq<byte>>)
    ensures r.Some? ==> |r.value| <= cap
  {
    if cap == 0 then (if |b| == 1 && b[0] == 0 then Some([]) else None)
    else if |b| == 0 then None
    else SafeFrom(b, cap, 0, [])
  }

  // A step the safe loop accepts is the step the format describes.
  lemma SafeSeqIsParseSeq(b: seq<byte>, cap: nat, i: nat, outLen: nat)
    requires i < |b| && outLen <= cap
    requires SafeSeq(b, cap, i, outLen).Some?
    ensures ParseSeq(b, i) == SafeSeq(b, cap, i, outLen)
  {
    if b[i] / 16 == RUN_MASK {
      ReadVarIsReadExt(b, i + 1, |b| - 15);
    }
    var s := SafeSeq(b, cap, i, outLen).value;
    if s.Match? && b[i] % 16 == ML_MASK {
      var lv := if b[i] / 16 == RUN_MASK then ReadExt(b, i + 1) else Some((0, i + 1));
      var q := lv.value.1 + b[i] / 16 + lv.value.0 + 2;
      ReadVarIsReadExt(b, q, |b| - 4);
    }
  }

  lemma {:induction false} SafeFromIsDecode(b: seq<byte>, cap: nat, i: nat, out: seq<byte>)
    requires i < |b| && |out| <= cap
    requires SafeFrom(b, cap, i, out).Some?
    ensures Decode(b, i, out) == SafeFrom(b, cap, i, out)
    decreases |b| - i
  {
    SafeSeqIsParseSeq(b, cap, i, |out|);
    match SafeSeq(b, cap, i, |out|)
    case Some(Match(lits, offset, mlen, next)) =>
      SafeFromIsDecode(b, cap, next, CopyMatch(out + lits, offset, mlen));
    case _ =>
  }

  // Whatever the C decoder accepts, it decodes as the simple decoder does.
  lemma SafeDecodeIsDecode(b: seq<byte>, cap: nat)
    requires SafeDecode(b, cap).Some?
    ensures Decode(b, 0, []) == SafeDecode(b, cap)
  {
    if cap == 0 {
      assert b == [0];
      assert Decode(b, 0, []) == Some([] + b[1..]);
    } else {
      SafeFromIsDecode(b, cap, 0, []);
    }
  }
}
