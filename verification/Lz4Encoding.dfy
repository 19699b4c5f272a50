// Blocks as lists of sequences: how a sequence lies in a block, what the list
// decodes to, how long it can get, and why LZ4_decompress_safe takes it.

module Lz4Encoding {
  import opened Bytes
  import opened Lz4Format

  datatype Sequence = Sequence(lits: seq<byte>, offset: nat, mlen: nat)

  // ---- A sequence inside a block ---------------------------------------------

  function Nibble(x: nat): (r: nat)
    ensures r <= 15
  {
    if x < 15 then x else 15
  }

  // Extension bytes of a length.
  function ExtLen(x: nat): nat {
    if x < 15 then 0 else (x - 15) / 255 + 1
  }

  function LitLen(lit: nat): nat {
    1 + ExtLen(lit) + lit
  }

  function SeqLen(s: Sequence): nat
    requires s.mlen >= MINMATCH
  {
    LitLen(|s.lits|) + 2 + ExtLen(s.mlen - MINMATCH)
  }

  // The length x is spelled out from i on (its nibble is elsewhere).
  predicate ExtAt(b: seq<byte>, i: nat, x: nat) {
    i + ExtLen(x) <= |b| && (x >= 15 ==> ReadExt(b, i) == Some((x - 15, i + ExtLen(x))))
  }

  // A token with low half `low` and the literals lie at i.
  predicate LitAt(b: seq<byte>, i: nat, lits: seq<byte>, low: nat) {
    && i + LitLen(|lits|) <= |b|
    && b[i] / 16 == Nibble(|lits|) && b[i] % 16 == low
    && ExtAt(b, i + 1, |lits|)
    && b[i + 1 + ExtLen(|lits|)..i + LitLen(|lits|)] == lits
  }

  // An offset and a match length lie at q.
  predicate MatchAt(b: seq<byte>, q: nat, offset: nat, code: nat) {
    && q + 2 <= |b| && ReadLE16(b, q) == offset
    && ExtAt(b, q + 2, code)
  }

  predicate SeqAt(b: seq<byte>, i: nat, s: Sequence) {
    && s.mlen >= MINMATCH
    && LitAt(b, i, s.lits, Nibble(s.mlen - MINMATCH))
    && MatchAt(b, i + LitLen(|s.lits|), s.offset, s.mlen - MINMATCH)
  }

  // ---- Runs of sequences -------------------------------------------------------

  function Init<T>(s: seq<T>): seq<T>
    requires s != []
  {
    s[..|s| - 1]
  }

  function Back<T>(s: seq<T>): T
    requires s != []
  {
    s[|s| - 1]
  }

  predicate ValidSequence(s: Sequence) {
    1 <= s.offset <= 65535 && s.mlen >= 4
  }

  // The parsing restrictions of the block format inside n bytes of output: a match
  // starts at least 12 and ends at least 5 bytes before the end.
  predicate Fits(seqs: seq<Sequence>, n: nat) {
    seqs == [] ||
    (Fits(Init(seqs), n)
     && var s, at := Back(seqs), ExpandLen(Init(seqs)) + |Back(seqs).lits|;
     ValidSequence(s) && s.offset <= at && at <= n - 12 && at + s.mlen <= n - 5)
  }

  function ExpandLen(seqs: seq<Sequence>): nat {
    if seqs == [] then 0 else ExpandLen(Init(seqs)) + |Back(seqs).lits| + Back(seqs).mlen
  }

  // What the sequences decode to.
  function Expand(seqs: seq<Sequence>, n: nat): (r: seq<byte>)
    requires Fits(seqs, n)
    ensures |r| == ExpandLen(seqs)
  {
    if seqs == [] then []
    else CopyMatch(Expand(Init(seqs), n) + Back(seqs).lits, Back(seqs).offset, Back(seqs).mlen)
  }

  function EncLen(seqs: seq<Sequence>, n: nat): nat
    requires Fits(seqs, n)
  {
    if seqs == [] then 0 else EncLen(Init(seqs), n) + SeqLen(Back(seqs))
  }

  // The sequences are written at the start of b.
  predicate Written(b: seq<byte>, seqs: seq<Sequence>, n: nat)
    requires Fits(seqs, n)
  {
    seqs == [] || (Written(b, Init(seqs), n) && SeqAt(b, EncLen(Init(seqs), n), Back(seqs)))
  }

  // A whole block: sequences, then closing literals.
  predicate IsBlock(b: seq<byte>, seqs: seq<Sequence>, n: nat, lits: seq<byte>)
    requires Fits(seqs, n)
  {
    && Written(b, seqs, n)
    && LitAt(b, EncLen(seqs, n), lits, 0)
    && |b| == EncLen(seqs, n) + LitLen(|lits|)
  }

  lemma ExpandSnoc(seqs: seq<Sequence>, s: Sequence, n: nat)
    requires Fits(seqs, n) && ValidSequence(s)
    requires var at := ExpandLen(seqs) + |s.lits|;
             s.offset <= at && at <= n - 12 && at + s.mlen <= n - 5
    ensures Fits(seqs + [s], n)
    ensures Expand(seqs + [s], n) == CopyMatch(Expand(seqs, n) + s.lits, s.offset, s.mlen)
  {
    assert Init(seqs + [s]) == seqs;
  }

  // ---- Only the written part matters --------------------------------------------

  // b and c hold the same bytes from i up to j.
  predicate Same(b: seq<byte>, c: seq<byte>, i: nat, j: nat) {
    i <= j <= |b| && j <= |c| && b[i..j] == c[i..j]
  }

  lemma SameAt(b: seq<byte>, c: seq<byte>, i: nat, j: nat, k: nat)
    requires Same(b, c, i, j) && i <= k < j
    ensures b[k] == c[k]
  {
    assert b[k] == b[i..j][k - i] && c[k] == c[i..j][k - i];
  }

  lemma SameInside(b: seq<byte>, c: seq<byte>, i: nat, j: nat, i': nat, j': nat)
    requires Same(b, c, i, j) && i <= i' <= j' <= j
    ensures Same(b, c, i', j')
  {
    forall k | i' <= k < j'
      ensures b[k] == c[k]
    {
      SameAt(b, c, i, j, k);
    }
  }

  lemma {:induction false} ReadExtFrame(b: seq<byte>, c: seq<byte>, i: nat)
    requires ReadExt(b, i).Some? && Same(b, c, i, ReadExt(b, i).value.1)
    ensures ReadExt(c, i) == ReadExt(b, i)
    decreases |b| - i
  {
    var j := ReadExt(b, i).value.1;
    SameAt(b, c, i, j, i);
    if b[i] == 255 {
      SameInside(b, c, i, j, i + 1, j);
      ReadExtFrame(b, c, i + 1);
    }
  }

  lemma ExtFrame(b: seq<byte>, c: seq<byte>, i: nat, x: nat)
    requires ExtAt(b, i, x) && Same(b, c, i, i + ExtLen(x))
    ensures ExtAt(c, i, x)
  {
    if x >= 15 {
      ReadExtFrame(b, c, i);
    }
  }

  lemma LitFrame(b: seq<byte>, c: seq<byte>, i: nat, lits: seq<byte>, low: nat)
    requires LitAt(b, i, lits, low) && Same(b, c, i, i + LitLen(|lits|))
    ensures LitAt(c, i, lits, low)
  {
    var e := i + LitLen(|lits|);
    SameAt(b, c, i, e, i);
    SameInside(b, c, i, e, i + 1, i + 1 + ExtLen(|lits|));
    ExtFrame(b, c, i + 1, |lits|);
    SameInside(b, c, i, e, i + 1 + ExtLen(|lits|), e);
  }

  lemma MatchFrame(b: seq<byte>, c: seq<byte>, q: nat, offset: nat, code: nat)
    requires MatchAt(b, q, offset, code) && Same(b, c, q, q + 2 + ExtLen(code))
    ensures MatchAt(c, q, offset, code)
  {
    var e := q + 2 + ExtLen(code);
    SameAt(b, c, q, e, q);
    SameAt(b, c, q, e, q + 1);
    SameInside(b, c, q, e, q + 2, e);
    ExtFrame(b, c, q + 2, code);
  }

  lemma SeqFrame(b: seq<byte>, c: seq<byte>, i: nat, s: Sequence)
    requires SeqAt(b, i, s) && Same(b, c, i, i + SeqLen(s))
    ensures SeqAt(c, i, s)
  {
    SameInside(b, c, i, i + SeqLen(s), i, i + LitLen(|s.lits|));
    LitFrame(b, c, i, s.lits, Nibble(s.mlen - MINMATCH));
    SameInside(b, c, i, i + SeqLen(s), i + LitLen(|s.lits|), i + SeqLen(s));
    MatchFrame(b, c, i + LitLen(|s.lits|), s.offset, s.mlen - MINMATCH);
  }

  lemma {:induction false} WrittenFrame(b: seq<byte>, c: seq<byte>, seqs: seq<Sequence>, n: nat)
    requires Fits(seqs, n) && Written(b, seqs, n) && Same(b, c, 0, EncLen(seqs, n))
    ensures Written(c, seqs, n)
  {
    if seqs != [] {
      var e := EncLen(Init(seqs), n);
      SameInside(b, c, 0, EncLen(seqs, n), 0, e);
      WrittenFrame(b, c, Init(seqs), n);
      SameInside(b, c, 0, EncLen(seqs, n), e, EncLen(seqs, n));
      SeqFrame(b, c, e, Back(seqs));
    }
  }

  // One more sequence.
  lemma WrittenSnoc(b: seq<byte>, c: seq<byte>, seqs: seq<Sequence>, s: Sequence, n: nat)
    requires Fits(seqs, n) && Fits(seqs + [s], n)
    requires Written(b, seqs, n) && Same(b, c, 0, EncLen(seqs, n))
    requires SeqAt(c, EncLen(seqs, n), s)
    ensures Written(c, seqs + [s], n)
    ensures EncLen(seqs + [s], n) == EncLen(seqs, n) + SeqLen(s)
  {
    WrittenFrame(b, c, seqs, n);
    assert Init(seqs + [s]) == seqs;
  }

  // ---- Parsing what was written ---------------------------------------------------

  lemma ParseAt(b: seq<byte>, i: nat, s: Sequence)
    requires SeqAt(b, i, s)
    ensures i < |b| && ParseSeq(b, i) == Some(Match(s.lits, s.offset, s.mlen, i + SeqLen(s)))
  {
  }

  lemma SafeLitsTakes(b: seq<byte>, cap: nat, i: nat, outLen: nat, lits: seq<byte>, low: nat)
    requires LitAt(b, i, lits, low)
    requires i + LitLen(|lits|) + 8 <= |b| && outLen + |lits| <= cap - MFLIMIT
    ensures SafeLits(b, cap, i, outLen) == Some((i + 1 + ExtLen(|lits|), |lits|, false))
  {
    if |lits| >= 15 {
      ReadVarIsReadExt(b, i + 1, |b| - 15);
    }
  }

  lemma SafeMatchTakes(b: seq<byte>, cap: nat, i: nat, short: bool, q: nat, outLen: nat,
                       offset: nat, code: nat)
    requires i < |b| && MatchAt(b, q, offset, code) && b[i] % 16 == Nibble(code)
    requires q + 2 + ExtLen(code) + 6 <= |b| && (short ==> outLen <= cap - 18)
    requires offset <= outLen && outLen + code + MINMATCH <= cap - LASTLITERALS
    ensures SafeMatch(b, cap, i, short, q, outLen)
            == Some((offset, code + MINMATCH, q + 2 + ExtLen(code)))
  {
    if code >= 15 {
      ReadVarIsReadExt(b, q + 2, |b| - 4);
    }
  }

  // The safe loop takes a written sequence when the parsing restrictions hold
  // and at least six bytes (a token and five literals) follow.
  lemma SafeAt(b: seq<byte>, i: nat, s: Sequence, n: nat, outLen: nat)
    requires SeqAt(b, i, s) && i + SeqLen(s) + 1 + LASTLITERALS <= |b|
    requires s.offset <= outLen + |s.lits| <= n - MFLIMIT
    requires outLen + |s.lits| + s.mlen <= n - LASTLITERALS
    ensures SafeSeq(b, n, i, outLen) == Some(Match(s.lits, s.offset, s.mlen, i + SeqLen(s)))
  {
    SafeLitsTakes(b, n, i, outLen, s.lits, Nibble(s.mlen - MINMATCH));
    SafeMatchTakes(b, n, i, Shortcut(b, n, i, outLen), i + LitLen(|s.lits|), outLen + |s.lits|,
                   s.offset, s.mlen - MINMATCH);
  }

  lemma ParseLast(b: seq<byte>, i: nat, lits: seq<byte>)
    requires LitAt(b, i, lits, 0) && |b| == i + LitLen(|lits|)
    ensures ParseSeq(b, i) == Some(Last(lits))
  {
    assert b[|b| - |lits|..] == b[|b| - |lits|..|b|];
  }

  lemma SafeLast(b: seq<byte>, i: nat, lits: seq<byte>, n: nat, outLen: nat)
    requires LitAt(b, i, lits, 0) && |b| == i + LitLen(|lits|) && outLen + |lits| <= n
    ensures SafeSeq(b, n, i, outLen) == Some(Last(lits))
  {
    assert b[|b| - |lits|..] == b[|b| - |lits|..|b|];
    if |lits| >= 15 {
      ReadVarIsReadExt(b, i + 1, |b| - 15);
    }
  }

  // ---- Whole blocks -----------------------------------------------------------------

  lemma DecodeStep(b: seq<byte>, i: nat, s: Sequence, out: seq<byte>, next: nat, out': seq<byte>)
    requires SeqAt(b, i, s) && s.offset <= |out| + |s.lits|
    requires next == i + SeqLen(s) && out' == CopyMatch(out + s.lits, s.offset, s.mlen)
    ensures next <= |b|
    ensures Decode(b, i, out) == Decode(b, next, out')
  {
    ParseAt(b, i, s);
  }

  lemma SafeStep(b: seq<byte>, i: nat, s: Sequence, n: nat, out: seq<byte>, next: nat, out': seq<byte>)
    requires SeqAt(b, i, s) && next == i + SeqLen(s) && next + 1 + LASTLITERALS <= |b|
    requires s.offset <= |out| + |s.lits| <= n - MFLIMIT
    requires |out| + |s.lits| + s.mlen <= n - LASTLITERALS
    requires out' == CopyMatch(out + s.lits, s.offset, s.mlen)
    ensures SafeFrom(b, n, i, out) == SafeFrom(b, n, next, out')
  {
    SafeAt(b, i, s, n, |out|);
  }

  // Decoding walks through the written sequences.
  lemma {:induction false} DecodeThrough(b: seq<byte>, seqs: seq<Sequence>, n: nat)
    requires Fits(seqs, n) && Written(b, seqs, n)
    ensures EncLen(seqs, n) <= |b|
    ensures Decode(b, 0, []) == Decode(b, EncLen(seqs, n), Expand(seqs, n))
  {
    if seqs != [] {
      DecodeThrough(b, Init(seqs), n);
      DecodeStep(b, EncLen(Init(seqs), n), Back(seqs), Expand(Init(seqs), n),
                 EncLen(seqs, n), Expand(seqs, n));
    }
  }

  lemma {:induction false} SafeThrough(b: seq<byte>, seqs: seq<Sequence>, n: nat)
    requires Fits(seqs, n) && Written(b, seqs, n)
    requires EncLen(seqs, n) + 1 + LASTLITERALS <= |b| && ExpandLen(seqs) <= n
    ensures SafeFrom(b, n, 0, []) == SafeFrom(b, n, EncLen(seqs, n), Expand(seqs, n))
  {
    if seqs != [] {
      SafeThrough(b, Init(seqs), n);
      SafeStep(b, EncLen(Init(seqs), n), Back(seqs), n, Expand(Init(seqs), n),
               EncLen(seqs, n), Expand(seqs, n));
    }
  }

  // A block decodes to the bytes its sequences and closing literals stand for.
  lemma BlockDecodes(b: seq<byte>, seqs: seq<Sequence>, n: nat, lits: seq<byte>)
    requires Fits(seqs, n) && IsBlock(b, seqs, n, lits)
    ensures Decode(b, 0, []) == Some(Expand(seqs, n) + lits)
  {
    DecodeThrough(b, seqs, n);
    ParseLast(b, EncLen(seqs, n), lits);
  }

  // The C decoder, given exactly that much room, takes the block.
  lemma BlockSafelyDecodes(b: seq<byte>, seqs: seq<Sequence>, n: nat, lits: seq<byte>)
    requires Fits(seqs, n) && IsBlock(b, seqs, n, lits) && n == ExpandLen(seqs) + |lits| && n > 0
    requires seqs != [] ==> |lits| >= LASTLITERALS
    ensures SafeDecode(b, n) == Some(Expand(seqs, n) + lits)
  {
    if seqs != [] {
      SafeThrough(b, seqs, n);
    }
    SafeLast(b, EncLen(seqs, n), lits, n, ExpandLen(seqs));
  }

  // What every block must respect, read off its parse: offsets in 1..65535 that
  // stay inside the output, no match starting in the last 11 bytes of output,
  // and a closing run of at least 5 literals after any match.
  ghost predicate ObeysRules(b: seq<byte>, i: nat, outLen: nat, n: nat)
    requires i <= |b|
    decreases |b| - i
  {
    i < |b| && match ParseSeq(b, i)
      case None => false
      case Some(Last(lits)) => outLen + |lits| == n && (i > 0 ==> |lits| >= LASTLITERALS)
      case Some(Match(lits, offset, mlen, next)) =>
        1 <= offset <= DISTANCE_MAX && offset <= outLen + |lits|
        && outLen + |lits| <= n - MFLIMIT
        && ObeysRules(b, next, outLen + |lits| + mlen, n)
  }

  lemma RulesStep(b: seq<byte>, i: nat, s: Sequence, outLen: nat, n: nat)
    requires SeqAt(b, i, s) && i + SeqLen(s) <= |b|
    requires ValidSequence(s) && s.offset <= outLen + |s.lits| <= n - MFLIMIT
    requires ObeysRules(b, i + SeqLen(s), outLen + |s.lits| + s.mlen, n)
    ensures ObeysRules(b, i, outLen, n)
  {
    ParseAt(b, i, s);
  }

  lemma {:induction false} RulesThrough(b: seq<byte>, seqs: seq<Sequence>, n: nat)
    requires Fits(seqs, n) && Written(b, seqs, n) && EncLen(seqs, n) <= |b|
    requires ObeysRules(b, EncLen(seqs, n), ExpandLen(seqs), n)
    ensures ObeysRules(b, 0, 0, n)
  {
    if seqs != [] {
      RulesStep(b, EncLen(Init(seqs), n), Back(seqs), ExpandLen(Init(seqs)), n);
      RulesThrough(b, Init(seqs), n);
    }
  }

  lemma BlockObeysRules(b: seq<byte>, seqs: seq<Sequence>, n: nat, lits: seq<byte>)
    requires Fits(seqs, n) && IsBlock(b, seqs, n, lits) && n == ExpandLen(seqs) + |lits|
    requires seqs != [] ==> |lits| >= LASTLITERALS
    ensures ObeysRules(b, 0, 0, n)
  {
    ParseLast(b, EncLen(seqs, n), lits);
    RulesThrough(b, seqs, n);
  }

  // A block that obeys the rules never shows a decoder a zero offset.
  lemma {:induction false} RulesMeanNoZeroOffset(b: seq<byte>, i: nat, out: seq<byte>, n: nat)
    requires i <= |b| && ObeysRules(b, i, |out|, n)
    ensures !MeetsZeroOffset(b, i, out)
    decreases |b| - i
  {
    match ParseSeq(b, i)
    case Some(Match(lits, offset, mlen, next)) =>
      RulesMeanNoZeroOffset(b, next, CopyMatch(out + lits, offset, mlen), n);
    case _ =>
  }

  // ---- Size ----------------------------------------------------------------------------

  // LZ4_COMPRESSBOUND
  function CompressBound(n: nat): nat {
    n + n / 255 + 16
  }

  // Sequences cost at most one byte in 255 more than they cover.
  lemma {:induction false} EncodedSize(seqs: seq<Sequence>, n: nat)
    requires Fits(seqs, n)
    ensures 255 * (EncLen(seqs, n) - ExpandLen(seqs)) <= ExpandLen(seqs)
  {
    if seqs != [] {
      EncodedSize(Init(seqs), n);
    }
  }
}
