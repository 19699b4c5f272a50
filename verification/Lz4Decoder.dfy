// LZ4_decompress_safe on real buffers: over-wide copies, the overlap tables and
// the 18-byte shortcut, proved equal to the byte-at-a-time meaning of a block.

module Lz4Decoder {
  import opened Bytes
  import opened Lz4Copy
  import opened Lz4Format

  const INC32: seq<int> := [0, 1, 2, 1, 0, 4, 4, 4]
  const DEC64: seq<int> := [0, 0, 0, -1, -4, 1, 2, 3]

  // ---- Periodicity of a match ---------------------------------------------

  // From index `from` on, reading `dist` back stays inside the same endless match.
  predicate KeepsPeriod(outLen: nat, offset: nat, dist: nat, from: int) {
    && (offset == 0 || IsMultiple(dist, offset))
    && outLen + dist - offset <= from
  }

  predicate IsMultiple(dist: nat, offset: nat)
    requires offset > 0
    decreases dist
  {
    dist == offset || (dist > offset && IsMultiple(dist - offset, offset))
  }

  // Going back by a whole number of periods reads the same byte.
  lemma {:induction false} ExtBack(out: seq<byte>, offset: nat, j: nat, dist: nat)
    requires offset <= |out| && KeepsPeriod(|out|, offset, dist, j)
    ensures dist <= j && Ext(out, offset, j) == Ext(out, offset, j - dist)
    decreases dist
  {
    if dist > offset > 0 {
      ExtBack(out, offset, j, dist - offset);
    }
  }

  // The distance the decoder copies from after its first eight bytes.
  function SafeDistance(offset: nat): (r: nat)
    ensures r >= 8
    ensures offset == 0 ==> r == 8
    ensures offset > 0 ==> r <= offset + 8 && IsMultiple(r, offset)
  {
    assert forall k :: 1 <= k <= 3 ==> IsMultiple(k, 1);
    assert forall k :: 4 <= k <= 6 ==> IsMultiple(k, 1);
    if offset < 8 then 8 + offset - INC32[offset] + DEC64[offset] else offset
  }

  // ---- Copying a match ----------------------------------------------------

  // `upTo` bytes of dst hold the endless match started at |out|.
  ghost predicate Filled(dst: array<byte>, out: seq<byte>, offset: nat, upTo: nat)
    requires offset <= |out| && upTo <= dst.Length
    reads dst
  {
    forall j {:trigger dst[j]} :: 0 <= j < upTo ==> dst[j] == Ext(out, offset, j)
  }

  lemma FilledIsCopyMatch(dst: array<byte>, out: seq<byte>, offset: nat, mlen: nat)
    requires offset <= |out| && |out| + mlen <= dst.Length
    requires Filled(dst, out, offset, |out| + mlen)
    ensures dst[..|out| + mlen] == CopyMatch(out, offset, mlen)
  {
    forall j | 0 <= j < |out| + mlen
      ensures dst[j] == CopyMatch(out, offset, mlen)[j]
    {
      CopyMatchAt(out, offset, mlen, j);
    }
  }

  // memcpy at a distance that keeps the period.
  method CopyPeriod(dst: array<byte>, ghost out: seq<byte>, ghost offset: nat, d: nat, s: nat, n: nat)
    requires offset <= |out| && s + n <= d && d + n <= dst.Length
    requires KeepsPeriod(|out|, offset, d - s, d)
    requires Filled(dst, out, offset, d)
    modifies dst
    ensures Filled(dst, out, offset, d + n)
    ensures forall j :: d + n <= j < dst.Length ==> dst[j] == old(dst[j])
  {
    CopyWithin(dst, d, s, n);
    forall j | 0 <= j < d + n
      ensures dst[j] == Ext(out, offset, j)
    {
      if j >= d {
        ExtBack(out, offset, j, d - s);
        assert dst[j] == old(dst[j - (d - s)]);
      } else {
        assert dst[j] == old(dst[j]);
      }
    }
  }

  // LZ4_wildCopy8 inside the output buffer, at a distance of at least eight.
  method WildCopyPeriod(dst: array<byte>, ghost out: seq<byte>, ghost offset: nat, d: nat, s: nat, e: nat)
    requires offset <= |out| && s + 8 <= d && KeepsPeriod(|out|, offset, d - s, d)
    requires WildEnd(d, e) <= dst.Length
    requires Filled(dst, out, offset, d)
    modifies dst
    ensures Filled(dst, out, offset, WildEnd(d, e))
    ensures forall j :: WildEnd(d, e) <= j < dst.Length ==> dst[j] == old(dst[j])
  {
    var dd, ss := d, s;
    CopyPeriod(dst, out, offset, dd, ss, 8);
    dd, ss := dd + 8, ss + 8;
    while dd < e
      invariant d + 8 <= dd <= WildEnd(d, e) && dd - ss == d - s
      invariant if dd < e then WildEnd(dd, e) == WildEnd(d, e) else dd == WildEnd(d, e)
      invariant Filled(dst, out, offset, dd)
      invariant forall j :: dd <= j < dst.Length ==> dst[j] == old(dst[j])
    {
      CopyPeriod(dst, out, offset, dd, ss, 8);
      dd, ss := dd + 8, ss + 8;
    }
  }

  // The byte-by-byte tail of a match.
  method CopyTail(dst: array<byte>, ghost out: seq<byte>, ghost offset: nat, d: nat, s: nat, e: nat)
    requires offset <= |out| && s < d && KeepsPeriod(|out|, offset, d - s, d)
    requires d <= dst.Length && e <= dst.Length
    requires Filled(dst, out, offset, d)
    modifies dst
    ensures e >= d ==> Filled(dst, out, offset, e)
    ensures Filled(dst, out, offset, d)
    ensures forall j :: (if e >= d then e else d) <= j < dst.Length ==> dst[j] == old(dst[j])
  {
    var dd, ss := d, s;
    while dd < e
      invariant d <= dd && (dd <= e || dd == d) && dd - ss == d - s
      invariant Filled(dst, out, offset, dd)
      invariant forall j :: dd <= j < dst.Length ==> dst[j] == old(dst[j])
    {
      ExtBack(out, offset, dd, d - s);
      dst[dd] := dst[ss];
      dd, ss := dd + 1, ss + 1;
    }
  }

  // The first four bytes of a match, one at a time.
  method CopyFirst4(dst: array<byte>, op: nat, m: nat)
    requires m <= op && op + 4 <= dst.Length
    modifies dst
    ensures Filled(dst, old(dst[..op]), op - m, op + 4)
    ensures forall j :: op + 4 <= j < dst.Length ==> dst[j] == old(dst[j])
  {
    ghost var out, offset := dst[..op], op - m;
    dst[op], dst[op + 1], dst[op + 2], dst[op + 3] := 0, 0, 0, 0;
    var k := 0;
    while k < 4
      invariant 0 <= k <= 4
      invariant Filled(dst, out, offset, op + k)
      invariant forall j :: op + k <= j < op + 4 ==> dst[j] == 0
      invariant forall j :: op + 4 <= j < dst.Length ==> dst[j] == old(dst[j])
    {
      if offset > 0 {
        ExtBack(out, offset, op + k, offset);
      }
      dst[op + k] := dst[m + k];
      k := k + 1;
    }
  }

  // The first eight bytes of a match when the offset is below eight: four single
  // bytes, then four more from a table-corrected position.
  method CopyFirst8Short(dst: array<byte>, op: nat, offset: nat) returns (m: nat)
    requires offset < 8 && offset <= op && op + 8 <= dst.Length
    modifies dst
    ensures Filled(dst, old(dst[..op]), offset, op + 8)
    ensures m <= op + 8 && op + 8 - m == SafeDistance(offset)
    ensures forall j :: op + 8 <= j < dst.Length ==> dst[j] == old(dst[j])
  {
    ghost var out := dst[..op];
    m := op - offset;
    CopyFirst4(dst, op, m);
    m := m + INC32[offset];
    CopyPeriod(dst, out, offset, op + 4, m, 4);
    m := m - DEC64[offset];
  }

  // The match copy of the main loop; false is the LASTLITERALS error.
  method CopyMatchSafe(dst: array<byte>, cap: nat, op: nat, offset: nat, mlen: nat) returns (ok: bool)
    requires cap <= dst.Length && offset <= op <= cap - 12 && mlen >= 4
    modifies dst
    ensures ok == (op + mlen <= cap - LASTLITERALS)
    ensures ok ==> dst[..op + mlen] == CopyMatch(old(dst[..op]), offset, mlen)
    ensures forall j :: cap <= j < dst.Length ==> dst[j] == old(dst[j])
  {
    ghost var out := dst[..op];
    var cpy := op + mlen;
    var m: nat;
    if offset < 8 {
      m := CopyFirst8Short(dst, op, offset);
    } else {
      m := op - offset;
      CopyPeriod(dst, out, offset, op, m, 8);
      m := m + 8;
    }
    var o := op + 8;
    if cpy > cap - 12 {
      var copyLimit := cap - 7;
      if cpy > cap - LASTLITERALS {
        return false;
      }
      if o < copyLimit {
        WildCopyPeriod(dst, out, offset, o, m, copyLimit);
        m := m + (copyLimit - o);
        o := copyLimit;
      }
      CopyTail(dst, out, offset, o, m, cpy);
    } else {
      CopyPeriod(dst, out, offset, o, m, 8);
      if mlen > 16 {
        WildCopyPeriod(dst, out, offset, o + 8, m + 8, cpy);
      }
    }
    FilledIsCopyMatch(dst, out, offset, mlen);
    return true;
  }

  // The second stage of the shortcut: 18 bytes copied for a match of at most 18.
  method CopyMatch18(dst: array<byte>, op: nat, offset: nat, mlen: nat)
    requires 8 <= offset <= op && op + 18 <= dst.Length && mlen <= 18
    modifies dst
    ensures dst[..op + mlen] == CopyMatch(old(dst[..op]), offset, mlen)
    ensures forall j :: op + 18 <= j < dst.Length ==> dst[j] == old(dst[j])
  {
    ghost var out := dst[..op];
    var m := op - offset;
    CopyPeriod(dst, out, offset, op, m, 8);
    CopyPeriod(dst, out, offset, op + 8, m + 8, 8);
    CopyPeriod(dst, out, offset, op + 16, m + 16, 2);
    FilledIsCopyMatch(dst, out, offset, mlen);
  }

  // ---- Variable lengths ---------------------------------------------------

  // read_variable_length; None is rvl_error.
  method ReadVariableLength(src: seq<byte>, ip: nat, limit: int, initialCheck: bool)
    returns (r: Option<(nat, nat)>)
    requires (initialCheck || ip < |src|) && limit < |src|
    ensures r == if initialCheck && ip >= limit then None else ReadVar(src, ip, limit)
  {
    if initialCheck && ip >= limit {
      return None;
    }
    var i: nat := ip;
    var s: nat := src[i];
    i := i + 1;
    var length := s;
    if i > limit {
      return None;
    }
    while s == 255
      invariant ip < i <= limit && length >= s
      invariant ReadVar(src, ip, limit) ==
                if s != 255 then Some((length, i))
                else match ReadVar(src, i, limit)
                  case None => None
                  case Some((v, j)) => Some((v + length, j))
      decreases |src| - i, s
    {
      s := src[i];
      i := i + 1;
      length := length + s;
      if i > limit {
        return None;
      }
    }
    return Some((length, i));
  }

  // ---- The safe loop ------------------------------------------------------

  datatype LitOutcome = Failed | Finished | Go(shortcut: bool)

  // The literal half of one turn: the shortcut's 16-byte copy, a wild copy, or
  // the exact copy of the final run.
  method DecodeLiterals(src: seq<byte>, dst: array<byte>, cap: nat, i: nat, op: nat)
    returns (st: LitOutcome, ip: nat, o: nat)
    requires cap <= dst.Length && i < |src| && op <= cap
    modifies dst
    ensures st.Failed? <==> SafeLits(src, cap, i, op).None?
    ensures !st.Failed? ==>
              var (p, lit, last) := SafeLits(src, cap, i, op).value;
              st == (if last then Finished else Go(Shortcut(src, cap, i, op)))
              && ip == p + lit && o == op + lit
              && dst[..o] == old(dst[..op]) + src[p..p + lit]
    ensures forall j :: cap <= j < dst.Length ==> dst[j] == old(dst[j])
  {
    var length: nat := src[i] / 16;
    ip, o := i + 1, op;
    if length != RUN_MASK && ip < |src| - 16 && op <= cap - 32 {
      CopyIn(dst, op, src, ip, 16, length);
      return Go(true), ip + length, op + length;
    }
    if length == RUN_MASK {
      var addl := ReadVariableLength(src, ip, |src| - RUN_MASK, true);
      if addl.None? {
        return Failed, ip, o;
      }
      length, ip := length + addl.value.0, addl.value.1;
    }
    assert SafeLitLength(src, i) == Some((length, ip));
    st, ip, o := CopyLiterals(src, dst, cap, ip, op, length);
  }

  // Outside the shortcut: a wild copy, or the exact copy of the final run.
  method CopyLiterals(src: seq<byte>, dst: array<byte>, cap: nat, p: nat, op: nat, length: nat)
    returns (st: LitOutcome, ip: nat, o: nat)
    requires cap <= dst.Length && p <= |src| && op <= cap
    modifies dst
    ensures var last := op + length > cap - MFLIMIT || p + length > |src| - 8;
            && (st.Failed? <==> last && (p + length != |src| || op + length > cap))
            && (st.Finished? ==> last) && (st.Go? ==> !last && !st.shortcut)
    ensures !st.Failed? ==> ip == p + length <= |src| && o == op + length <= cap
                            && dst[..o] == old(dst[..op]) + src[p..ip]
    ensures forall j :: cap <= j < dst.Length ==> dst[j] == old(dst[j])
  {
    ip, o := p, op;
    var cpy := op + length;
    if cpy > cap - MFLIMIT || ip + length > |src| - 8 {
      if ip + length != |src| || cpy > cap {
        return Failed, ip, o;
      }
      CopyIn(dst, op, src, ip, length, length);
      return Finished, ip + length, cpy;
    }
    WildCopyIn(dst, op, src, ip, cpy);
    return Go(false), ip + length, cpy;
  }

  // The match half of one turn.
  method DecodeMatch(src: seq<byte>, dst: array<byte>, cap: nat, i: nat, shortcut: bool, q: nat, op: nat)
    returns (ok: bool, ip: nat, o: nat)
    requires cap <= dst.Length && i < |src| && q + 2 < |src|
    requires op <= (if shortcut then cap - 18 else cap - 12)
    modifies dst
    ensures ok <==> SafeMatch(src, cap, i, shortcut, q, op).Some?
    ensures ok ==>
              var (offset, mlen, next) := SafeMatch(src, cap, i, shortcut, q, op).value;
              ip == next && o == op + mlen
              && dst[..o] == CopyMatch(old(dst[..op]), offset, mlen)
    ensures forall j :: cap <= j < dst.Length ==> dst[j] == old(dst[j])
  {
    var offset := ReadLE16(src, q);
    ip, o := q + 2, op;
    var length: nat := src[i] % 16;
    if shortcut && length != ML_MASK && offset >= 8 && offset <= op {
      CopyMatch18(dst, op, offset, length + MINMATCH);
      return true, ip, op + length + MINMATCH;
    }
    if length == ML_MASK {
      var addl := ReadVariableLength(src, ip, |src| - LASTLITERALS + 1, false);
      if addl.None? {
        return false, ip, o;
      }
      length, ip := length + addl.value.0, addl.value.1;
    }
    length := length + MINMATCH;
    if offset > op {
      return false, ip, o;
    }
    ok := CopyMatchSafe(dst, cap, op, offset, length);
    o := op + length;
  }

  datatype Turn = Stop(r: int) | Next(ip: nat, op: nat)

  // One turn of the safe loop.
  method DecodeSequence(src: seq<byte>, dst: array<byte>, cap: nat, ip: nat, op: nat, ghost out: seq<byte>)
    returns (t: Turn)
    requires cap <= dst.Length && ip < |src| && op <= cap && dst[..op] == out
    modifies dst
    ensures t.Stop? ==> (t.r >= 0 <==> SafeFrom(src, cap, ip, out).Some?)
    ensures t.Stop? && t.r >= 0 ==> t.r <= cap && Some(dst[..t.r]) == SafeFrom(src, cap, ip, out)
    ensures t.Next? ==> ip < t.ip < |src| && t.op <= cap
                        && SafeFrom(src, cap, ip, out) == SafeFrom(src, cap, t.ip, dst[..t.op])
    ensures forall j :: cap <= j < dst.Length ==> dst[j] == old(dst[j])
  {
    var st, q, o := DecodeLiterals(src, dst, cap, ip, op);
    if st.Failed? {
      return Stop(-(q as int) - 1);
    }
    if st.Finished? {
      SafeFromLast(src, cap, ip, out);
      return Stop(o);
    }
    ghost var mid := dst[..o];
    var ok, next, o' := DecodeMatch(src, dst, cap, ip, st.shortcut, q, o);
    if !ok {
      SafeFromNoMatch(src, cap, ip, out);
      return Stop(-(next as int) - 1);
    }
    SafeFromMatch(src, cap, ip, out, mid);
    return Next(next, o');
  }

  // LZ4_decompress_safe: the number of bytes written, or a negative error.
  // Nothing is written past `cap`.
  method DecompressSafe(src: seq<byte>, dst: array<byte>, cap: nat) returns (r: int)
    requires cap <= dst.Length
    modifies dst
    ensures r >= 0 <==> SafeDecode(src, cap).Some?
    ensures r >= 0 ==> r <= cap && dst[..r] == SafeDecode(src, cap).value
    ensures forall j :: cap <= j < dst.Length ==> dst[j] == old(dst[j])
  {
    if cap == 0 {
      return if |src| == 1 && src[0] == 0 then 0 else -1;
    }
    if |src| == 0 {
      return -1;
    }
    var t := Next(0, 0);
    assert dst[..0] == [];
    while t.Next?
      invariant t.Next? ==> t.ip < |src| && t.op <= cap
                            && SafeDecode(src, cap) == SafeFrom(src, cap, t.ip, dst[..t.op])
      invariant t.Stop? ==> (t.r >= 0 <==> SafeDecode(src, cap).Some?)
      invariant t.Stop? && t.r >= 0 ==> t.r <= cap && Some(dst[..t.r]) == SafeDecode(src, cap)
      invariant forall j :: cap <= j < dst.Length ==> dst[j] == old(dst[j])
      decreases if t.Next? then |src| - t.ip else -1
    {
      t := DecodeSequence(src, dst, cap, t.ip, t.op, dst[..t.op]);
    }
    return t.r;
  }

  lemma SafeFromLast(b: seq<byte>, cap: nat, i: nat, out: seq<byte>)
    requires i < |b| && |out| <= cap
    requires SafeLits(b, cap, i, |out|).Some? && SafeLits(b, cap, i, |out|).value.2
    ensures var (p, lit, _) := SafeLits(b, cap, i, |out|).value;
            SafeFrom(b, cap, i, out) == Some(out + b[p..p + lit])
  {
    var (p, lit, _) := SafeLits(b, cap, i, |out|).value;
    assert b[p..p + lit] == b[p..];
  }

  lemma SafeFromNoMatch(b: seq<byte>, cap: nat, i: nat, out: seq<byte>)
    requires i < |b| && |out| <= cap
    requires SafeLits(b, cap, i, |out|).Some? && !SafeLits(b, cap, i, |out|).value.2
    requires var (p, lit, _) := SafeLits(b, cap, i, |out|).value;
             SafeMatch(b, cap, i, Shortcut(b, cap, i, |out|), p + lit, |out| + lit).None?
    ensures SafeFrom(b, cap, i, out).None?
  {
  }

  lemma SafeFromMatch(b: seq<byte>, cap: nat, i: nat, out: seq<byte>, mid: seq<byte>)
    requires i < |b| && |out| <= cap
    requires SafeLits(b, cap, i, |out|).Some? && !SafeLits(b, cap, i, |out|).value.2
    requires var (p, lit, _) := SafeLits(b, cap, i, |out|).value;
             mid == out + b[p..p + lit]
             && SafeMatch(b, cap, i, Shortcut(b, cap, i, |out|), p + lit, |mid|).Some?
    ensures var (p, lit, _) := SafeLits(b, cap, i, |out|).value;
            var (offset, mlen, next) := SafeMatch(b, cap, i, Shortcut(b, cap, i, |out|), p + lit, |mid|).value;
            SafeFrom(b, cap, i, out) == SafeFrom(b, cap, next, CopyMatch(mid, offset, mlen))
  {
  }
}
