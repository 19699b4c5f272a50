// LZ4_compress_generic_validated without a dictionary and with room for the
// worst case: the block it writes decodes to its input, for every hash function.

module Lz4Compressor {
  import opened Bytes
  import opened Lz4Copy
  import opened Lz4Encoding
  import opened Lz4Format
  import opened Lz4Search

  const MAX_INPUT_SIZE: int := 0x7E000000
  const LIMIT_64K: int := 0x10000 + 11

  // byPtr keeps addresses; its cleared entries lie `-nil` bytes before the source.
  datatype TableType = ByU16 | ByU32 | ByPtr

  ghost predicate GoodMode(n: nat, tt: TableType, nil: int) {
    match tt
    case ByU16 => n < LIMIT_64K && nil == 0
    case ByU32 => nil == 0
    case ByPtr => nil < -DISTANCE_MAX
  }

  // Every entry is either a cleared one or an earlier position.
  ghost predicate Entries(table: array<int>, nil: int, below: nat)
    reads table
  {
    forall i :: 0 <= i < table.Length ==> table[i] == nil || 0 <= table[i] < below
  }

  // ---- LZ4_count ------------------------------------------------------------

  // LZ4_NbCommonBytes: the number of leading bytes two differing words have in common.
  function CommonBytes(src: seq<byte>, d: nat, p: nat, step: nat): (r: nat)
    requires d <= p && p + step <= |src| && !Repeats(src, d, p, step)
    ensures r < step && Repeats(src, d, p, r) && !Echo(src, d, p + r)
    decreases step
  {
    if !Echo(src, d, p) then 0 else 1 + CommonBytes(src, d, p + 1, step - 1)
  }

  // Length of the common run of src[p..] and src[p - d..], at most up to `limit`:
  // words of `step` bytes, then four, two and one byte.
  method Count(src: seq<byte>, d: nat, p: nat, limit: nat, step: nat) returns (r: nat)
    requires 0 < d <= p <= limit <= |src| && (step == 4 || step == 8)
    ensures p + r <= limit && Repeats(src, d, p, r)
    ensures p + r == limit || !Echo(src, d, p + r)
  {
    r := 0;
    while p + r < limit - (step - 1)
      invariant p + r <= limit && Repeats(src, d, p, r)
    {
      if !Repeats(src, d, p + r, step) {
        return r + CommonBytes(src, d, p + r, step);
      }
      r := r + step;
    }
    if step == 8 && p + r < limit - 3 && Repeats(src, d, p + r, 4) {
      r := r + 4;
    }
    if p + r < limit - 1 && Repeats(src, d, p + r, 2) {
      r := r + 2;
    }
    if p + r < limit && Repeats(src, d, p + r, 1) {
      r := r + 1;
    }
  }

  // A repeat is exactly what an overlapping match copy produces.
  lemma {:induction false} RepeatIsCopy(src: seq<byte>, d: nat, p: nat, len: nat)
    requires 0 < d <= p && p + len <= |src| && Repeats(src, d, p, len)
    ensures CopyMatch(src[..p], d, len) == src[..p + len]
    decreases len
  {
    if len > 0 {
      assert Echo(src, d, p);
      assert src[..p] + [src[p - d]] == src[..p + 1];
      RepeatIsCopy(src, d, p + 1, len - 1);
    }
  }

  // ---- Searching ------------------------------------------------------------

  lemma RecursIsRepeats(src: seq<byte>, m: int, p: nat)
    requires m < p && p + 4 <= |src|
    ensures Recurs(src, m, p) <==> 0 <= m && p - m <= DISTANCE_MAX && Repeats(src, p - m, p, 4)
  {
    if 0 <= m {
      var a, b := src[m..m + 4], src[p..p + 4];
      assert a == b <==> a[0] == b[0] && a[1] == b[1] && a[2] == b[2] && a[3] == b[3];
      assert Repeats(src, p - m, p, 4) <==> FourEcho(src, p - m, p);
    }
  }

  predicate FourEcho(src: seq<byte>, d: nat, p: nat) {
    Echo(src, d, p) && Echo(src, d, p + 1) && Echo(src, d, p + 2) && Echo(src, d, p + 3)
  }

  // One probe: is the position in the slot near enough, and do four bytes recur there? The
  // probe itself goes into the table.
  method Probe(src: seq<byte>, table: array<int>, tt: TableType, ghost nil: int, h: nat, current: nat)
    returns (hit: bool, d: nat)
    requires GoodMode(|src|, tt, nil) && 0 < current <= |src| - MFLIMIT && Entries(table, nil, current) && h < table.Length
    modifies table
    ensures hit <==> Recurs(src, old(table[h]), current)
    ensures hit ==> d == current - old(table[h]) && 1 <= d <= DISTANCE_MAX && d <= current && Repeats(src, d, current, 4)
    ensures table[..] == old(table[..])[h := current] && Entries(table, nil, current + 1)
  {
    var matchIndex := table[h];
    assert tt.ByU16? ==> current < 0x10000;
    table[h] := current;
    RecursIsRepeats(src, matchIndex, current);
    hit, d := false, 0;
    if tt.ByU16? || matchIndex + DISTANCE_MAX >= current {
      d := current - matchIndex;
      hit := Repeats(src, d, current, 4);
    }
  }

  // The search loop: the first probe at or after ip0 whose four bytes recur within reach.
  method FindMatch(src: seq<byte>, table: array<int>, tt: TableType, ghost nil: int, hash: nat --> nat,
                   ip0: nat, forwardH0: nat, acceleration: nat)
    returns (found: bool, ip: nat, d: nat)
    requires GoodHash(|src|, hash, table.Length) && GoodMode(|src|, tt, nil)
    requires 0 < ip0 <= |src| - 11 && forwardH0 == hash(ip0) && acceleration >= 1
    requires Entries(table, nil, ip0)
    modifies table
    ensures found ==> ip0 <= ip <= |src| - MFLIMIT && 1 <= d <= DISTANCE_MAX && d <= ip
                      && Repeats(src, d, ip, 4) && Entries(table, nil, ip + 1)
    ensures Search(src, hash, acceleration, old(table[..]), ip0, 0)
            == if found then Hit(ip, d, table[..]) else Nothing(table[..])
    ensures ip0 + 1 <= |src| - 11 && Recurs(src, old(table[forwardH0]), ip0) ==>
              found && ip == ip0 && d == ip0 - old(table[forwardH0])
  {
    if ip0 + 1 <= |src| - 11 && Recurs(src, table[forwardH0], ip0) {
      SearchHits(src, hash, acceleration, table[..], ip0, 0);
    }
    var forwardIp, forwardH := ip0, forwardH0;
    var step, searchMatchNb := 1, acceleration * SKIP_TRIGGER;
    ghost var t, q, k, r := table[..], ip0, 0, Search(src, hash, acceleration, table[..], ip0, 0);
    while true
      invariant ip0 <= forwardIp <= |src| - 11 && forwardH == hash(forwardIp)
      invariant step == StepAfter(acceleration, k) && searchMatchNb == acceleration * SKIP_TRIGGER + k
      invariant Entries(table, nil, forwardIp) && t == table[..] && q == forwardIp
      invariant r == Search(src, hash, acceleration, t, q, k)
      decreases |src| - forwardIp
    {
      ip := forwardIp;
      forwardIp := forwardIp + step;
      step, searchMatchNb := searchMatchNb / SKIP_TRIGGER, searchMatchNb + 1;
      if forwardIp > |src| - 11 {
        return false, ip, 0;
      }
      var hit, dist := Probe(src, table, tt, nil, forwardH, ip);
      if hit {
        SearchHits(src, hash, acceleration, t, q, k);
        return true, ip, dist;
      }
      t, q, k := NextProbe(src, hash, acceleration, t, q, k);
      forwardH := hash(forwardIp);
    }
  }

  // Extends a match backwards over literals not yet written.
  method CatchUp(src: seq<byte>, anchor: nat, ip0: nat, d: nat) returns (ip: nat)
    requires anchor < ip0 && 0 < d <= ip0 && ip0 + 4 <= |src| && Repeats(src, d, ip0, 4)
    ensures anchor <= ip <= ip0 && d <= ip && Repeats(src, d, ip, ip0 - ip + 4)
    ensures ip == Begin(src, anchor, d, ip0)
  {
    ip := ip0;
    if ip - d > 0 && Echo(src, d, ip - 1) {
      ip := ip - 1;
      while ip > anchor && ip - d > 0 && Echo(src, d, ip - 1)
        invariant anchor <= ip < ip0 && d <= ip && Repeats(src, d, ip, ip0 - ip + 4)
        invariant Begin(src, anchor, d, ip0) == Begin(src, anchor, d, ip)
      {
        ip := ip - 1;
      }
    }
  }

  // ---- Writing --------------------------------------------------------------

  // A run of 255s and a smaller byte spell a length out.
  lemma {:induction false} ReadExtRun(b: seq<byte>, i: nat, q: nat, x: nat)
    requires i + q < |b| && b[i + q] < 255 && x == 255 * q + b[i + q]
    requires forall k :: i <= k < i + q ==> b[k] == 255
    ensures ReadExt(b, i) == Some((x, i + q + 1))
    decreases q
  {
    if q > 0 {
      ReadExtRun(b, i + 1, q - 1, x - 255);
    }
  }

  // The literal length extension: 255s, then the rest.
  method WriteLength(dst: array<byte>, op0: nat, x: nat) returns (op: nat)
    requires op0 + x / 255 + 1 <= dst.Length
    modifies dst
    ensures op == op0 + x / 255 + 1 && ReadExt(dst[..op], op0) == Some((x, op))
    ensures dst[..op0] == old(dst[..op0])
  {
    var len: nat := x;
    op := op0;
    while len >= 255
      invariant op0 <= op && len + 255 * (op - op0) == x
      invariant forall k :: op0 <= k < op ==> dst[k] == 255
      invariant dst[..op0] == old(dst[..op0])
    {
      dst[op] := 255;
      op := op + 1;
      len := len - 255;
    }
    dst[op] := len;
    op := op + 1;
    ReadExtRun(dst[..op], op0, op - 1 - op0, x);
  }

  // Token (low half still open) and literal length.
  method EncodeLitLength(dst: array<byte>, op0: nat, litLength: nat) returns (op: nat)
    requires op0 + 1 + ExtLen(litLength) <= dst.Length
    modifies dst
    ensures op == op0 + 1 + ExtLen(litLength)
    ensures dst[op0] == 16 * Nibble(litLength) && ExtAt(dst[..op], op0 + 1, litLength)
    ensures dst[..op0] == old(dst[..op0])
  {
    op := op0 + 1;
    if litLength >= RUN_MASK {
      dst[op0] := 16 * RUN_MASK;
      ghost var head := dst[..op];
      op := WriteLength(dst, op, litLength - RUN_MASK);
      assert dst[op0] == dst[..op0 + 1][op0] == head[op0];
      assert dst[..op0] == dst[..op0 + 1][..op0];
    } else {
      dst[op0] := 16 * litLength;
    }
  }

  // Literal length and literals of a sequence, with a wild copy.
  method EncodeLiterals(src: seq<byte>, dst: array<byte>, op0: nat, anchor: nat, ip: nat) returns (op: nat)
    requires anchor <= ip <= |src| - MFLIMIT
    requires op0 + LitLen(ip - anchor) + 8 <= dst.Length
    modifies dst
    ensures op == op0 + LitLen(ip - anchor) && LitAt(dst[..op], op0, src[anchor..ip], 0)
    ensures dst[..op0] == old(dst[..op0])
  {
    var litLength := ip - anchor;
    var p := EncodeLitLength(dst, op0, litLength);
    ghost var head := dst[..p];
    op := p + litLength;
    WildCopyIn(dst, p, src, anchor, op);
    assert dst[..op] == head + src[anchor..ip];
    LitsAfterHead(head, dst[..op], op0, src[anchor..ip]);
    assert dst[..op0] == dst[..op][..op0] == head[..op0];
  }

  lemma LitsAfterHead(head: seq<byte>, b: seq<byte>, i: nat, lits: seq<byte>)
    requires |head| == i + 1 + ExtLen(|lits|) && b == head + lits
    requires head[i] == 16 * Nibble(|lits|) && ExtAt(head, i + 1, |lits|)
    ensures LitAt(b, i, lits, 0)
  {
    assert Same(head, b, i + 1, |head|);
    ExtFrame(head, b, i + 1, |lits|);
  }

  // LZ4_write32(op, 0xFFFFFFFF)
  method Write255x4(dst: array<byte>, op: nat)
    requires op + 4 <= dst.Length
    modifies dst
    ensures forall k :: op <= k < op + 4 ==> dst[k] == 255
    ensures forall k :: 0 <= k < op ==> dst[k] == old(dst[k])
  {
    dst[op], dst[op + 1], dst[op + 2], dst[op + 3] := 255, 255, 255, 255;
  }

  // The match length extension: four 255s at a time, then one remainder byte on
  // top of what was written.
  method WriteMatchLength(dst: array<byte>, op0: nat, x: nat) returns (op: nat)
    requires op0 + x / 255 + 5 <= dst.Length
    modifies dst
    ensures op == op0 + x / 255 + 1 && ReadExt(dst[..op], op0) == Some((x, op))
    ensures dst[..op0] == old(dst[..op0])
  {
    var mc: nat := x;
    op := op0;
    Write255x4(dst, op);
    while mc >= 4 * 255
      invariant op0 <= op && mc + 255 * (op - op0) == x
      invariant forall k :: op0 <= k < op + 4 ==> dst[k] == 255
      invariant forall k :: 0 <= k < op0 ==> dst[k] == old(dst[k])
    {
      op := op + 4;
      Write255x4(dst, op);
      mc := mc - 4 * 255;
    }
    op := op + mc / 255;
    dst[op] := mc % 255;
    op := op + 1;
    ReadExtRun(dst[..op], op0, op - 1 - op0, x);
  }

  // Offset and match length.
  method EncodeOffsetAndLength(dst: array<byte>, op0: nat, offset: nat, matchCode: nat) returns (op: nat)
    requires 1 <= offset <= DISTANCE_MAX && op0 + 2 + ExtLen(matchCode) + 4 <= dst.Length
    modifies dst
    ensures op == op0 + 2 + ExtLen(matchCode) && MatchAt(dst[..op], op0, offset, matchCode)
    ensures dst[..op0] == old(dst[..op0])
  {
    dst[op0], dst[op0 + 1] := offset % 256, offset / 256;
    op := op0 + 2;
    if matchCode >= ML_MASK {
      ghost var head := dst[..op];
      op := WriteMatchLength(dst, op, matchCode - ML_MASK);
      assert dst[op0] == dst[..op0 + 2][op0] == head[op0];
      assert dst[op0 + 1] == dst[..op0 + 2][op0 + 1] == head[op0 + 1];
      assert dst[..op0] == dst[..op0 + 2][..op0];
    }
  }

  // The match half of a sequence; `*token += matchCode` comes last.
  method EncodeMatch(dst: array<byte>, token: nat, op0: nat, offset: nat, matchCode: nat,
                     ghost lits: seq<byte>)
    returns (op: nat)
    requires 1 <= offset <= DISTANCE_MAX && op0 == token + LitLen(|lits|)
    requires op0 + 2 + ExtLen(matchCode) + 4 <= dst.Length
    requires LitAt(dst[..op0], token, lits, 0)
    modifies dst
    ensures op == op0 + 2 + ExtLen(matchCode)
    ensures SeqAt(dst[..op], token, Sequence(lits, offset, matchCode + MINMATCH))
    ensures dst[..token] == old(dst[..token])
  {
    ghost var b0 := dst[..op0];
    op := EncodeOffsetAndLength(dst, op0, offset, matchCode);
    ghost var b1 := dst[..op];
    assert Same(b0, b1, token, op0) by {
      assert b1[..op0] == b0;
      assert b1[token..op0] == b1[..op0][token..];
    }
    LitFrame(b0, b1, token, lits, 0);
    var low := if matchCode >= ML_MASK then ML_MASK else matchCode;
    assert b1[token] == 16 * Nibble(|lits|);
    dst[token] := dst[token] + low;
    FilledToken(b1, dst[..op], token, lits, offset, matchCode);
    assert dst[..token] == b1[..token] == b0[..token];
  }

  lemma SameAfter(b: seq<byte>, c: seq<byte>, i: nat)
    requires i <= |b| == |c| && b[i..] == c[i..]
    ensures forall k :: i <= k < |b| ==> b[k] == c[k]
  {
    forall k | i <= k < |b|
      ensures b[k] == c[k]
    {
      assert b[k] == b[i..][k - i];
      assert c[k] == c[i..][k - i];
    }
  }

  lemma FilledToken(b: seq<byte>, c: seq<byte>, token: nat, lits: seq<byte>, offset: nat, code: nat)
    requires LitAt(b, token, lits, 0) && MatchAt(b, token + LitLen(|lits|), offset, code)
    requires |b| == |c| && b[token + 1..] == c[token + 1..] && c[token] == b[token] + Nibble(code)
    ensures SeqAt(c, token, Sequence(lits, offset, code + MINMATCH))
  {
    var q := token + LitLen(|lits|);
    SameAfter(b, c, token + 1);
    assert Same(b, c, token + 1, token + 1 + ExtLen(|lits|));
    ExtFrame(b, c, token + 1, |lits|);
    assert Same(b, c, q - |lits|, q);
    assert LitAt(c, token, lits, Nibble(code));
    assert Same(b, c, q, q + 2 + ExtLen(code));
    MatchFrame(b, c, q, offset, code);
  }

  // ---- The compressor ----------------------------------------------------------

  // What holds between two sequences: `seqs` are written and cover src[..anchor].
  ghost predicate Progress(src: seq<byte>, dst: array<byte>, op: nat, anchor: nat, seqs: seq<Sequence>)
    reads dst
  {
    && op <= dst.Length && anchor <= |src|
    && Fits(seqs, |src|) && op == EncLen(seqs, |src|)
    && Written(dst[..op], seqs, |src|)
    && Expand(seqs, |src|) == src[..anchor]
  }

  // A block of at most n + n/255 bytes has this much room left for one more sequence.
  lemma RoomForSequence(seqs: seq<Sequence>, n: nat, lit: nat, code: nat)
    requires Fits(seqs, n) && ExpandLen(seqs) + lit <= n - MFLIMIT
    requires ExpandLen(seqs) + lit + code + MINMATCH <= n - LASTLITERALS
    ensures EncLen(seqs, n) + LitLen(lit) + 8 <= CompressBound(n)
    ensures EncLen(seqs, n) + LitLen(lit) + 2 + ExtLen(code) + 4 <= CompressBound(n)
  {
    EncodedSize(seqs, n);
  }

  // A found match adds a sequence that covers the input up to its end.
  lemma OneMore(src: seq<byte>, seqs: seq<Sequence>, s: Sequence, anchor: nat, ip: nat, end: nat)
    requires Fits(seqs, |src|) && anchor <= ip <= |src| - MFLIMIT && Expand(seqs, |src|) == src[..anchor]
    requires s.lits == src[anchor..ip] && 1 <= s.offset <= DISTANCE_MAX && s.offset <= ip
    requires s.mlen >= MINMATCH && end == ip + s.mlen <= |src| - LASTLITERALS
    requires CopyMatch(src[..ip], s.offset, s.mlen) == src[..end]
    ensures ExpandLen(seqs) == anchor
    ensures Fits(seqs + [s], |src|) && Expand(seqs + [s], |src|) == src[..end]
  {
    assert |Expand(seqs, |src|)| == anchor;
    SliceJoin(src, anchor, ip);
    ExpandSnoc(seqs, s, |src|);
  }

  lemma {:induction false} EndIs(src: seq<byte>, d: nat, p: nat, e: nat)
    requires d <= p <= e <= |src| - LASTLITERALS && Repeats(src, d, p, e - p)
    requires e == |src| - LASTLITERALS || !Echo(src, d, e)
    ensures End(src, d, p) == e
    decreases e - p
  {
    if p < e {
      assert Echo(src, d, p);
      EndIs(src, d, p + 1, e);
    }
  }

  // A match carried on as far as it goes.
  lemma FoundSequence(src: seq<byte>, seqs: seq<Sequence>, s: Sequence, anchor: nat, ip: nat, end: nat, known: nat)
    requires Fits(seqs, |src|) && anchor <= ip <= |src| - MFLIMIT && Expand(seqs, |src|) == src[..anchor]
    requires s.lits == src[anchor..ip] && 1 <= s.offset <= DISTANCE_MAX && s.offset <= ip
    requires s.mlen >= MINMATCH && end == ip + s.mlen <= |src| - LASTLITERALS
    requires 4 <= known && Repeats(src, s.offset, ip, known) && ip + known <= |src| - LASTLITERALS
    requires Repeats(src, s.offset, ip + MINMATCH, end - ip - MINMATCH)
    requires end == |src| - LASTLITERALS || !Echo(src, s.offset, end)
    ensures ExpandLen(seqs) == anchor && ip + known <= end == End(src, s.offset, ip + MINMATCH)
    ensures Fits(seqs + [s], |src|) && Expand(seqs + [s], |src|) == src[..end]
  {
    assert end < ip + known ==> Echo(src, s.offset, end);
    EndIs(src, s.offset, ip + MINMATCH, end);
    RepeatIsCopy(src, s.offset, ip, s.mlen);
    OneMore(src, seqs, s, anchor, ip, end);
  }

  // How far a match goes, and the sequence it makes.
  method MeasureMatch(src: seq<byte>, ghost anchor: nat, ip: nat, d: nat, step: nat, ghost known: nat,
                      ghost seqs: seq<Sequence>, ghost lits: seq<byte>)
    returns (matchCode: nat, ip': nat, ghost s: Sequence)
    requires step == 4 || step == 8
    requires anchor <= ip <= |src| - MFLIMIT && 1 <= d <= DISTANCE_MAX && d <= ip && lits == src[anchor..ip]
    requires Fits(seqs, |src|) && Expand(seqs, |src|) == src[..anchor]
    requires 4 <= known && Repeats(src, d, ip, known) && ip + known <= |src| - LASTLITERALS
    ensures ip + known <= ip' <= |src| - LASTLITERALS
    ensures s == Sequence(lits, d, ip' - ip) && ip' == ip + MINMATCH + matchCode == End(src, d, ip + MINMATCH)
    ensures Fits(seqs + [s], |src|) && Expand(seqs + [s], |src|) == src[..ip']
    ensures EncLen(seqs, |src|) + LitLen(ip - anchor) + 2 + ExtLen(matchCode) + 4 <= CompressBound(|src|)
  {
    matchCode := Count(src, d, ip + MINMATCH, |src| - LASTLITERALS, step);
    ip' := ip + MINMATCH + matchCode;
    s := Sequence(lits, d, ip' - ip);
    FoundSequence(src, seqs, s, anchor, ip, ip', known);
    RoomForSequence(seqs, |src|, ip - anchor, matchCode);
  }

  // The match half of the next sequence.
  method WriteSequence(dst: array<byte>, token: nat, op0: nat, d: nat, matchCode: nat, ghost seqs: seq<Sequence>,
                       ghost s: Sequence, ghost before: seq<byte>, ghost n: nat)
    returns (op: nat)
    requires s.offset == d && s.mlen == matchCode + MINMATCH && 1 <= d <= DISTANCE_MAX
    requires Fits(seqs, n) && Fits(seqs + [s], n) && Written(before, seqs, n)
    requires |before| == token == EncLen(seqs, n) && op0 == token + LitLen(|s.lits|)
    requires op0 + 2 + ExtLen(matchCode) + 4 <= dst.Length
    requires LitAt(dst[..op0], token, s.lits, 0) && dst[..token] == before
    modifies dst
    ensures op <= dst.Length && Written(dst[..op], seqs + [s], n) && op == EncLen(seqs + [s], n)
  {
    op := EncodeMatch(dst, token, op0, d, matchCode, s.lits);
    assert dst[..op][..token] == dst[..token];
    SequenceWritten(before, dst[..op], seqs, s, n);
  }

  // The match of a sequence whose literals are already in place at `token`.
  method FinishSequence(src: seq<byte>, dst: array<byte>, token: nat, op0: nat, ghost anchor: nat, ip: nat,
                        d: nat, step: nat, ghost known: nat, ghost seqs: seq<Sequence>, ghost before: seq<byte>,
                        ghost lits: seq<byte>)
    returns (op: nat, ip': nat, ghost seqs': seq<Sequence>)
    requires step == 4 || step == 8
    requires dst.Length >= CompressBound(|src|)
    requires Fits(seqs, |src|) && token == EncLen(seqs, |src|) && |before| == token
    requires anchor <= ip <= |src| - MFLIMIT && 1 <= d <= DISTANCE_MAX && d <= ip
    requires Written(before, seqs, |src|) && Expand(seqs, |src|) == src[..anchor]
    requires 4 <= known && Repeats(src, d, ip, known) && ip + known <= |src| - LASTLITERALS
    requires op0 == token + LitLen(ip - anchor) <= dst.Length
    requires lits == src[anchor..ip] && LitAt(dst[..op0], token, lits, 0) && dst[..token] == before
    modifies dst
    ensures Progress(src, dst, op, ip', seqs') && seqs' != []
    ensures ip + known <= ip' <= |src| - LASTLITERALS && ip' == End(src, d, ip + MINMATCH)
    ensures seqs' == seqs + [Sequence(lits, d, ip' - ip)]
  {
    var matchCode;
    ghost var s;
    matchCode, ip', s := MeasureMatch(src, anchor, ip, d, step, known, seqs, lits);
    op := WriteSequence(dst, token, op0, d, matchCode, seqs, s, before, |src|);
    seqs' := seqs + [s];
  }

  lemma SequenceWritten(before: seq<byte>, b: seq<byte>, seqs: seq<Sequence>, s: Sequence, n: nat)
    requires Fits(seqs, n) && Fits(seqs + [s], n) && Written(before, seqs, n) && |before| == EncLen(seqs, n)
    requires s.mlen >= MINMATCH && |b| == |before| + SeqLen(s) && b[..|before|] == before && SeqAt(b, |before|, s)
    ensures Written(b, seqs + [s], n) && |b| == EncLen(seqs + [s], n)
  {
    assert Same(before, b, 0, |before|);
    WrittenSnoc(before, b, seqs, s, n);
  }

  // "Fill table" and "Test next position": does a match start right after the last one?
  method TestNext(src: seq<byte>, table: array<int>, tt: TableType, ghost nil: int, hash: nat --> nat, ip: nat)
    returns (found: bool, d: nat)
    requires GoodHash(|src|, hash, table.Length) && GoodMode(|src|, tt, nil)
    requires 2 <= ip < |src| - 11 && Entries(table, nil, ip - 2)
    modifies table
    ensures Entries(table, nil, ip + 1)
    ensures found ==> 1 <= d <= DISTANCE_MAX && d <= ip && Repeats(src, d, ip, 4)
    ensures Test(src, hash, old(table[..]), ip) == (if found then Some(d) else None, table[..])
  {
    table[hash(ip - 2)] := ip - 2;
    assert table[..] == old(table[..])[hash(ip - 2) := ip - 2];
    found, d := Probe(src, table, tt, nil, hash(ip), ip);
  }

  // What the chain started with leaves to do.
  ghost predicate Follows(src: seq<byte>, hash: nat --> nat, t0: seq<int>, start: nat, first: seq<Sequence>,
                          table: seq<int>, ip: nat, seqs: seq<Sequence>)
  {
    && GoodHash(|src|, hash, |t0|) && |table| == |t0| && 2 <= start <= |src| && 2 <= ip <= |src|
    && var c, rest := Chain(src, hash, t0, start), Chain(src, hash, table, ip);
       first + c.seqs == seqs + rest.seqs && c.ip == rest.ip && c.table == rest.table && c.more == rest.more
  }

  lemma ChainGoesOn(src: seq<byte>, hash: nat --> nat, t0: seq<int>, start: nat, first: seq<Sequence>,
                    table: seq<int>, ip: nat, seqs: seq<Sequence>, d: nat, t: seq<int>, end: nat)
    requires Follows(src, hash, t0, start, first, table, ip, seqs) && ip < |src| - 11
    requires Test(src, hash, table, ip) == (Some(d), t) && end == End(src, d, ip + MINMATCH)
    ensures Follows(src, hash, t0, start, first, t, end, seqs + [Sequence([], d, end - ip)])
  {
    var s := Sequence([], d, end - ip);
    var rest := Chain(src, hash, t, end).seqs;
    assert seqs + ([s] + rest) == seqs + [s] + rest;
  }

  lemma ChainStops(src: seq<byte>, hash: nat --> nat, t0: seq<int>, start: nat, first: seq<Sequence>,
                   table: seq<int>, ip: nat, seqs: seq<Sequence>, t: seq<int>)
    requires Follows(src, hash, t0, start, first, table, ip, seqs) && ip < |src| - 11
    requires Test(src, hash, table, ip) == (None, t)
    ensures var c := Chain(src, hash, t0, start);
      seqs == first + c.seqs && ip == c.ip && t == c.table && c.more
  {
  }

  lemma HeadOfChain(src: seq<byte>, hash: nat --> nat, table: seq<int>, anchor: nat, ip0: nat, d: nat,
                    seqs0: seq<Sequence>, first: seq<Sequence>, end: nat, seqs: seq<Sequence>)
    requires GoodHash(|src|, hash, |table|) && anchor <= ip0 && d <= ip0 <= |src| - MFLIMIT && 1 <= d
    requires end == End(src, d, ip0 + MINMATCH) && first == seqs0 + [Sequence(src[anchor..ip0], d, end - ip0)]
    requires seqs == first + Chain(src, hash, table, end).seqs
    ensures seqs == seqs0 + FromHit(src, hash, table, anchor, ip0, d).seqs
  {
    var s, rest := Sequence(src[anchor..ip0], d, end - ip0), Chain(src, hash, table, end).seqs;
    assert seqs0 + ([s] + rest) == seqs0 + [s] + rest;
  }

  // As many sequences without literals as the position after each match allows.
  method EncodeFollowing(src: seq<byte>, dst: array<byte>, table: array<int>, tt: TableType, ghost nil: int,
                         hash: nat --> nat, op0: nat, ip0: nat, step: nat, ghost seqs0: seq<Sequence>)
    returns (op: nat, ip: nat, more: bool, ghost seqs: seq<Sequence>)
    requires step == 4 || step == 8
    requires GoodHash(|src|, hash, table.Length) && GoodMode(|src|, tt, nil)
    requires dst.Length >= CompressBound(|src|) && Progress(src, dst, op0, ip0, seqs0) && seqs0 != []
    requires 3 <= ip0 <= |src| - LASTLITERALS && Entries(table, nil, ip0 - 2)
    modifies dst, table
    ensures Progress(src, dst, op, ip, seqs) && seqs != []
    ensures ip0 <= ip <= |src| - LASTLITERALS
    ensures more ==> ip < |src| - 11 && Entries(table, nil, ip + 1)
    ensures var c := Chain(src, hash, old(table[..]), ip0);
      seqs == seqs0 + c.seqs && ip == c.ip && table[..] == c.table && more == c.more
  {
    ghost var t0 := table[..];
    op, ip, seqs := op0, ip0, seqs0;
    while true
      invariant Progress(src, dst, op, ip, seqs) && seqs != []
      invariant ip0 <= ip <= |src| - LASTLITERALS
      invariant Entries(table, nil, ip - 2)
      invariant Follows(src, hash, t0, ip0, seqs0, table[..], ip, seqs)
      decreases |src| - ip
    {
      if ip >= |src| - 11 {
        return op, ip, false, seqs;
      }
      ghost var before, at, written := table[..], ip, seqs;
      var found, d := TestNext(src, table, tt, nil, hash, ip);
      ghost var t := table[..];
      if !found {
        ChainStops(src, hash, t0, ip0, seqs0, before, at, written, t);
        return op, ip, true, seqs;
      }
      op, ip, seqs := EncodeNoLiterals(src, dst, op, ip, d, step, seqs);
      assert table[..] == t;
      ChainGoesOn(src, hash, t0, ip0, seqs0, before, at, written, d, t, ip);
    }
  }

  // A sequence with its literals, then those that follow without.
  method EncodeChain(src: seq<byte>, dst: array<byte>, table: array<int>, tt: TableType, ghost nil: int,
                     hash: nat --> nat, op0: nat, anchor: nat, ip0: nat, d0: nat, ghost filled: nat,
                     step: nat, ghost seqs0: seq<Sequence>)
    returns (op: nat, ip: nat, more: bool, ghost seqs: seq<Sequence>)
    requires step == 4 || step == 8
    requires GoodHash(|src|, hash, table.Length) && GoodMode(|src|, tt, nil)
    requires dst.Length >= CompressBound(|src|) && Progress(src, dst, op0, anchor, seqs0)
    requires anchor <= ip0 <= filled <= |src| - MFLIMIT && 1 <= d0 <= DISTANCE_MAX && d0 <= ip0
    requires Repeats(src, d0, ip0, filled - ip0 + 4)
    requires Entries(table, nil, filled + 1)
    modifies dst, table
    ensures Progress(src, dst, op, ip, seqs) && seqs != []
    ensures ip0 < ip <= |src| - LASTLITERALS
    ensures filled < ip
    ensures more ==> ip < |src| - 11 && Entries(table, nil, ip + 1)
    ensures var c := FromHit(src, hash, old(table[..]), anchor, ip0, d0);
      seqs == seqs0 + c.seqs && ip == c.ip && table[..] == c.table && more == c.more
  {
    ghost var before := dst[..op0];
    assert ExpandLen(seqs0) == |Expand(seqs0, |src|)| == anchor;
    RoomForSequence(seqs0, |src|, ip0 - anchor, 0);
    op := EncodeLiterals(src, dst, op0, anchor, ip0);
    op, ip, seqs := FinishSequence(src, dst, op0, op, anchor, ip0, d0, step, filled - ip0 + 4, seqs0, before,
                                   src[anchor..ip0]);
    assert table[..] == old(table[..]);
    ghost var first, end := seqs, ip;
    op, ip, more, seqs := EncodeFollowing(src, dst, table, tt, nil, hash, op, ip, step, seqs);
    HeadOfChain(src, hash, old(table[..]), anchor, ip0, d0, seqs0, first, end, seqs);
  }

  // A sequence without literals: `token = op++; *token = 0`, then the match.
  method EncodeNoLiterals(src: seq<byte>, dst: array<byte>, token: nat, ip: nat, d: nat, step: nat,
                          ghost seqs: seq<Sequence>)
    returns (op: nat, ip': nat, ghost seqs': seq<Sequence>)
    requires step == 4 || step == 8
    requires dst.Length >= CompressBound(|src|) && Progress(src, dst, token, ip, seqs)
    requires ip <= |src| - MFLIMIT && 1 <= d <= DISTANCE_MAX && d <= ip && Repeats(src, d, ip, 4)
    modifies dst
    ensures Progress(src, dst, op, ip', seqs') && seqs' != []
    ensures ip + 4 <= ip' <= |src| - LASTLITERALS && ip' == End(src, d, ip + MINMATCH)
    ensures seqs' == seqs + [Sequence([], d, ip' - ip)]
  {
    ghost var before := dst[..token];
    assert src[ip..ip] == [];
    assert ExpandLen(seqs) == |Expand(seqs, |src|)| == ip;
    RoomForSequence(seqs, |src|, 0, 0);
    dst[token] := 0;
    assert dst[..token] == before;
    assert LitAt(dst[..token + 1], token, src[ip..ip], 0);
    op, ip', seqs' := FinishSequence(src, dst, token, token + 1, ip, ip, d, step, 4, seqs, before, []);
  }

  // The closing run of literals, with an exact copy.
  method EncodeLast(src: seq<byte>, dst: array<byte>, op0: nat, anchor: nat, ghost seqs: seq<Sequence>)
    returns (op: nat)
    requires dst.Length >= CompressBound(|src|) && Progress(src, dst, op0, anchor, seqs)
    modifies dst
    ensures op <= CompressBound(|src|) && IsBlock(dst[..op], seqs, |src|, src[anchor..])
  {
    ghost var before := dst[..op0];
    assert ExpandLen(seqs) == |Expand(seqs, |src|)| == anchor;
    EncodedSize(seqs, |src|);
    ghost var head;
    op, head := WriteLast(src, dst, op0, anchor);
    LastIsBlock(before, head, src[anchor..], seqs, |src|);
  }

  method WriteLast(src: seq<byte>, dst: array<byte>, op0: nat, anchor: nat) returns (op: nat, ghost head: seq<byte>)
    requires anchor <= |src| && op0 + LitLen(|src| - anchor) <= dst.Length
    modifies dst
    ensures op == op0 + LitLen(|src| - anchor) && dst[..op] == head + src[anchor..]
    ensures |head| == op0 + 1 + ExtLen(|src| - anchor) && head[..op0] == old(dst[..op0])
    ensures head[op0] == 16 * Nibble(|src| - anchor) && ExtAt(head, op0 + 1, |src| - anchor)
  {
    var lastRun := |src| - anchor;
    var p := EncodeLitLength(dst, op0, lastRun);
    op := p + lastRun;
    head := dst[..p];
    assert src[anchor..anchor + lastRun] == src[anchor..];
    CopyIn(dst, p, src, anchor, lastRun, lastRun);
  }

  lemma LastIsBlock(before: seq<byte>, head: seq<byte>, lits: seq<byte>, seqs: seq<Sequence>, n: nat)
    requires Fits(seqs, n) && Written(before, seqs, n) && |before| == EncLen(seqs, n)
    requires |head| == |before| + 1 + ExtLen(|lits|) && head[..|before|] == before
    requires head[|before|] == 16 * Nibble(|lits|) && ExtAt(head, |before| + 1, |lits|)
    ensures IsBlock(head + lits, seqs, n, lits)
  {
    LitsAfterHead(head, head + lits, |before|, lits);
    assert (head + lits)[0..|before|] == before[0..|before|];
    WrittenFrame(before, head + lits, seqs, n);
  }

  // What a greedy parse goes on with.
  ghost predicate ToDo(src: seq<byte>, hash: nat --> nat, acceleration: nat, table: seq<int>, anchor: nat,
                       todo: seq<Sequence>)
    requires GoodHash(|src|, hash, |table|) && acceleration >= 1 && anchor < |src| - 11
    decreases |src| - anchor
  {
    match FirstMatch(src, hash, acceleration, table, anchor, anchor + 1)
    case None => todo == []
    case Some(c) =>
      c.seqs <= todo
      && var rest := todo[|c.seqs|..];
         if c.more then ToDo(src, hash, acceleration, c.table, c.ip, rest) else rest == []
  }

  lemma {:induction false} GreedyIsToDo(src: seq<byte>, hash: nat --> nat, acceleration: nat, table: seq<int>, anchor: nat,
                                        todo: seq<Sequence>)
    requires GoodHash(|src|, hash, |table|) && acceleration >= 1 && anchor < |src| - 11
    requires todo == Greedy(src, hash, acceleration, table, anchor)
    ensures ToDo(src, hash, acceleration, table, anchor, todo)
    decreases |src| - anchor
  {
    match FirstMatch(src, hash, acceleration, table, anchor, anchor + 1)
    case None =>
    case Some(c) =>
      if c.more {
        var rest := Greedy(src, hash, acceleration, c.table, c.ip);
        GreedyIsToDo(src, hash, acceleration, c.table, c.ip, rest);
        assert todo[|c.seqs|..] == rest;
      }
  }

  lemma NothingToDo(src: seq<byte>, hash: nat --> nat, acceleration: nat, table: seq<int>, anchor: nat,
                    todo: seq<Sequence>, t: seq<int>)
    requires GoodHash(|src|, hash, |table|) && acceleration >= 1 && anchor < |src| - 11
    requires ToDo(src, hash, acceleration, table, anchor, todo)
    requires Search(src, hash, acceleration, table, anchor + 1, 0) == Nothing(t)
    ensures todo == []
  {
  }

  // One found match, and what follows it.
  lemma OneDone(src: seq<byte>, hash: nat --> nat, acceleration: nat, table: seq<int>, anchor: nat,
                todo: seq<Sequence>, chunk: seq<Sequence>, ip: nat, t: seq<int>, more: bool)
    returns (rest: seq<Sequence>)
    requires GoodHash(|src|, hash, |table|) && acceleration >= 1 && anchor < |src| - 11 && |t| == |table|
    requires ToDo(src, hash, acceleration, table, anchor, todo)
    requires FirstMatch(src, hash, acceleration, table, anchor, anchor + 1) == Some(Chained(chunk, ip, t, more))
    ensures todo == chunk + rest && (!more ==> rest == [])
    ensures more ==> ip < |src| - 11 && ToDo(src, hash, acceleration, t, ip, rest)
  {
    rest := todo[|chunk|..];
  }

  lemma Done(all: seq<Sequence>, seqs: seq<Sequence>, todo: seq<Sequence>, chunk: seq<Sequence>, rest: seq<Sequence>)
    requires all == seqs + todo && todo == chunk + rest
    ensures all == seqs + chunk + rest && (rest == [] ==> all == seqs + chunk)
  {
  }

  // Find a match, catch up, and encode it with those that follow.
  method NextMatch(src: seq<byte>, dst: array<byte>, table: array<int>, tt: TableType, ghost nil: int,
                   hash: nat --> nat, acceleration: nat, step: nat, op0: nat, anchor0: nat, ip: nat,
                   ghost seqs0: seq<Sequence>, ghost todo: seq<Sequence>)
    returns (op: nat, anchor: nat, more: bool, ghost seqs: seq<Sequence>, ghost rest: seq<Sequence>)
    requires step == 4 || step == 8
    requires GoodHash(|src|, hash, table.Length) && GoodMode(|src|, tt, nil)
    requires dst.Length >= CompressBound(|src|) && Progress(src, dst, op0, anchor0, seqs0)
    requires seqs0 != [] ==> anchor0 <= |src| - LASTLITERALS
    requires ip == anchor0 + 1 <= |src| - 11 && Entries(table, nil, ip) && acceleration >= 1
    requires ToDo(src, hash, acceleration, table[..], anchor0, todo)
    modifies dst, table
    ensures Progress(src, dst, op, anchor, seqs) && seqs0 + todo == seqs + rest && (!more ==> rest == [])
    ensures seqs != [] ==> anchor <= |src| - LASTLITERALS
    ensures more ==> ip <= anchor < |src| - 11 && Entries(table, nil, anchor + 1)
    ensures more ==> ToDo(src, hash, acceleration, table[..], anchor, rest)
  {
    ghost var t0 := table[..];
    var found, at, d := FindMatch(src, table, tt, nil, hash, ip, hash(ip), acceleration);
    ghost var t := table[..];
    if !found {
      NothingToDo(src, hash, acceleration, t0, anchor0, todo, t);
      return op0, anchor0, false, seqs0, [];
    }
    var start := CatchUp(src, anchor0, at, d);
    op, anchor, more, seqs := EncodeChain(src, dst, table, tt, nil, hash, op0, anchor0, start, d, at, step, seqs0);
    ghost var chunk := FromHit(src, hash, t, anchor0, start, d).seqs;
    rest := OneDone(src, hash, acceleration, t0, anchor0, todo, chunk, anchor, table[..], more);
    Done(seqs0 + todo, seqs0, todo, chunk, rest);
  }

  // LZ4_compress_generic_validated (notLimited, noDict). The block written decodes
  // to the input, byte at a time and in the C decoder given |src| bytes of room; it
  // obeys the format's restrictions and fits the promised bound; its matches are those
  // of the greedy parse, all of them.
  method Compress(src: seq<byte>, dst: array<byte>, table: array<int>, tt: TableType, ghost nil: int,
                  hash: nat --> nat, acceleration: nat, step: nat)
    returns (r: nat)
    requires 1 <= |src| <= MAX_INPUT_SIZE && dst.Length >= CompressBound(|src|)
    requires GoodHash(|src|, hash, table.Length) && GoodMode(|src|, tt, nil)
    requires forall i :: 0 <= i < table.Length ==> table[i] == nil
    requires acceleration >= 1 && (step == 4 || step == 8)
    modifies dst, table
    ensures r <= CompressBound(|src|)
    ensures Decode(dst[..r], 0, []) == Some(src)
    ensures SafeDecode(dst[..r], |src|) == Some(src)
    ensures ObeysRules(dst[..r], 0, 0, |src|)
    ensures IsGreedy(src, dst[..r], Parse(src, hash, acceleration, old(table[..])))
  {
    var op: nat, anchor: nat := 0, 0;
    ghost var seqs: seq<Sequence>, all := [], Parse(src, hash, acceleration, table[..]);
    if |src| >= MFLIMIT + 1 {
      table[hash(0)] := 0;
      assert table[..] == old(table[..])[hash(0) := 0];
      var ip: nat := 1;
      ghost var todo := all;
      GreedyIsToDo(src, hash, acceleration, table[..], 0, todo);
      assert [] + all == all;
      while true
        invariant Progress(src, dst, op, anchor, seqs)
        invariant seqs != [] ==> anchor <= |src| - LASTLITERALS
        invariant ip == anchor + 1 <= |src| - 11 && Entries(table, nil, ip)
        invariant all == seqs + todo && ToDo(src, hash, acceleration, table[..], anchor, todo)
        decreases |src| - ip
      {
        var more;
        op, anchor, more, seqs, todo :=
          NextMatch(src, dst, table, tt, nil, hash, acceleration, step, op, anchor, ip, seqs, todo);
        if !more {
          assert seqs + [] == seqs;
          break;
        }
        ip := anchor + 1;
      }
    }
    assert seqs == all;
    r := EncodeLast(src, dst, op, anchor, seqs);
    BlockIsRight(src, dst[..r], anchor, seqs);
    BlockIsGreedy(src, dst[..r], anchor, seqs);
  }

  lemma BlockIsGreedy(src: seq<byte>, b: seq<byte>, anchor: nat, seqs: seq<Sequence>)
    requires anchor <= |src| && Fits(seqs, |src|)
    requires Expand(seqs, |src|) == src[..anchor] && IsBlock(b, seqs, |src|, src[anchor..])
    ensures IsGreedy(src, b, seqs)
  {
    assert |Expand(seqs, |src|)| == anchor;
  }

  lemma BlockIsRight(src: seq<byte>, b: seq<byte>, anchor: nat, seqs: seq<Sequence>)
    requires 1 <= |src| && anchor <= |src| && Fits(seqs, |src|)
    requires Expand(seqs, |src|) == src[..anchor] && IsBlock(b, seqs, |src|, src[anchor..])
    requires seqs != [] ==> anchor <= |src| - LASTLITERALS
    ensures Decode(b, 0, []) == Some(src)
    ensures SafeDecode(b, |src|) == Some(src)
    ensures ObeysRules(b, 0, 0, |src|)
  {
    SliceAll(src, anchor);
    assert |Expand(seqs, |src|)| == anchor;
    BlockDecodes(b, seqs, |src|, src[anchor..]);
    BlockSafelyDecodes(b, seqs, |src|, src[anchor..]);
    BlockObeysRules(b, seqs, |src|, src[anchor..]);
  }
}
