// What the greedy parse is worth: no probe that recurs is passed over, and an input that
// consists of runs shrinks to a few bytes for each.

module Lz4Greedy {
  import opened Bytes
  import opened Lz4Encoding
  import opened Lz4Format
  import opened Lz4Search

  // ---- Every probe ---------------------------------------------------------------------------

  // The k-th probe, and the table it is tried against.
  function ProbeAt(acceleration: nat, p: nat, k: nat): (r: nat)
    requires acceleration >= 1
    ensures r >= p
  {
    if k == 0 then p else ProbeAt(acceleration, p, k - 1) + StepAfter(acceleration, k - 1)
  }

  // All probes up to k leave room for the next.
  predicate Tried(n: nat, acceleration: nat, p: nat, k: nat)
    requires acceleration >= 1
  {
    ProbeAt(acceleration, p, k + 1) <= n - 11
  }

  ghost function TableAt(n: nat, hash: Hash, acceleration: nat, table: seq<int>, p: nat, k: nat): (t: seq<int>)
    requires GoodHash(n, hash, |table|) && acceleration >= 1 && ProbeAt(acceleration, p, k) <= n - 11
    ensures |t| == |table|
  {
    if k == 0 then table
    else
      var q := ProbeAt(acceleration, p, k - 1);
      TableAt(n, hash, acceleration, table, p, k - 1)[hash(q) := q]
  }

  ghost predicate Hits(src: seq<byte>, hash: Hash, acceleration: nat, table: seq<int>, p: nat, k: nat)
    requires GoodHash(|src|, hash, |table|) && acceleration >= 1 && ProbeAt(acceleration, p, k) <= |src| - 11
  {
    var q := ProbeAt(acceleration, p, k);
    Recurs(src, TableAt(|src|, hash, acceleration, table, p, k)[hash(q)], q)
  }

  // The probes are tried in their order, up to the first that hits or the last there is room
  // for.
  lemma {:induction false} SearchFrom(src: seq<byte>, hash: Hash, acceleration: nat, table: seq<int>, p: nat, k: nat)
    returns (j: nat)
    requires GoodHash(|src|, hash, |table|) && acceleration >= 1 && ProbeAt(acceleration, p, k) <= |src| - 11
    ensures j >= k && forall i :: k <= i < j ==> Tried(|src|, acceleration, p, i) && !Hits(src, hash, acceleration, table, p, i)
    ensures var q := ProbeAt(acceleration, p, k);
      match Search(src, hash, acceleration, TableAt(|src|, hash, acceleration, table, p, k), q, k)
      case Nothing(_) => !Tried(|src|, acceleration, p, j)
      case Hit(at, d, _) => Tried(|src|, acceleration, p, j) && at == ProbeAt(acceleration, p, j)
                            && Hits(src, hash, acceleration, table, p, j)
    decreases |src| - ProbeAt(acceleration, p, k)
  {
    var q, t := ProbeAt(acceleration, p, k), TableAt(|src|, hash, acceleration, table, p, k);
    j := k;
    if Tried(|src|, acceleration, p, k) && !Hits(src, hash, acceleration, table, p, k) {
      assert TableAt(|src|, hash, acceleration, table, p, k + 1) == t[hash(q) := q];
      j := SearchFrom(src, hash, acceleration, table, p, k + 1);
    }
  }

  // The search reports the first probe that recurs, and nothing only when none does.
  lemma SearchIsFirst(src: seq<byte>, hash: Hash, acceleration: nat, table: seq<int>, p: nat) returns (j: nat)
    requires GoodHash(|src|, hash, |table|) && acceleration >= 1 && p <= |src| - 11
    ensures forall i :: 0 <= i < j ==> Tried(|src|, acceleration, p, i) && !Hits(src, hash, acceleration, table, p, i)
    ensures match Search(src, hash, acceleration, table, p, 0)
      case Nothing(_) => !Tried(|src|, acceleration, p, j)
      case Hit(at, d, _) => Tried(|src|, acceleration, p, j) && at == ProbeAt(acceleration, p, j)
                            && Hits(src, hash, acceleration, table, p, j)
  {
    j := SearchFrom(src, hash, acceleration, table, p, 0);
  }

  // In particular the first, if there is room for another.
  lemma FirstProbe(src: seq<byte>, hash: Hash, acceleration: nat, table: seq<int>, p: nat)
    requires GoodHash(|src|, hash, |table|) && acceleration >= 1 && p + 1 <= |src| - 11
    requires Recurs(src, table[hash(p)], p)
    ensures Search(src, hash, acceleration, table, p, 0) == Hit(p, p - table[hash(p)], table[hash(p) := p])
  {
  }

  // ---- Runs -------------------------------------------------------------------------------------

  // A hash looks at eight bytes and nothing else.
  ghost predicate LocalHash(src: seq<byte>, hash: Hash) {
    forall p: nat, q: nat :: p + 8 <= |src| && q + 8 <= |src| && src[p..p + 8] == src[q..q + 8] ==>
      hash.requires(p) && hash.requires(q) && hash(p) == hash(q)
  }

  // The same byte from i up to j.
  predicate Run(src: seq<byte>, i: nat, j: nat) {
    i <= j <= |src| && forall k :: i <= k < j ==> src[k] == src[i]
  }

  lemma SameSlot(src: seq<byte>, hash: Hash, i: nat, j: nat, p: nat, q: nat)
    requires LocalHash(src, hash) && Run(src, i, j) && i <= p && i <= q && p + 8 <= j && q + 8 <= j
    ensures hash.requires(p) && hash.requires(q) && hash(p) == hash(q)
  {
    assert src[p..p + 8] == src[q..q + 8];
  }

  lemma RunRecurs(src: seq<byte>, i: nat, j: nat)
    requires Run(src, i, j) && i + 5 <= j
    ensures Recurs(src, i, i + 1)
  {
    assert src[i..i + 4] == src[i + 1..i + 5];
  }

  lemma {:induction false} RunEnds(src: seq<byte>, i: nat, j: nat, p: nat)
    requires Run(src, i, j) && i < p <= j && p <= |src| - LASTLITERALS && (j == |src| || src[j] != src[i])
    ensures End(src, 1, p) == if j <= |src| - LASTLITERALS then j else |src| - LASTLITERALS
    decreases j - p
  {
    if p < j && p < |src| - LASTLITERALS {
      assert src[p] == src[p - 1];
      RunEnds(src, i, j, p + 1);
    }
  }

  // Where a run that goes on to j stops being matched.
  function RunEnd(n: nat, j: nat): (r: nat)
    requires LASTLITERALS <= n
  {
    if j <= n - LASTLITERALS then j else n - LASTLITERALS
  }

  lemma FromRun(src: seq<byte>, hash: Hash, table: seq<int>, i: nat, j: nat)
    requires GoodHash(|src|, hash, |table|) && Run(src, i, j) && i + 13 <= j && (j == |src| || src[j] != src[i])
    ensures var c := Chain(src, hash, table, RunEnd(|src|, j));
      FromHit(src, hash, table, i, i + 1, 1) == c.(seqs := [Sequence([src[i]], 1, RunEnd(|src|, j) - i - 1)] + c.seqs)
  {
    RunEnds(src, i, j, i + 5);
    assert src[i..i + 1] == [src[i]];
  }

  lemma NotBefore(src: seq<byte>, i: nat)
    requires i + 1 <= |src| && (i == 0 || src[i - 1] != src[i])
    ensures Begin(src, i, 1, i + 1) == i + 1
  {
  }

  // Behind an anchor that is in the table, a run of 13 bytes is one byte and a match, up to
  // where the run ends.
  lemma RunIsAMatch(src: seq<byte>, hash: Hash, acceleration: nat, table: seq<int>, i: nat, j: nat)
    requires GoodHash(|src|, hash, |table|) && LocalHash(src, hash) && acceleration >= 1
    requires Run(src, i, j) && i + 13 <= j && (j == |src| || src[j] != src[i]) && (i == 0 || src[i - 1] != src[i])
    requires table[hash(i)] == i
    ensures FirstMatch(src, hash, acceleration, table, i, i + 1)
            == Some(FromHit(src, hash, table[hash(i + 1) := i + 1], i, i + 1, 1))
  {
    SameSlot(src, hash, i, j, i, i + 1);
    RunRecurs(src, i, j);
    FirstProbe(src, hash, acceleration, table, i + 1);
    NotBefore(src, i);
  }

  // ---- An input of runs -----------------------------------------------------------------------

  // The input from i on: runs of at least 13 bytes, each of a byte not seen before it.
  ghost predicate Runs(src: seq<byte>, i: nat, ends: seq<nat>)
    decreases |ends|
  {
    if ends == [] then i == |src|
    else
      && i + 13 <= ends[0] <= |src| && Run(src, i, ends[0]) && src[i] !in src[..i]
      && Runs(src, ends[0], ends[1..])
  }

  // What the parse makes of them: a byte and a match for each.
  ghost function RunSeqs(src: seq<byte>, i: nat, ends: seq<nat>): seq<Sequence>
    requires Runs(src, i, ends) && LASTLITERALS <= |src|
    decreases |ends|
  {
    if ends == [] then []
    else [Sequence([src[i]], 1, RunEnd(|src|, ends[0]) - i - 1)] + RunSeqs(src, ends[0], ends[1..])
  }

  // A byte not seen before recurs nowhere.
  lemma NewByte(src: seq<byte>, m: int, p: nat)
    requires p < |src| && src[p] !in src[..p]
    ensures !Recurs(src, m, p)
  {
    if 0 <= m < p && p + 4 <= |src| {
      assert src[m..m + 4][0] == src[m] && src[p..p + 4][0] == src[p];
      assert src[..p][m] == src[m];
    }
  }

  // Nothing chains on a run that ends the input, or has a new byte behind it.
  lemma RunIsAlone(src: seq<byte>, hash: Hash, table: seq<int>, j: nat)
    requires GoodHash(|src|, hash, |table|) && 13 <= j <= |src|
    requires j < |src| ==> j + 13 <= |src| && src[j] !in src[..j]
    ensures var c := Chain(src, hash, table, RunEnd(|src|, j));
      && c.seqs == [] && (c.more <==> j < |src|)
      && (c.more ==> c.ip == j && c.table[hash(j)] == j)
  {
    if j < |src| {
      NewByte(src, table[hash(j - 2) := j - 2][hash(j)], j);
    }
  }

  // The parse of one run, and where it stands behind it.
  lemma RunParsed(src: seq<byte>, hash: Hash, acceleration: nat, table: seq<int>, i: nat, ends: seq<nat>)
    returns (c: Chained)
    requires GoodHash(|src|, hash, |table|) && LocalHash(src, hash) && acceleration >= 1
    requires Runs(src, i, ends) && ends != [] && table[hash(i)] == i
    ensures FirstMatch(src, hash, acceleration, table, i, i + 1) == Some(c) && |c.table| == |table|
    ensures i < |src| - 11 && c.seqs == [Sequence([src[i]], 1, RunEnd(|src|, ends[0]) - i - 1)]
    ensures c.more <==> ends[1..] != []
    ensures c.more ==> c.ip == ends[0] && c.table[hash(c.ip)] == c.ip
  {
    var j := ends[0];
    var t := table[hash(i + 1) := i + 1];
    OneRun(src, i, ends);
    RunIsAMatch(src, hash, acceleration, table, i, j);
    FromRun(src, hash, t, i, j);
    RunIsAlone(src, hash, t, j);
    c := FromHit(src, hash, t, i, i + 1, 1);
  }

  lemma {:induction false} RunsParse(src: seq<byte>, hash: Hash, acceleration: nat, table: seq<int>, i: nat, ends: seq<nat>)
    requires GoodHash(|src|, hash, |table|) && LocalHash(src, hash) && acceleration >= 1
    requires Runs(src, i, ends) && ends != [] && table[hash(i)] == i
    ensures i < |src| - 11 && Greedy(src, hash, acceleration, table, i) == RunSeqs(src, i, ends)
    decreases |ends|
  {
    var c := RunParsed(src, hash, acceleration, table, i, ends);
    if c.more {
      RunsParse(src, hash, acceleration, c.table, c.ip, ends[1..]);
    }
  }

  lemma OneRun(src: seq<byte>, i: nat, ends: seq<nat>)
    requires Runs(src, i, ends) && ends != []
    ensures var j := ends[0];
      && i + 13 <= j <= |src| && Run(src, i, j) && (i == 0 || src[i - 1] != src[i])
      && (ends[1..] == [] <==> j == |src|) && (j < |src| ==> j + 13 <= |src| && src[j] !in src[..j] && src[j] != src[i])
  {
    if i > 0 {
      assert src[..i][i - 1] == src[i - 1];
    }
    if ends[1..] != [] {
      assert src[..ends[0]][i] == src[i];
    }
  }

  // ---- How long that is -------------------------------------------------------------------------

  function TotalLen(seqs: seq<Sequence>): nat
    requires forall s :: s in seqs ==> s.mlen >= MINMATCH
  {
    if seqs == [] then 0 else TotalLen(Init(seqs)) + SeqLen(Back(seqs))
  }

  lemma {:induction false} EncLenIsTotal(seqs: seq<Sequence>, n: nat)
    requires Fits(seqs, n)
    ensures (forall s :: s in seqs ==> s.mlen >= MINMATCH) && EncLen(seqs, n) == TotalLen(seqs)
    decreases |seqs|
  {
    if seqs != [] {
      EncLenIsTotal(Init(seqs), n);
      assert seqs == Init(seqs) + [Back(seqs)];
    }
  }

  lemma {:induction false} TotalFirst(s: Sequence, seqs: seq<Sequence>)
    requires s.mlen >= MINMATCH && forall x :: x in seqs ==> x.mlen >= MINMATCH
    ensures TotalLen([s] + seqs) == SeqLen(s) + TotalLen(seqs)
    decreases |seqs|
  {
    if seqs == [] {
      assert [s] + seqs == [s] && Init([s]) == [];
    } else {
      TotalFirst(s, Init(seqs));
      assert Init([s] + seqs) == [s] + Init(seqs);
    }
  }

  lemma ExtLenBound(x: nat)
    ensures 255 * ExtLen(x) <= x + 240
  {
  }

  // Five bytes a run, and one for every 255 bytes.
  lemma {:induction false} RunSeqsLen(src: seq<byte>, i: nat, ends: seq<nat>)
    requires Runs(src, i, ends) && LASTLITERALS <= |src|
    ensures forall s :: s in RunSeqs(src, i, ends) ==> s.mlen >= MINMATCH
    ensures 255 * TotalLen(RunSeqs(src, i, ends)) <= 1275 * |ends| + |src| - i
    decreases |ends|
  {
    if ends != [] {
      var s, rest := Sequence([src[i]], 1, RunEnd(|src|, ends[0]) - i - 1), RunSeqs(src, ends[0], ends[1..]);
      RunSeqsLen(src, ends[0], ends[1..]);
      ExtLenBound(s.mlen - MINMATCH);
      TotalFirst(s, rest);
    }
  }

  // An input of k runs takes at most five bytes a run, one for every 255 bytes, and six for
  // the literals at the end.
  lemma RunsCompress(src: seq<byte>, hash: Hash, acceleration: nat, table: seq<int>, ends: seq<nat>)
    requires GoodHash(|src|, hash, |table|) && LocalHash(src, hash) && acceleration >= 1
    requires Runs(src, 0, ends) && ends != [] && Fits(Parse(src, hash, acceleration, table), |src|)
    ensures EncLen(Parse(src, hash, acceleration, table), |src|) <= 5 * |ends| + |src| / 255
    ensures ExpandLen(Parse(src, hash, acceleration, table)) == |src| - LASTLITERALS
  {
    OneRun(src, 0, ends);
    RunsParse(src, hash, acceleration, table[hash(0) := 0], 0, ends);
    RunSeqsLen(src, 0, ends);
    EncLenIsTotal(Parse(src, hash, acceleration, table), |src|);
    RunsExpand(src, 0, ends);
  }

  function Covered(seqs: seq<Sequence>): nat {
    if seqs == [] then 0 else |seqs[0].lits| + seqs[0].mlen + Covered(seqs[1..])
  }

  lemma {:induction false} CoveredLast(seqs: seq<Sequence>)
    ensures Covered(seqs) == ExpandLen(seqs)
    decreases |seqs|
  {
    if |seqs| == 1 {
      assert Init(seqs) == [] && seqs[1..] == [];
    } else if |seqs| > 1 {
      CoveredLast(seqs[1..]);
      CoveredLast(Init(seqs));
      CoveredLast(Init(seqs[1..]));
      assert Init(seqs)[1..] == Init(seqs[1..]) && Back(seqs[1..]) == Back(seqs);
    }
  }

  lemma {:induction false} RunsCover(src: seq<byte>, i: nat, ends: seq<nat>)
    requires Runs(src, i, ends) && ends != []
    ensures LASTLITERALS <= |src| && Covered(RunSeqs(src, i, ends)) == |src| - LASTLITERALS - i
    decreases |ends|
  {
    OneRun(src, i, ends);
    var s := Sequence([src[i]], 1, RunEnd(|src|, ends[0]) - i - 1);
    var rest := RunSeqs(src, ends[0], ends[1..]);
    assert ([s] + rest)[1..] == rest;
    if ends[1..] != [] {
      RunsCover(src, ends[0], ends[1..]);
    }
  }

  lemma RunsExpand(src: seq<byte>, i: nat, ends: seq<nat>)
    requires Runs(src, i, ends) && ends != []
    ensures LASTLITERALS <= |src| && ExpandLen(RunSeqs(src, i, ends)) == |src| - LASTLITERALS - i
  {
    RunsCover(src, i, ends);
    CoveredLast(RunSeqs(src, i, ends));
  }

  // So does a block made of that parse, whatever the table was cleared to.
  lemma RunsBlock(src: seq<byte>, b: seq<byte>, hash: Hash, acceleration: nat, table: seq<int>, ends: seq<nat>)
    requires GoodHash(|src|, hash, |table|) && LocalHash(src, hash) && acceleration >= 1
    requires Runs(src, 0, ends) && ends != [] && IsGreedy(src, b, Parse(src, hash, acceleration, table))
    ensures |b| <= 5 * |ends| + |src| / 255 + 6
  {
    RunsCompress(src, hash, acceleration, table, ends);
  }

  lemma {:induction false} RunsAreLong(src: seq<byte>, i: nat, ends: seq<nat>)
    requires Runs(src, i, ends)
    ensures i + 13 * |ends| <= |src|
    decreases |ends|
  {
    if ends != [] {
      RunsAreLong(src, ends[0], ends[1..]);
    }
  }
}
