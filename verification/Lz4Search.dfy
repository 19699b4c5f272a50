// The matches a greedy parse of the input takes, given a table of earlier positions: the
// first probe whose four bytes recur, carried backwards and forwards as far as it goes.

module Lz4Search {
  import opened Bytes
  import opened Lz4Encoding
  import opened Lz4Format

  const SKIP_TRIGGER: int := 64  // 1 << LZ4_skipTrigger

  type Hash = nat --> nat

  // The block position table and the hash of the bytes at a position. A hash may
  // read eight bytes.
  ghost predicate GoodHash(n: nat, hash: Hash, slots: nat) {
    forall p: nat :: p + 8 <= n ==> hash.requires(p) && hash(p) < slots
  }

  // The four bytes at p were there before at m, near enough.
  predicate Recurs(src: seq<byte>, m: int, p: nat) {
    && 0 <= m < p && p + 4 <= |src| && p - m <= DISTANCE_MAX
    && src[m] == src[p] && src[m + 1] == src[p + 1] && src[m + 2] == src[p + 2] && src[m + 3] == src[p + 3]
  }

  // How far the next probe is after the k-th that failed: further and further.
  function StepAfter(acceleration: nat, k: nat): (r: nat)
    requires acceleration >= 1
    ensures r >= 1
  {
    if k == 0 then 1 else (acceleration * 64 + k - 1) / 64
  }

  datatype Searched = Nothing(table: seq<int>) | Hit(at: nat, d: nat, table: seq<int>)

  // From the k-th probe, at p: every probe goes into the table; the last one that would
  // leave no room for the next is not tried.
  ghost function Search(src: seq<byte>, hash: Hash, acceleration: nat, table: seq<int>, p: nat, k: nat): Searched
    requires GoodHash(|src|, hash, |table|) && acceleration >= 1 && p <= |src| - 11
    decreases |src| - p
  {
    var next := p + StepAfter(acceleration, k);
    if next > |src| - 11 then Nothing(table)
    else if Recurs(src, table[hash(p)], p) then Hit(p, p - table[hash(p)], table[hash(p) := p])
    else Search(src, hash, acceleration, table[hash(p) := p], next, k + 1)
  }

  // One probe more, that found something, or did not.
  lemma SearchHits(src: seq<byte>, hash: Hash, acceleration: nat, table: seq<int>, p: nat, k: nat)
    requires GoodHash(|src|, hash, |table|) && acceleration >= 1 && p + StepAfter(acceleration, k) <= |src| - 11
    requires Recurs(src, table[hash(p)], p)
    ensures Search(src, hash, acceleration, table, p, k) == Hit(p, p - table[hash(p)], table[hash(p) := p])
  {
  }

  // Where the search goes on.
  lemma NextProbe(src: seq<byte>, hash: Hash, acceleration: nat, table: seq<int>, p: nat, k: nat)
    returns (t: seq<int>, q: nat, j: nat)
    requires GoodHash(|src|, hash, |table|) && acceleration >= 1 && p + StepAfter(acceleration, k) <= |src| - 11
    requires !Recurs(src, table[hash(p)], p)
    ensures t == table[hash(p) := p] && q == p + StepAfter(acceleration, k) && j == k + 1
    ensures Search(src, hash, acceleration, table, p, k) == Search(src, hash, acceleration, t, q, j)
  {
    SearchUnfolds(src, hash, acceleration, table, p, k);
    t, q, j := table[hash(p) := p], p + StepAfter(acceleration, k), k + 1;
  }

  lemma SearchUnfolds(src: seq<byte>, hash: Hash, acceleration: nat, table: seq<int>, p: nat, k: nat)
    requires GoodHash(|src|, hash, |table|) && acceleration >= 1 && p + StepAfter(acceleration, k) <= |src| - 11
    requires !Recurs(src, table[hash(p)], p)
    ensures Search(src, hash, acceleration, table, p, k)
            == Search(src, hash, acceleration, table[hash(p) := p], p + StepAfter(acceleration, k), k + 1)
  {
  }

  // The byte at j is the byte d before it.
  predicate Echo(src: seq<byte>, d: nat, j: int) {
    d <= j < |src| && src[j - d] == src[j]
  }

  // `len` bytes at p repeat the bytes d before them.
  predicate Repeats(src: seq<byte>, d: nat, p: nat, len: nat) {
    forall j :: p <= j < p + len ==> Echo(src, d, j)
  }

  // Where a repeat at distance d that is known at ip begins, not before the anchor.
  function Begin(src: seq<byte>, anchor: nat, d: nat, ip: nat): (r: nat)
    requires ip <= |src|
    ensures r <= ip && (anchor <= ip ==> anchor <= r) && (d <= ip ==> d <= r) && Repeats(src, d, r, ip - r)
    ensures r <= anchor || r <= d || !Echo(src, d, r - 1)
  {
    if anchor < ip && d < ip && src[ip - 1] == src[ip - 1 - d] then Begin(src, anchor, d, ip - 1) else ip
  }

  // Where it ends: at the first byte that differs, or five before the end.
  function End(src: seq<byte>, d: nat, p: nat): (r: nat)
    requires d <= p <= |src| - LASTLITERALS
    ensures p <= r <= |src| - LASTLITERALS && Repeats(src, d, p, r - p)
    ensures r == |src| - LASTLITERALS || !Echo(src, d, r)
    decreases |src| - p
  {
    if p < |src| - LASTLITERALS && src[p] == src[p - d] then End(src, d, p + 1) else p
  }

  // Right behind a match that ended at ip: does the next one start there? The position two
  // before and the position itself go into the table.
  ghost function Test(src: seq<byte>, hash: Hash, table: seq<int>, ip: nat): (r: (Option<nat>, seq<int>))
    requires GoodHash(|src|, hash, |table|) && 2 <= ip < |src| - 11
    ensures |r.1| == |table| && (r.0.Some? ==> 1 <= r.0.value <= ip)
  {
    var t := table[hash(ip - 2) := ip - 2];
    var m := t[hash(ip)];
    (if Recurs(src, m, ip) then Some(ip - m) else None, t[hash(ip) := ip])
  }

  datatype Chained = Chained(seqs: seq<Sequence>, ip: nat, table: seq<int>, more: bool)

  // Matches without literals, as long as there are any.
  ghost function Chain(src: seq<byte>, hash: Hash, table: seq<int>, ip: nat): (c: Chained)
    requires GoodHash(|src|, hash, |table|) && 2 <= ip <= |src|
    ensures |c.table| == |table| && ip <= c.ip <= |src| && (c.more ==> c.ip < |src| - 11)
    decreases |src| - ip
  {
    if ip >= |src| - 11 then Chained([], ip, table, false)
    else
      var (d, t) := Test(src, hash, table, ip);
      if d.None? then Chained([], ip, t, true)
      else
        var end := End(src, d.value, ip + MINMATCH);
        var c := Chain(src, hash, t, end);
        c.(seqs := [Sequence([], d.value, end - ip)] + c.seqs)
  }

  // A match with the literals before it, and the chain behind it.
  ghost function FromHit(src: seq<byte>, hash: Hash, table: seq<int>, anchor: nat, start: nat, d: nat): (c: Chained)
    requires GoodHash(|src|, hash, |table|) && anchor <= start <= |src| - MFLIMIT && 1 <= d <= start
    ensures |c.table| == |table| && start < c.ip <= |src| && (c.more ==> c.ip < |src| - 11)
  {
    var end := End(src, d, start + MINMATCH);
    var c := Chain(src, hash, table, end);
    c.(seqs := [Sequence(src[anchor..start], d, end - start)] + c.seqs)
  }

  lemma {:induction false} HitIsLater(src: seq<byte>, hash: Hash, acceleration: nat, table: seq<int>, p: nat, k: nat)
    requires GoodHash(|src|, hash, |table|) && acceleration >= 1 && p <= |src| - 11
    ensures var r := Search(src, hash, acceleration, table, p, k);
      && |r.table| == |table|
      && (r.Hit? ==> p <= r.at <= |src| - MFLIMIT && 1 <= r.d <= r.at && Recurs(src, r.at - r.d, r.at))
    decreases |src| - p
  {
    var next := p + StepAfter(acceleration, k);
    if next <= |src| - 11 && !Recurs(src, table[hash(p)], p) {
      HitIsLater(src, hash, acceleration, table[hash(p) := p], next, k + 1);
    }
  }

  // The first match behind an anchor, the next probe being at ip.
  ghost function FirstMatch(src: seq<byte>, hash: Hash, acceleration: nat, table: seq<int>, anchor: nat, ip: nat)
    : (r: Option<Chained>)
    requires GoodHash(|src|, hash, |table|) && acceleration >= 1 && anchor < ip <= |src| - 11
    ensures r.Some? ==> |r.value.table| == |table| && anchor < r.value.ip <= |src|
    ensures r.Some? && r.value.more ==> r.value.ip < |src| - 11
  {
    HitIsLater(src, hash, acceleration, table, ip, 0);
    match Search(src, hash, acceleration, table, ip, 0)
    case Nothing(_) => None
    case Hit(at, d, t) => Some(FromHit(src, hash, t, anchor, Begin(src, anchor, d, at), d))
  }

  // From an anchor on, match after match.
  ghost function Greedy(src: seq<byte>, hash: Hash, acceleration: nat, table: seq<int>, anchor: nat): seq<Sequence>
    requires GoodHash(|src|, hash, |table|) && acceleration >= 1 && anchor < |src| - 11
    decreases |src| - anchor
  {
    match FirstMatch(src, hash, acceleration, table, anchor, anchor + 1)
    case None => []
    case Some(c) => c.seqs + if c.more then Greedy(src, hash, acceleration, c.table, c.ip) else []
  }

  // The whole input: too short a one is all literals; the first position is in the table.
  ghost function Parse(src: seq<byte>, hash: Hash, acceleration: nat, table: seq<int>): seq<Sequence>
    requires GoodHash(|src|, hash, |table|) && acceleration >= 1
  {
    if |src| < MFLIMIT + 1 then [] else Greedy(src, hash, acceleration, table[hash(0) := 0], 0)
  }

  // The block is these sequences and the rest as literals.
  ghost predicate IsGreedy(src: seq<byte>, b: seq<byte>, seqs: seq<Sequence>) {
    && Fits(seqs, |src|) && ExpandLen(seqs) <= |src|
    && IsBlock(b, seqs, |src|, src[ExpandLen(seqs)..])
  }
}
