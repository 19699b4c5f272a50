// Snapshot ids: creation time in hex, the search for a free one, and retention by age.

module SnapIds {
  import opened Bytes
  import opened HexNames
  import opened Tlv

  // snapid_encode: minutes and ticks are truncated to 16 bits.
  function SnapId(days: nat, mins: nat, ticks: nat): (r: string)
    ensures |r| == 16
  {
    HexOf(Be(4, days) + Be(2, mins) + Be(2, ticks))
  }

  function IdValue(days: nat, mins: nat, ticks: nat): nat {
    (days % U32) * U32 + (mins % U16) * U16 + ticks % U16
  }

  lemma Be2(v: nat)
    ensures Be(2, v) == [v / 256 % 256, v % 256]
  {
    assert Be(1, v / 256) == Be(0, v / 256 / 256) + [v / 256 % 256];
  }

  lemma Be4(v: nat)
    ensures Be(4, v) == Be(2, v / U16) + Be(2, v)
  {
    Be2(v);
    Be2(v / U16);
    assert Be(4, v) == Be(3, v / 256) + [v % 256];
    assert Be(3, v / 256) == Be(2, v / 256 / 256) + [v / 256 % 256];
    assert v / 256 / 256 == v / U16;
  }

  lemma {:induction false} GetBeConcat(a: seq<byte>, b: seq<byte>)
    ensures GetBe(a + b) == GetBe(a) * Pow256(|b|) + GetBe(b)
    decreases |b|
  {
    if b == [] {
      assert a + b == a;
    } else {
      var init := b[..|b| - 1];
      GetBeConcat(a, init);
      assert (a + b)[..|a + b| - 1] == a + init;
      assert 256 * (GetBe(a) * Pow256(|init|)) == GetBe(a) * Pow256(|b|);
    }
  }

  lemma GetBe2(v: nat)
    ensures GetBe(Be(2, v)) == v % U16
  {
    Be2(v);
    var s := Be(2, v);
    assert s[..1][..0] == [] && GetBe(s[..1]) == 256 * GetBe([]) + s[0];
  }

  lemma GetBe4(v: nat)
    ensures GetBe(Be(4, v)) == v % U32
  {
    Be4(v);
    TwoMore(Be(2, v / U16), Be(2, v));
    GetBe2(v);
    GetBe2(v / U16);
  }

  lemma TwoMore(a: seq<byte>, b: seq<byte>)
    requires |b| == 2
    ensures GetBe(a + b) == GetBe(a) * U16 + GetBe(b)
  {
    GetBeConcat(a, b);
    Widths();
  }

  lemma IdBytes(days: nat, mins: nat, ticks: nat)
    ensures GetBe(Be(4, days) + Be(2, mins) + Be(2, ticks)) == IdValue(days, mins, ticks)
  {
    TwoMore(Be(4, days) + Be(2, mins), Be(2, ticks));
    TwoMore(Be(4, days), Be(2, mins));
    GetBe4(days);
    GetBe2(mins);
    GetBe2(ticks);
  }

  // Ids sort like the times they stand for.
  lemma IdOrder(d: nat, m: nat, t: nat, d': nat, m': nat, t': nat)
    ensures StrLess(SnapId(d, m, t), SnapId(d', m', t')) <==> IdValue(d, m, t) < IdValue(d', m', t')
    ensures SnapId(d, m, t) == SnapId(d', m', t') <==> IdValue(d, m, t) == IdValue(d', m', t')
  {
    var a, b := Be(4, d) + Be(2, m) + Be(2, t), Be(4, d') + Be(2, m') + Be(2, t');
    HexKeepsOrder(a, b);
    HexKeepsOrder(b, a);
    BytesKeepOrder(a, b);
    BytesKeepOrder(b, a);
    IdBytes(d, m, t);
    IdBytes(d', m', t');
    StrLessTotal(HexOf(a), HexOf(b));
  }

  predicate Earlier(d: nat, m: nat, t: nat, d': nat, m': nat, t': nat) {
    d < d' || (d == d' && (m < m' || (m == m' && t < t')))
  }

  // For times that fit their fields, id order is exactly time order.
  lemma IdsAreChronological(d: nat, m: nat, t: nat, d': nat, m': nat, t': nat)
    requires d < U32 && m < U16 && t < U16 && d' < U32 && m' < U16 && t' < U16
    ensures StrLess(SnapId(d, m, t), SnapId(d', m', t')) <==> Earlier(d, m, t, d', m', t')
    ensures SnapId(d, m, t) == SnapId(d', m', t') <==> d == d' && m == m' && t == t'
  {
    IdOrder(d, m, t, d', m', t');
    PackedOrder(d, m, t, d', m', t');
  }

  lemma PackedOrder(d: nat, m: nat, t: nat, d': nat, m': nat, t': nat)
    requires d < U32 && m < U16 && t < U16 && d' < U32 && m' < U16 && t' < U16
    ensures IdValue(d, m, t) < IdValue(d', m', t') <==> Earlier(d, m, t, d', m', t')
    ensures IdValue(d, m, t) == IdValue(d', m', t') <==> d == d' && m == m' && t == t'
  {
    Unreduced(d, m, t);
    Unreduced(d', m', t');
    Packed2(m, t, m', t');
    var x, y := m * U16 + t, m' * U16 + t';
    assert x < U32 && y < U32;
    assert d * U32 + x < d' * U32 + y <==> d < d' || (d == d' && x < y);
  }

  lemma Packed2(m: nat, t: nat, m': nat, t': nat)
    requires t < U16 && t' < U16
    ensures m * U16 + t < m' * U16 + t' <==> m < m' || (m == m' && t < t')
    ensures m * U16 + t == m' * U16 + t' <==> m == m' && t == t'
  {
  }

  lemma Unreduced(d: nat, m: nat, t: nat)
    requires d < U32 && m < U16 && t < U16
    ensures IdValue(d, m, t) == d * U32 + (m * U16 + t)
  {
  }

  // ---- The collision loop -------------------------------------------------------------

  const ATTEMPTS: nat := 0x10000

  // Next minute and tick to try, both 32-bit counters.
  function NextTick(mt: (nat, nat)): (nat, nat) {
    if mt.1 == 0xFFFF then ((mt.0 + 1) % U32, 0) else (mt.0, (mt.1 + 1) % U32)
  }

  function TickAt(mt: (nat, nat), k: nat): (nat, nat) {
    if k == 0 then mt else NextTick(TickAt(mt, k - 1))
  }

  // The id tried after k collisions.
  function Candidate(days: nat, mt: (nat, nat), k: nat): string {
    SnapId(days, TickAt(mt, k).0, TickAt(mt, k).1)
  }

  lemma {:induction false} TickClosed(mt: (nat, nat), k: nat)
    requires mt.0 < U32 && mt.1 < U32 && k < ATTEMPTS
    ensures IsTickAt(mt, k, TickAt(mt, k))
    decreases k
  {
    if k > 0 {
      TickClosed(mt, k - 1);
    }
  }

  // The 65536 ids the loop can try are all different.
  lemma CandidatesDiffer(days: nat, mt: (nat, nat), i: nat, j: nat)
    requires mt.0 < U32 && mt.1 < U32 && i < j < 0x1_0000
    ensures Candidate(days, mt, i) != Candidate(days, mt, j)
  {
    TickClosed(mt, i);
    TickClosed(mt, j);
    var a, b := TickAt(mt, i), TickAt(mt, j);
    TicksDiffer(mt, i, j, a, b);
    Packed2(a.0 % U16, a.1 % U16, b.0 % U16, b.1 % U16);
    IdOrder(days, a.0, a.1, days, b.0, b.1);
  }

  // The i-th minute and tick, in closed form.
  predicate IsTickAt(mt: (nat, nat), k: nat, r: (nat, nat)) {
    r == if mt.1 > 0xFFFF then (mt.0, (mt.1 + k) % U32)
         else if mt.1 + k <= 0xFFFF then (mt.0, mt.1 + k)
         else ((mt.0 + 1) % U32, mt.1 + k - 0x10000)
  }

  lemma TicksDiffer(mt: (nat, nat), i: nat, j: nat, a: (nat, nat), b: (nat, nat))
    requires mt.0 < U32 && mt.1 < U32 && i < j < ATTEMPTS && IsTickAt(mt, i, a) && IsTickAt(mt, j, b)
    ensures a.0 % U16 != b.0 % U16 || a.1 % U16 != b.1 % U16
  {
    if mt.1 > 0xFFFF {
      Wrap(mt.1 + i);
      Wrap(mt.1 + j);
    } else if mt.1 + i <= 0xFFFF < mt.1 + j {
      NextMinute(mt.0);
    }
  }

  lemma Wrap(v: nat)
    ensures v % U32 % U16 == v % U16
  {
  }

  lemma NextMinute(m: nat)
    ensures (m + 1) % U32 % U16 != m % U16
  {
    Wrap(m + 1);
  }

  // ---- Sorting and keeping the latest -----------------------------------------------------

  predicate Sorted(s: seq<string>) {
    forall i, j :: 0 <= i < j < |s| ==> !StrLess(s[j], s[i])
  }

  // qsort by strcmp: any sorted permutation; this one inserts.
  function InsertName(s: seq<string>, x: string): seq<string> {
    if s == [] || !StrLess(s[0], x) then [x] + s else [s[0]] + InsertName(s[1..], x)
  }

  function SortNames(s: seq<string>): seq<string> {
    if s == [] then [] else InsertName(SortNames(s[1..]), s[0])
  }

  lemma {:induction false} InsertKeeps(s: seq<string>, x: string)
    ensures multiset(InsertName(s, x)) == multiset(s) + multiset{x}
    decreases |s|
  {
    if s != [] && StrLess(s[0], x) {
      InsertKeeps(s[1..], x);
      assert s == [s[0]] + s[1..];
    }
  }

  // Not after every element of s.
  predicate BelowAll(x: string, s: seq<string>) {
    forall i :: 0 <= i < |s| ==> !StrLess(s[i], x)
  }

  lemma SortedCons(x: string, s: seq<string>)
    requires Sorted(s) && BelowAll(x, s)
    ensures Sorted([x] + s)
  {
  }

  lemma BelowTrans(x: string, y: string, s: seq<string>)
    requires !StrLess(y, x) && BelowAll(y, s)
    ensures BelowAll(x, s)
  {
    forall i | 0 <= i < |s|
      ensures !StrLess(s[i], x)
    {
      if StrLess(s[i], x) {
        StrLessTotal(x, y);
        StrLessTotal(s[i], y);
        if x != y {
          StrLessTransitive(s[i], x, y);
        }
      }
    }
  }

  lemma {:induction false} BelowInsert(y: string, s: seq<string>, x: string)
    requires BelowAll(y, s) && !StrLess(x, y)
    ensures BelowAll(y, InsertName(s, x))
    decreases |s|
  {
    if s != [] && StrLess(s[0], x) {
      assert forall i :: 0 <= i < |s| - 1 ==> s[1..][i] == s[i + 1];
      BelowInsert(y, s[1..], x);
      assert !StrLess(s[0], y);
    }
  }

  lemma {:induction false} InsertSorted(s: seq<string>, x: string)
    requires Sorted(s)
    ensures Sorted(InsertName(s, x))
    decreases |s|
  {
    if s == [] {
      assert Sorted([x]);
    } else if !StrLess(s[0], x) {
      assert BelowAll(s[0], s) by { StrLessTotal(s[0], s[0]); }
      BelowTrans(x, s[0], s);
      SortedCons(x, s);
    } else {
      InsertSorted(s[1..], x);
      StrLessTotal(s[0], x);
      assert BelowAll(s[0], s[1..]);
      BelowInsert(s[0], s[1..], x);
      SortedCons(s[0], InsertName(s[1..], x));
    }
  }

  lemma {:induction false} SortIsSorted(s: seq<string>)
    ensures Sorted(SortNames(s)) && multiset(SortNames(s)) == multiset(s)
    decreases |s|
  {
    if s != [] {
      SortIsSorted(s[1..]);
      InsertSorted(SortNames(s[1..]), s[0]);
      InsertKeeps(SortNames(s[1..]), s[0]);
      assert s == [s[0]] + s[1..];
    }
  }

  const MAX_SNAPSHOTS: nat := 1024

  // list_all_snapshots: at most the first 1024 listed, sorted.
  function ListAll(listed: seq<string>): seq<string> {
    SortNames(if |listed| <= MAX_SNAPSHOTS then listed else listed[..MAX_SNAPSHOTS])
  }

  // The ids PRUNE KEEP_LAST=n deletes: the first of the sorted list.
  function ToDelete(listed: seq<string>, keep: nat): seq<string> {
    var ids := ListAll(listed);
    ids[..|ids| - if keep > |ids| then |ids| else keep]
  }

  function ToKeep(listed: seq<string>, keep: nat): seq<string> {
    var ids := ListAll(listed);
    ids[|ids| - if keep > |ids| then |ids| else keep..]
  }

  predicate Distinct(s: seq<string>) {
    forall i, j :: 0 <= i < j < |s| ==> s[i] != s[j]
  }

  lemma DistinctOnce(s: seq<string>, x: string)
    requires Distinct(s)
    ensures multiset(s)[x] <= 1
    decreases |s|
  {
    if s != [] {
      DistinctOnce(s[1..], x);
      assert s == [s[0]] + s[1..];
      assert s[0] !in s[1..];
    }
  }

  lemma InBoth(ids: seq<string>, cut: nat, d: string)
    requires cut <= |ids| && multiset(ids)[d] <= 1 && d in ids[..cut]
    ensures d !in ids[cut..]
  {
    assert ids == ids[..cut] + ids[cut..];
    assert multiset(ids)[d] == multiset(ids[..cut])[d] + multiset(ids[cut..])[d];
  }

  // Below the limit, every listed id is deleted or kept, min(n, count) are kept, and
  // every deleted id is older than every kept one.
  lemma KeepLastIsExact(listed: seq<string>, keep: nat)
    requires |listed| <= 1024 && Distinct(listed)
    ensures multiset(ToDelete(listed, keep)) + multiset(ToKeep(listed, keep)) == multiset(listed)
    ensures |ToKeep(listed, keep)| == if keep > |listed| then |listed| else keep
    ensures forall d, k :: d in ToDelete(listed, keep) && k in ToKeep(listed, keep) ==> StrLess(d, k)
  {
    var ids := SortNames(listed);
    SortIsSorted(listed);
    assert |ids| == |multiset(ids)| == |listed|;
    var cut := |ids| - if keep > |ids| then |ids| else keep;
    assert ids == ids[..cut] + ids[cut..];
    forall d, k | d in ids[..cut] && k in ids[cut..]
      ensures StrLess(d, k)
    {
      DistinctOnce(listed, d);
      OldBeforeNew(ids, cut, d, k);
    }
  }

  lemma OldBeforeNew(ids: seq<string>, cut: nat, d: string, k: string)
    requires Sorted(ids) && cut <= |ids| && multiset(ids)[d] <= 1
    requires d in ids[..cut] && k in ids[cut..]
    ensures StrLess(d, k)
  {
    var i :| 0 <= i < cut && ids[i] == d;
    var j :| cut <= j < |ids| && ids[j] == k;
    InBoth(ids, cut, d);
    StrLessTotal(d, k);
  }

  // Past the limit the listing is cut, so the right number of snapshots survives exactly
  // when nothing had to go.
  lemma KeepLastCount(listed: seq<string>, keep: nat)
    ensures |ToDelete(listed, keep)| <= |listed|
    ensures |listed| - |ToDelete(listed, keep)| == (if keep > |listed| then |listed| else keep) <==>
            |listed| <= 1024 || keep >= |listed|
  {
    var cut := if |listed| <= MAX_SNAPSHOTS then listed else listed[..MAX_SNAPSHOTS];
    SortIsSorted(cut);
    assert |SortNames(cut)| == |multiset(SortNames(cut))| == |multiset(cut)| == |cut|;
  }
}
