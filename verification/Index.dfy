// The lookup index over the previous snapshot, and when a file counts as unchanged.

module Index {
  import opened Bytes
  import opened HexNames
  import opened Manifest
  import opened Meta
  import opened Tlv

  const ARCHIVE: nat := 0x10

  lemma {:induction false} ByteLessTotal(a: seq<byte>, b: seq<byte>)
    ensures ByteLess(a, b) || ByteLess(b, a) || a == b
    ensures !(ByteLess(a, b) && ByteLess(b, a))
    ensures a == b ==> !ByteLess(a, b)
    decreases |a|
  {
    if a != [] && b != [] {
      ByteLessTotal(a[1..], b[1..]);
      assert a == [a[0]] + a[1..] && b == [b[0]] + b[1..];
    }
  }

  lemma {:induction false} ByteLessTransitive(a: seq<byte>, b: seq<byte>, c: seq<byte>)
    requires ByteLess(a, b) && ByteLess(b, c)
    ensures ByteLess(a, c)
    decreases |a|
  {
    if a != [] && a[0] == b[0] == c[0] {
      ByteLessTransitive(a[1..], b[1..], c[1..]);
    }
  }

  // path_cmp: bytewise, and a path before its extensions.
  function PathCmp(a: seq<byte>, b: seq<byte>): int {
    if ByteLess(a, b) then -1 else if a == b then 0 else 1
  }

  predicate SortedByPath(es: seq<Entry>) {
    forall i, j :: 0 <= i < j < |es| ==> PathCmp(es[i].path, es[j].path) <= 0
  }

  // The entries of a decoded manifest.
  function EntriesOf(es: seq<Event>): seq<Entry> {
    if es == [] then []
    else EntriesOf(es[..|es| - 1]) + if es[|es| - 1].OnEntry? then [es[|es| - 1].entry] else []
  }

  // qsort by path: any sorted permutation; this one inserts.
  method SortEntries(es: seq<Entry>) returns (r: seq<Entry>)
    ensures SortedByPath(r) && multiset(r) == multiset(es)
  {
    r := [];
    for i := 0 to |es|
      invariant SortedByPath(r) && multiset(r) == multiset(es[..i])
    {
      assert es[..i + 1] == es[..i] + [es[i]];
      r := InsertEntry(r, es[i]);
    }
    assert es[..|es|] == es;
  }

  method InsertEntry(s: seq<Entry>, x: Entry) returns (r: seq<Entry>)
    requires SortedByPath(s)
    ensures SortedByPath(r) && multiset(r) == multiset(s) + multiset{x}
  {
    var k := |s|;
    while k > 0 && PathCmp(s[k - 1].path, x.path) > 0
      invariant 0 <= k <= |s|
      invariant forall i :: k <= i < |s| ==> PathCmp(s[i].path, x.path) > 0
    {
      k := k - 1;
    }
    InsertedIsSorted(s, k, x);
    InsertedKeeps(s, k, x);
    return s[..k] + [x] + s[k..];
  }

  lemma InsertedKeeps(s: seq<Entry>, k: nat, x: Entry)
    requires k <= |s|
    ensures multiset(s[..k] + [x] + s[k..]) == multiset(s) + multiset{x}
  {
    assert s == s[..k] + s[k..];
  }

  lemma InsertedIsSorted(s: seq<Entry>, k: nat, x: Entry)
    requires SortedByPath(s) && k <= |s|
    requires k > 0 ==> PathCmp(s[k - 1].path, x.path) <= 0
    requires forall i :: k <= i < |s| ==> PathCmp(s[i].path, x.path) > 0
    ensures SortedByPath(s[..k] + [x] + s[k..])
  {
    var r := s[..k] + [x] + s[k..];
    forall i, j | 0 <= i < j < |r|
      ensures PathCmp(r[i].path, r[j].path) <= 0
    {
      if i < k && j == k {
        NotAfter(s[i].path, s[k - 1].path, x.path);
      } else if i == k {
        ByteLessTotal(x.path, s[j - 1].path);
      }
    }
  }

  lemma NotAfter(a: seq<byte>, b: seq<byte>, c: seq<byte>)
    requires PathCmp(a, b) <= 0 && PathCmp(b, c) <= 0
    ensures PathCmp(a, c) <= 0
  {
    if a != b && b != c {
      ByteLessTransitive(a, b, c);
    }
  }

  // amisnap_index_build of an opened manifest.
  method Build(plain: seq<byte>, hash: Hash) returns (r: Result<seq<Entry>>)
    ensures r.Ok? <==> DecodeManifest(plain, hash).error.None?
    ensures r.Ok? ==> SortedByPath(r.value)
                      && multiset(r.value) == multiset(EntriesOf(DecodeManifest(plain, hash).events))
  {
    var d := DecodeManifestLoop(plain, hash);
    if d.error.Some? {
      return Err(d.error.value);
    }
    var sorted := SortEntries(EntriesOf(d.events));
    return Ok(sorted);
  }

  // amisnap_index_lookup: binary search; finds an entry with the path exactly when there
  // is one.
  method Lookup(idx: seq<Entry>, path: seq<byte>) returns (r: Option<Entry>)
    requires SortedByPath(idx)
    ensures r.Some? ==> r.value in idx && r.value.path == path
    ensures r.None? ==> forall i :: 0 <= i < |idx| ==> idx[i].path != path
  {
    var lo, hi := 0, |idx|;
    while lo < hi
      invariant 0 <= lo <= hi <= |idx|
      invariant forall i :: 0 <= i < lo ==> ByteLess(idx[i].path, path)
      invariant forall i :: hi <= i < |idx| ==> ByteLess(path, idx[i].path)
    {
      var mid := lo + (hi - lo) / 2;
      var c := PathCmp(idx[mid].path, path);
      if c == 0 {
        return Some(idx[mid]);
      }
      if c < 0 {
        AllBefore(idx, mid, path);
        lo := mid + 1;
      } else {
        AllAfter(idx, mid, path);
        hi := mid;
      }
    }
    forall i | 0 <= i < |idx|
      ensures idx[i].path != path
    {
      ByteLessTotal(path, path);
    }
    return None;
  }

  lemma AllBefore(idx: seq<Entry>, mid: nat, path: seq<byte>)
    requires SortedByPath(idx) && mid < |idx| && ByteLess(idx[mid].path, path)
    ensures forall i :: 0 <= i <= mid ==> ByteLess(idx[i].path, path)
  {
    forall i | 0 <= i < mid
      ensures ByteLess(idx[i].path, path)
    {
      if idx[i].path != idx[mid].path {
        assert PathCmp(idx[i].path, idx[mid].path) <= 0;
        ByteLessTransitive(idx[i].path, idx[mid].path, path);
      }
    }
  }

  lemma AllAfter(idx: seq<Entry>, mid: nat, path: seq<byte>)
    requires SortedByPath(idx) && mid < |idx| && PathCmp(idx[mid].path, path) > 0
    ensures forall i :: mid <= i < |idx| ==> ByteLess(path, idx[i].path)
  {
    ByteLessTotal(idx[mid].path, path);
    forall i | mid < i < |idx|
      ensures ByteLess(path, idx[i].path)
    {
      if idx[i].path != idx[mid].path {
        assert PathCmp(idx[mid].path, idx[i].path) <= 0;
        ByteLessTransitive(path, idx[mid].path, idx[i].path);
      }
    }
  }

  // ---- Unchanged files -----------------------------------------------------------------

  predicate Archived(prot: nat) {
    prot / ARCHIVE % 2 == 1
  }

  function WithoutArchive(prot: nat): nat {
    if Archived(prot) then prot - ARCHIVE else prot
  }

  // amisnap_index_unchanged: same metadata, and the archive bit set now.
  predicate Unchanged(last: Entry, cur: Entry) {
    && last.etype == cur.etype
    && Archived(cur.prot)
    && WithoutArchive(last.prot) == WithoutArchive(cur.prot)
    && last.date == cur.date
    && last.comment == cur.comment
    && last.owner == cur.owner
    && (cur.etype == FILE ==> last.size == cur.size)
    && (cur.etype == SOFTLINK || cur.etype == HARDLINK ==> last.link == cur.link)
  }
}
