// The memory copies lz4.c is built from.

module Lz4Copy {
  import opened Bytes

  // memcpy of n bytes from the input block, of which the first `len` are wanted.
  method CopyIn(dst: array<byte>, d: nat, src: seq<byte>, s: nat, n: nat, ghost len: nat)
    requires d + n <= dst.Length && s + n <= |src| && len <= n
    modifies dst
    ensures dst[..d + len] == old(dst[..d]) + src[s..s + len]
    ensures forall j :: d + n <= j < dst.Length ==> dst[j] == old(dst[j])
  {
    forall k | 0 <= k < n {
      dst[d + k] := src[s + k];
    }
    assert forall j :: 0 <= j < d ==> dst[j] == old(dst[j]);
    assert forall j :: d <= j < d + len ==> dst[j] == src[s + (j - d)];
  }

  // memcpy inside the output buffer; the two ranges must not overlap.
  method CopyWithin(dst: array<byte>, d: nat, s: nat, n: nat)
    requires s + n <= d && d + n <= dst.Length
    modifies dst
    ensures forall j :: 0 <= j < dst.Length ==>
                          dst[j] == if d <= j < d + n then old(dst[s + (j - d)]) else old(dst[j])
  {
    forall k | 0 <= k < n {
      dst[d + k] := dst[s + k];
    }
  }

  // The index a wild copy stops at: it goes in steps of eight and always makes one.
  function WildEnd(d: nat, e: int): (r: nat)
    ensures d + 8 <= r && e <= r && (r <= e + 7 || r == d + 8)
    decreases e - d
  {
    if d + 8 < e then WildEnd(d + 8, e) else d + 8
  }

  // LZ4_wildCopy8 from the input block.
  method WildCopyIn(dst: array<byte>, d: nat, src: seq<byte>, s: nat, e: nat)
    requires d <= e
    requires WildEnd(d, e) <= dst.Length && s + (WildEnd(d, e) - d) <= |src|
    modifies dst
    ensures dst[..e] == old(dst[..d]) + src[s..s + (e - d)]
    ensures forall j :: WildEnd(d, e) <= j < dst.Length ==> dst[j] == old(dst[j])
  {
    var dd, ss := d, s;
    CopyIn8(dst, dd, src, ss);
    dd, ss := dd + 8, ss + 8;
    while dd < e
      invariant d + 8 <= dd <= WildEnd(d, e) && ss - s == dd - d
      invariant if dd < e then WildEnd(dd, e) == WildEnd(d, e) else dd == WildEnd(d, e)
      invariant forall j :: 0 <= j < dst.Length ==>
                              dst[j] == if d <= j < dd then src[s + (j - d)] else old(dst[j])
    {
      CopyIn8(dst, dd, src, ss);
      dd, ss := dd + 8, ss + 8;
    }
  }

  method CopyIn8(dst: array<byte>, d: nat, src: seq<byte>, s: nat)
    requires d + 8 <= dst.Length && s + 8 <= |src|
    modifies dst
    ensures forall j :: 0 <= j < dst.Length ==>
                          dst[j] == if d <= j < d + 8 then src[s + (j - d)] else old(dst[j])
  {
    forall k | 0 <= k < 8 {
      dst[d + k] := src[s + k];
    }
  }
}
