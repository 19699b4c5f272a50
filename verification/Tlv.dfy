// The big-endian tag/length/value primitives every record is built from.

module Tlv {
  import opened Bytes

  // ---- Scalars ------------------------------------------------------------------

  // The low `width` bytes of v, most significant first.
  function Be(width: nat, v: nat): (r: seq<byte>)
    ensures |r| == width
  {
    if width == 0 then [] else Be(width - 1, v / 256) + [v % 256]
  }

  function Pow256(k: nat): nat {
    if k == 0 then 1 else 256 * Pow256(k - 1)
  }

  function GetBe(s: seq<byte>): nat {
    if s == [] then 0 else 256 * GetBe(s[..|s| - 1]) + s[|s| - 1]
  }

  lemma {:induction false} GetPutBe(width: nat, v: nat)
    requires v < Pow256(width)
    ensures GetBe(Be(width, v)) == v
  {
    if width > 0 {
      GetPutBe(width - 1, v / 256);
      assert Be(width, v)[..width - 1] == Be(width - 1, v / 256);
    }
  }

  lemma {:induction false} GetBeBound(s: seq<byte>)
    ensures GetBe(s) < Pow256(|s|)
  {
    if s != [] {
      GetBeBound(s[..|s| - 1]);
    }
  }

  lemma Widths()
    ensures Pow256(1) == 256 && Pow256(2) == U16 && Pow256(4) == U32 && Pow256(8) == U64
  {
    assert Pow256(3) == 256 * Pow256(2) && Pow256(5) == 256 * Pow256(4);
    assert Pow256(6) == 256 * Pow256(5) && Pow256(7) == 256 * Pow256(6);
  }

  // ---- Fields ---------------------------------------------------------------------

  datatype Item = Item(tag: nat, value: seq<byte>)

  // A tag and a length that fit their u16 and u32.
  predicate ValidItem(x: Item) {
    x.tag < U16 && |x.value| < U32
  }

  // A tag with its high bit set must be understood by the reader.
  predicate Critical(tag: nat) {
    (tag / 0x8000) % 2 == 1
  }

  function EncodeItem(x: Item): seq<byte> {
    Be(2, x.tag) + Be(4, |x.value|) + x.value
  }

  function EncodeItems(xs: seq<Item>): seq<byte> {
    if xs == [] then [] else EncodeItems(xs[..|xs| - 1]) + EncodeItem(xs[|xs| - 1])
  }

  datatype Read = AtEnd | Cut | Got(item: Item, next: nat)

  // amisnap_cursor_field
  function ReadItem(b: seq<byte>, pos: nat): (r: Read)
    requires pos <= |b|
    ensures r.Got? ==> pos + 6 <= r.next <= |b| && r.next == pos + 6 + |r.item.value|
  {
    if pos == |b| then AtEnd
    else if |b| - pos < 6 then Cut
    else
      var vlen := GetBe(b[pos + 2..pos + 6]);
      if |b| - pos - 6 < vlen then Cut
      else Got(Item(GetBe(b[pos..pos + 2]), b[pos + 6..pos + 6 + vlen]), pos + 6 + vlen)
  }

  // The items of b from pos on, and whether b ends cleanly after them.
  function Items(b: seq<byte>, pos: nat): (r: (seq<Item>, bool))
    requires pos <= |b|
    decreases |b| - pos
  {
    match ReadItem(b, pos)
    case AtEnd => ([], true)
    case Cut => ([], false)
    case Got(x, next) => var (xs, ok) := Items(b, next); ([x] + xs, ok)
  }

  lemma ReadEncoded(pre: seq<byte>, x: Item, post: seq<byte>)
    requires ValidItem(x)
    ensures ReadItem(pre + EncodeItem(x) + post, |pre|) == Got(x, |pre| + |EncodeItem(x)|)
  {
    var b, t, l := pre + EncodeItem(x) + post, Be(2, x.tag), Be(4, |x.value|);
    Widths();
    GetPutBe(2, x.tag);
    GetPutBe(4, |x.value|);
    assert b == pre + t + l + x.value + post;
    assert b[|pre|..|pre| + 2] == t;
    assert b[|pre| + 2..|pre| + 6] == l;
    assert b[|pre| + 6..|pre| + 6 + |x.value|] == x.value;
  }

  lemma EncodeItemsCons(x: Item, xs: seq<Item>)
    ensures EncodeItems([x] + xs) == EncodeItem(x) + EncodeItems(xs)
    decreases |xs|
  {
    if xs == [] {
      assert [x] + xs == [x] && EncodeItems([x]) == EncodeItems([]) + EncodeItem(x);
    } else {
      var init, last := xs[..|xs| - 1], xs[|xs| - 1];
      EncodeItemsCons(x, init);
      assert ([x] + xs)[..|xs|] == [x] + init;
      assert EncodeItems([x] + xs) == EncodeItem(x) + EncodeItems(init) + EncodeItem(last);
    }
  }

  lemma EncodeItemsSnoc(xs: seq<Item>, x: Item)
    ensures EncodeItems(xs + [x]) == EncodeItems(xs) + EncodeItem(x)
  {
    assert (xs + [x])[..|xs|] == xs;
  }

  lemma FirstItem(pre: seq<byte>, x: Item, xs: seq<Item>) returns (pre': seq<byte>)
    requires ValidItem(x)
    ensures pre + EncodeItems([x] + xs) == pre' + EncodeItems(xs)
    ensures ReadItem(pre' + EncodeItems(xs), |pre|) == Got(x, |pre'|)
  {
    var b, bs := EncodeItem(x), EncodeItems(xs);
    pre' := pre + b;
    EncodeItemsCons(x, xs);
    ReadEncoded(pre, x, bs);
    assert pre + (b + bs) == pre + b + bs;
  }

  // What is written is what is read.
  lemma {:induction false} ItemsRoundTrip(pre: seq<byte>, xs: seq<Item>)
    requires forall x :: x in xs ==> ValidItem(x)
    ensures Items(pre + EncodeItems(xs), |pre|) == (xs, true)
    decreases |xs|
  {
    if xs != [] {
      var x, rest := xs[0], xs[1..];
      assert [x] + rest == xs;
      var pre' := FirstItem(pre, x, rest);
      ItemsRoundTrip(pre', rest);
    }
  }

  // ---- Field values -----------------------------------------------------------------

  function StringValue(s: seq<byte>): seq<byte> {
    Be(2, |s|) + s
  }

  // amisnap_decode_string: an inner length that must agree with the outer one.
  function DecodeString(v: seq<byte>): Option<seq<byte>> {
    if |v| < 2 || GetBe(v[..2]) + 2 != |v| then None else Some(v[2..])
  }

  lemma StringRoundTrip(s: seq<byte>)
    requires |s| < U16
    ensures DecodeString(StringValue(s)) == Some(s)
  {
    Widths();
    GetPutBe(2, |s|);
    assert StringValue(s)[..2] == Be(2, |s|);
  }

  // A scalar of a fixed width.
  function DecodeUint(v: seq<byte>, width: nat): Option<nat> {
    if |v| != width then None else Some(GetBe(v))
  }

  datatype Stamp = Stamp(days: nat, mins: nat, ticks: nat)

  predicate ValidStamp(d: Stamp) {
    d.days < U32 && d.mins < U32 && d.ticks < U32
  }

  function StampValue(d: Stamp): seq<byte> {
    Be(4, d.days) + Be(4, d.mins) + Be(4, d.ticks)
  }

  function DecodeStamp(v: seq<byte>): Option<Stamp> {
    if |v| != 12 then None else Some(Stamp(GetBe(v[..4]), GetBe(v[4..8]), GetBe(v[8..])))
  }

  lemma StampRoundTrip(d: Stamp)
    requires ValidStamp(d)
    ensures DecodeStamp(StampValue(d)) == Some(d)
  {
    Widths();
    GetPutBe(4, d.days);
    GetPutBe(4, d.mins);
    GetPutBe(4, d.ticks);
    var v := StampValue(d);
    assert v[..4] == Be(4, d.days) && v[4..8] == Be(4, d.mins) && v[8..] == Be(4, d.ticks);
  }

  // Two u16 side by side (owner, capabilities).
  function PairValue(a: nat, b: nat): seq<byte> {
    Be(2, a) + Be(2, b)
  }

  function DecodePair(v: seq<byte>): Option<(nat, nat)> {
    if |v| != 4 then None else Some((GetBe(v[..2]), GetBe(v[2..])))
  }

  lemma PairRoundTrip(a: nat, b: nat)
    requires a < U16 && b < U16
    ensures DecodePair(PairValue(a, b)) == Some((a, b))
  {
    Widths();
    GetPutBe(2, a);
    GetPutBe(2, b);
    assert PairValue(a, b)[..2] == Be(2, a) && PairValue(a, b)[2..] == Be(2, b);
  }

  lemma UintRoundTrip(width: nat, v: nat)
    requires v < Pow256(width)
    ensures DecodeUint(Be(width, v), width) == Some(v)
  {
    GetPutBe(width, v);
  }

  // ---- Optional fields ---------------------------------------------------------------

  function Optional(x: Option<Item>): seq<Item> {
    if x.Some? then [x.value] else []
  }

  function StringItem(tag: nat, s: Option<seq<byte>>): Option<Item> {
    if s.Some? then Some(Item(tag, StringValue(s.value))) else None
  }

  function UintItem(tag: nat, width: nat, v: Option<nat>): Option<Item> {
    if v.Some? then Some(Item(tag, Be(width, v.value))) else None
  }

  function PairItem(tag: nat, p: Option<(nat, nat)>): Option<Item> {
    if p.Some? then Some(Item(tag, PairValue(p.value.0, p.value.1))) else None
  }

  method AddOptional(body: seq<byte>, ghost items: seq<Item>, x: Option<Item>)
    returns (body': seq<byte>, ghost items': seq<Item>)
    requires body == EncodeItems(items)
    ensures items' == items + Optional(x) && body' == EncodeItems(items + Optional(x))
  {
    body', items' := body, items;
    if x.Some? {
      body', items' := AddItem(body, items, x.value);
    }
  }

  // amisnap_buf_field
  method AddItem(body: seq<byte>, ghost items: seq<Item>, x: Item)
    returns (body': seq<byte>, ghost items': seq<Item>)
    requires body == EncodeItems(items)
    ensures items' == items + [x] && body' == EncodeItems(items + [x])
  {
    items' := items + [x];
    EncodeItemsSnoc(items, x);
    body' := body + EncodeItem(x);
  }

  // ---- Cutting a buffer short ----------------------------------------------------------

  // An item that lies inside a prefix is read the same there; one that does not is cut.
  lemma ReadItemInPrefix(b: seq<byte>, len: nat, pos: nat)
    requires pos <= len <= |b| && ReadItem(b, pos).Got?
    ensures ReadItem(b[..len], pos) ==
            if ReadItem(b, pos).next <= len then ReadItem(b, pos) else if pos == len then AtEnd else Cut
  {
    var next := ReadItem(b, pos).next;
    var p := b[..len];
    if len - pos >= 6 {
      assert p[pos + 2..pos + 6] == b[pos + 2..pos + 6];
      assert p[pos..pos + 2] == b[pos..pos + 2];
      if next <= len {
        assert p[pos + 6..next] == b[pos + 6..next];
      }
    }
  }
}
