// REC_ENTRY: one file, directory or link of a manifest.

module Meta {
  import opened Bytes
  import opened Tlv

  const FILE: nat := 1
  const DIR: nat := 2
  const SOFTLINK: nat := 3
  const HARDLINK: nat := 4

  const TAG_PATH: nat := 0x8040
  const TAG_TYPE: nat := 0x8041
  const TAG_PROT: nat := 0x8042
  const TAG_DATE: nat := 0x8043
  const TAG_COMMENT: nat := 0x0044
  const TAG_OWNER: nat := 0x0045
  const TAG_SIZE: nat := 0x8046
  const TAG_CONTENT: nat := 0x8047
  const TAG_LINK: nat := 0x8048
  const TAG_XHASH: nat := 0x0049

  // A whole file or one chunk of it, named by the hash of its plain content.
  datatype Ref = Ref(hash: seq<byte>, size: nat)

  datatype Entry = Entry(
    path: seq<byte>,
    etype: nat,
    prot: nat,
    date: Stamp,
    comment: Option<seq<byte>>,
    owner: Option<(nat, nat)>,
    size: Option<nat>,
    content: seq<Ref>,
    link: Option<seq<byte>>,
    xhash: Option<nat>)

  const BLANK: Entry := Entry([], 0, 0, Stamp(0, 0, 0), None, None, None, [], None, None)

  // ---- Encoding -------------------------------------------------------------------

  function RefValue(r: Ref): seq<byte> {
    r.hash + Be(8, r.size)
  }

  function RefItems(rs: seq<Ref>): seq<Item> {
    if rs == [] then [] else RefItems(rs[..|rs| - 1]) + [Item(TAG_CONTENT, RefValue(rs[|rs| - 1]))]
  }

  function RequiredItems(e: Entry): seq<Item> {
    [Item(TAG_PATH, StringValue(e.path)), Item(TAG_TYPE, Be(1, e.etype)),
     Item(TAG_PROT, Be(4, e.prot)), Item(TAG_DATE, StampValue(e.date))]
  }

  function ItemsBeforeContent(e: Entry): seq<Item> {
    RequiredItems(e) + Optional(StringItem(TAG_COMMENT, e.comment))
    + Optional(PairItem(TAG_OWNER, e.owner)) + Optional(UintItem(TAG_SIZE, 8, e.size))
  }

  function ItemsAfterContent(e: Entry): seq<Item> {
    Optional(StringItem(TAG_LINK, e.link)) + Optional(UintItem(TAG_XHASH, 4, e.xhash))
  }

  // The fields of an entry, in the order they are written.
  function EntryItems(e: Entry): seq<Item> {
    ItemsBeforeContent(e) + RefItems(e.content) + ItemsAfterContent(e)
  }

  // The lengths a string field cannot hold.
  predicate TooLongEntry(e: Entry) {
    |e.path| >= U16
    || (e.comment.Some? && |e.comment.value| >= U16)
    || (e.link.Some? && |e.link.value| >= U16)
  }

  // Values that fit the C fields.
  predicate ValidRef(r: Ref) {
    |r.hash| == 32 && r.size < U64
  }

  predicate ValidEntry(e: Entry) {
    && e.etype < 256 && e.prot < U32 && ValidStamp(e.date)
    && (e.owner.Some? ==> e.owner.value.0 < U16 && e.owner.value.1 < U16)
    && (e.size.Some? ==> e.size.value < U64)
    && (forall r :: r in e.content ==> ValidRef(r))
    && (e.xhash.Some? ==> e.xhash.value < U32)
  }

  // What a reader insists on: a file has a size, and content unless it is empty; a
  // link has a target.
  predicate CompleteEntry(e: Entry) {
    && (e.etype == FILE ==> e.size.Some? && (e.size.value > 0 ==> e.content != []))
    && (e.etype == SOFTLINK || e.etype == HARDLINK ==> e.link.Some?)
  }

  ghost predicate PathsDiffer(es: seq<Entry>) {
    forall i, j :: 0 <= i < j < |es| ==> es[i].path != es[j].path
  }

  // amisnap_meta_encode_entry, up to the body: fields appended one after the other.
  method EncodeEntry(e: Entry) returns (r: Result<seq<byte>>)
    ensures r == if TooLongEntry(e) then Err(TooLong) else Ok(EncodeItems(EntryItems(e)))
  {
    if |e.path| > 0xFFFF {
      return Err(TooLong);
    }
    if e.comment.Some? && |e.comment.value| > 0xFFFF {
      return Err(TooLong);
    }
    if e.link.Some? && |e.link.value| > 0xFFFF {
      return Err(TooLong);
    }
    var body := EncodeBeforeContent(e);
    ghost var items;
    body, items := AddRefs(body, ItemsBeforeContent(e), e.content);
    body, items := AddOptional(body, items, StringItem(TAG_LINK, e.link));
    body, items := AddOptional(body, items, UintItem(TAG_XHASH, 4, e.xhash));
    assert items == EntryItems(e);
    return Ok(body);
  }

  method EncodeBeforeContent(e: Entry) returns (body: seq<byte>)
    ensures body == EncodeItems(ItemsBeforeContent(e))
  {
    ghost var items := [];
    body, items := AddItem([], [], Item(TAG_PATH, StringValue(e.path)));
    body, items := AddItem(body, items, Item(TAG_TYPE, Be(1, e.etype)));
    body, items := AddItem(body, items, Item(TAG_PROT, Be(4, e.prot)));
    body, items := AddItem(body, items, Item(TAG_DATE, StampValue(e.date)));
    assert items == RequiredItems(e);
    body, items := AddOptional(body, items, StringItem(TAG_COMMENT, e.comment));
    body, items := AddOptional(body, items, PairItem(TAG_OWNER, e.owner));
    body, items := AddOptional(body, items, UintItem(TAG_SIZE, 8, e.size));
  }

  method AddRefs(body: seq<byte>, ghost items: seq<Item>, rs: seq<Ref>)
    returns (body': seq<byte>, ghost items': seq<Item>)
    requires body == EncodeItems(items)
    ensures items' == items + RefItems(rs) && body' == EncodeItems(items + RefItems(rs))
  {
    body', items' := body, items;
    for i := 0 to |rs|
      invariant items' == items + RefItems(rs[..i]) && body' == EncodeItems(items')
    {
      assert rs[..i + 1][..i] == rs[..i];
      body', items' := AddItem(body', items', Item(TAG_CONTENT, RefValue(rs[i])));
    }
    assert rs[..|rs|] == rs;
  }

  // ---- Decoding --------------------------------------------------------------------

  // The entry read so far, and which required fields were seen.
  datatype Acc = Acc(e: Entry, path: bool, etype: bool, prot: bool, date: bool)

  const START: Acc := Acc(BLANK, false, false, false, false)

  function DecodeRef(v: seq<byte>): Option<Ref> {
    if |v| != 40 then None else Some(Ref(v[..32], GetBe(v[32..])))
  }

  // One field of an entry; at most `cap` content references.
  function EntryField(a: Acc, x: Item, cap: nat): Result<Acc> {
    if x.tag == TAG_PATH then
      match DecodeString(x.value)
      case None => Err(Malformed)
      case Some(s) => Ok(a.(e := a.e.(path := s), path := true))
    else if x.tag == TAG_TYPE then
      match DecodeUint(x.value, 1)
      case None => Err(Malformed)
      case Some(v) => Ok(a.(e := a.e.(etype := v), etype := true))
    else if x.tag == TAG_PROT then
      match DecodeUint(x.value, 4)
      case None => Err(Malformed)
      case Some(v) => Ok(a.(e := a.e.(prot := v), prot := true))
    else if x.tag == TAG_DATE then
      match DecodeStamp(x.value)
      case None => Err(Malformed)
      case Some(d) => Ok(a.(e := a.e.(date := d), date := true))
    else if x.tag == TAG_COMMENT then
      match DecodeString(x.value)
      case None => Err(Malformed)
      case Some(s) => Ok(a.(e := a.e.(comment := Some(s))))
    else if x.tag == TAG_OWNER then
      match DecodePair(x.value)
      case None => Err(Malformed)
      case Some(p) => Ok(a.(e := a.e.(owner := Some(p))))
    else if x.tag == TAG_SIZE then
      match DecodeUint(x.value, 8)
      case None => Err(Malformed)
      case Some(v) => Ok(a.(e := a.e.(size := Some(v))))
    else if x.tag == TAG_CONTENT then
      match DecodeRef(x.value)
      case None => Err(Malformed)
      case Some(r) =>
        if |a.e.content| >= cap then Err(Malformed)
        else Ok(a.(e := a.e.(content := a.e.content + [r])))
    else if x.tag == TAG_LINK then
      match DecodeString(x.value)
      case None => Err(Malformed)
      case Some(s) => Ok(a.(e := a.e.(link := Some(s))))
    else if x.tag == TAG_XHASH then
      match DecodeUint(x.value, 4)
      case None => Err(Malformed)
      case Some(v) => Ok(a.(e := a.e.(xhash := Some(v))))
    else if Critical(x.tag) then Err(Error.CriticalTag)
    else Ok(a)
  }

  function EntryFields(a: Acc, xs: seq<Item>, cap: nat): Result<Acc>
    decreases |xs|
  {
    if xs == [] then Ok(a)
    else match EntryField(a, xs[0], cap)
      case Err(err) => Err(err)
      case Ok(b) => EntryFields(b, xs[1..], cap)
  }

  function CheckEntry(a: Acc): Result<Entry> {
    if !a.path || !a.etype || !a.prot || !a.date || !CompleteEntry(a.e) then Err(MissingField)
    else Ok(a.e)
  }

  // amisnap_meta_decode_entry: the first bad field decides, then a cut, then what is missing.
  function DecodeEntry(value: seq<byte>, cap: nat): Result<Entry> {
    var (xs, ok) := Items(value, 0);
    match EntryFields(START, xs, cap)
    case Err(err) => Err(err)
    case Ok(a) => if ok then CheckEntry(a) else Err(Truncated)
  }

  // The cursor loop.
  method DecodeEntryLoop(value: seq<byte>, cap: nat) returns (r: Result<Entry>)
    ensures r == DecodeEntry(value, cap)
  {
    var a, pos := START, 0;
    while true
      invariant pos <= |value|
      invariant EntryFields(START, Items(value, 0).0, cap) == EntryFields(a, Items(value, pos).0, cap)
      invariant Items(value, 0).1 == Items(value, pos).1
      decreases |value| - pos
    {
      match ReadItem(value, pos) {
        case AtEnd => return CheckEntry(a);
        case Cut => return Err(Truncated);
        case Got(x, next) =>
          assert Items(value, pos).0[1..] == Items(value, next).0;
          match EntryField(a, x, cap) {
            case Err(err) => return Err(err);
            case Ok(b) => a, pos := b, next;
          }
      }
    }
  }

  // ---- Round trip ----------------------------------------------------------------------

  lemma {:induction false} EntryFieldsConcat(a: Acc, xs: seq<Item>, ys: seq<Item>, cap: nat)
    ensures EntryFields(a, xs + ys, cap) ==
            match EntryFields(a, xs, cap)
            case Err(err) => Err(err)
            case Ok(b) => EntryFields(b, ys, cap)
    decreases |xs|
  {
    if xs == [] {
      assert xs + ys == ys;
    } else {
      assert (xs + ys)[1..] == xs[1..] + ys;
      match EntryField(a, xs[0], cap)
      case Err(_) =>
      case Ok(b) => EntryFieldsConcat(b, xs[1..], ys, cap);
    }
  }

  lemma OneField(a: Acc, x: Item, cap: nat)
    ensures EntryFields(a, [x], cap) == EntryField(a, x, cap)
  {
    assert [x][1..] == [];
  }

  lemma RefRoundTrip(r: Ref)
    requires ValidRef(r)
    ensures |RefValue(r)| == 40 && DecodeRef(RefValue(r)) == Some(r)
  {
    Widths();
    GetPutBe(8, r.size);
    assert RefValue(r)[..32] == r.hash && RefValue(r)[32..] == Be(8, r.size);
  }

  lemma {:induction false} RefFields(a: Acc, rs: seq<Ref>, cap: nat)
    requires forall r :: r in rs ==> ValidRef(r)
    requires |a.e.content| + |rs| <= cap
    ensures EntryFields(a, RefItems(rs), cap) == Ok(a.(e := a.e.(content := a.e.content + rs)))
    decreases |rs|
  {
    if rs == [] {
      assert a.e.content + rs == a.e.content;
    } else {
      var init, r := rs[..|rs| - 1], rs[|rs| - 1];
      var x, b := Item(TAG_CONTENT, RefValue(r)), a.(e := a.e.(content := a.e.content + init));
      RefFields(a, init, cap);
      EntryFieldsConcat(a, RefItems(init), [x], cap);
      OneField(b, x, cap);
      RefRoundTrip(r);
      assert a.e.content + init + [r] == a.e.content + rs;
    }
  }

  // ---- The whole entry -------------------------------------------------------------------

  lemma {:induction false} RefItemsValid(rs: seq<Ref>)
    requires forall r :: r in rs ==> ValidRef(r)
    ensures |RefItems(rs)| == |rs|
    ensures forall x :: x in RefItems(rs) ==> x.tag == TAG_CONTENT && |x.value| == 40
    decreases |rs|
  {
    if rs != [] {
      RefItemsValid(rs[..|rs| - 1]);
      RefRoundTrip(rs[|rs| - 1]);
    }
  }

  lemma EntryItemsValid(e: Entry)
    requires ValidEntry(e) && !TooLongEntry(e)
    ensures forall x :: x in EntryItems(e) ==> ValidItem(x)
  {
    RefItemsValid(e.content);
    assert forall x :: x in ItemsBeforeContent(e) ==> ValidItem(x);
    assert forall x :: x in ItemsAfterContent(e) ==> ValidItem(x);
  }

  // The required fields.
  lemma RequiredFields(e: Entry, cap: nat)
    requires ValidEntry(e) && !TooLongEntry(e)
    ensures EntryFields(START, RequiredItems(e), cap)
            == Ok(Acc(BLANK.(path := e.path, etype := e.etype, prot := e.prot, date := e.date),
                      true, true, true, true))
  {
    Widths();
    var xs := RequiredItems(e);
    StringRoundTrip(e.path);
    UintRoundTrip(1, e.etype);
    UintRoundTrip(4, e.prot);
    StampRoundTrip(e.date);
    var a1 := START.(e := BLANK.(path := e.path), path := true);
    var a2 := a1.(e := a1.e.(etype := e.etype), etype := true);
    var a3 := a2.(e := a2.e.(prot := e.prot), prot := true);
    var a4 := a3.(e := a3.e.(date := e.date), date := true);
    assert EntryFields(a3, xs[3..], cap) == EntryFields(a4, xs[3..][1..], cap) == Ok(a4);
    assert xs[2..][1..] == xs[3..] && xs[1..][1..] == xs[2..];
    assert EntryFields(a2, xs[2..], cap) == EntryFields(a3, xs[3..], cap);
    assert EntryFields(a1, xs[1..], cap) == EntryFields(a2, xs[2..], cap);
  }

  // An optional field is set when it was written, and left alone otherwise.
  lemma OptionalString(a: Acc, tag: nat, s: Option<seq<byte>>, cap: nat)
    requires s.Some? ==> |s.value| < U16
    requires tag == TAG_COMMENT || tag == TAG_LINK
    requires a.e.comment.None? || tag == TAG_LINK
    requires a.e.link.None?
    ensures EntryFields(a, Optional(StringItem(tag, s)), cap)
            == Ok(a.(e := if tag == TAG_COMMENT then a.e.(comment := s) else a.e.(link := s)))
  {
    if s.Some? {
      StringRoundTrip(s.value);
      OneField(a, Item(tag, StringValue(s.value)), cap);
    }
  }

  lemma OptionalOwner(a: Acc, p: Option<(nat, nat)>, cap: nat)
    requires p.Some? ==> p.value.0 < U16 && p.value.1 < U16
    requires a.e.owner.None?
    ensures EntryFields(a, Optional(PairItem(TAG_OWNER, p)), cap) == Ok(a.(e := a.e.(owner := p)))
  {
    if p.Some? {
      PairRoundTrip(p.value.0, p.value.1);
      OneField(a, Item(TAG_OWNER, PairValue(p.value.0, p.value.1)), cap);
    }
  }

  lemma OptionalSize(a: Acc, v: Option<nat>, cap: nat)
    requires (v.Some? ==> v.value < U64) && a.e.size.None?
    ensures EntryFields(a, Optional(UintItem(TAG_SIZE, 8, v)), cap) == Ok(a.(e := a.e.(size := v)))
  {
    if v.Some? {
      Widths();
      UintRoundTrip(8, v.value);
      OneField(a, Item(TAG_SIZE, Be(8, v.value)), cap);
    }
  }

  lemma OptionalXhash(a: Acc, v: Option<nat>, cap: nat)
    requires (v.Some? ==> v.value < U32) && a.e.xhash.None?
    ensures EntryFields(a, Optional(UintItem(TAG_XHASH, 4, v)), cap) == Ok(a.(e := a.e.(xhash := v)))
  {
    if v.Some? {
      Widths();
      UintRoundTrip(4, v.value);
      OneField(a, Item(TAG_XHASH, Be(4, v.value)), cap);
    }
  }

  lemma FieldsBeforeContent(e: Entry, cap: nat)
    requires ValidEntry(e) && !TooLongEntry(e)
    ensures EntryFields(START, ItemsBeforeContent(e), cap)
            == Ok(Acc(e.(content := [], link := None, xhash := None), true, true, true, true))
  {
    var req := RequiredItems(e);
    var c, o, z := Optional(StringItem(TAG_COMMENT, e.comment)), Optional(PairItem(TAG_OWNER, e.owner)),
                   Optional(UintItem(TAG_SIZE, 8, e.size));
    var a := Acc(BLANK.(path := e.path, etype := e.etype, prot := e.prot, date := e.date),
                 true, true, true, true);
    var a1 := a.(e := a.e.(comment := e.comment));
    var a2 := a1.(e := a1.e.(owner := e.owner));
    RequiredFields(e, cap);
    OptionalString(a, TAG_COMMENT, e.comment, cap);
    OptionalOwner(a1, e.owner, cap);
    OptionalSize(a2, e.size, cap);
    EntryFieldsConcat(START, req + c + o, z, cap);
    EntryFieldsConcat(START, req + c, o, cap);
    EntryFieldsConcat(START, req, c, cap);
  }

  lemma FieldsAfterContent(a: Acc, e: Entry, cap: nat)
    requires ValidEntry(e) && !TooLongEntry(e)
    requires a == Acc(e.(link := None, xhash := None), true, true, true, true)
    ensures EntryFields(a, ItemsAfterContent(e), cap) == Ok(a.(e := e))
  {
    var l, x := Optional(StringItem(TAG_LINK, e.link)), Optional(UintItem(TAG_XHASH, 4, e.xhash));
    OptionalString(a, TAG_LINK, e.link, cap);
    OptionalXhash(a.(e := a.e.(link := e.link)), e.xhash, cap);
    EntryFieldsConcat(a, l, x, cap);
  }

  // Decoding an encoded entry gives it back, field by field.
  lemma EntryRoundTrip(e: Entry, cap: nat)
    requires ValidEntry(e) && !TooLongEntry(e) && CompleteEntry(e) && |e.content| <= cap
    ensures DecodeEntry(EncodeItems(EntryItems(e)), cap) == Ok(e)
  {
    EntryItemsValid(e);
    var b := EncodeItems(EntryItems(e));
    ItemsRoundTrip([], EntryItems(e));
    assert [] + b == b;
    var a := Acc(e.(content := [], link := None, xhash := None), true, true, true, true);
    var a' := Acc(e.(link := None, xhash := None), true, true, true, true);
    FieldsBeforeContent(e, cap);
    RefFields(a, e.content, cap);
    assert [] + e.content == e.content;
    FieldsAfterContent(a', e, cap);
    EntryFieldsConcat(START, ItemsBeforeContent(e) + RefItems(e.content), ItemsAfterContent(e), cap);
    EntryFieldsConcat(START, ItemsBeforeContent(e), RefItems(e.content), cap);
  }

  // ---- Room for the references -------------------------------------------------------------

  // Every reference costs 46 bytes of the record.
  function ItemsSize(xs: seq<Item>): nat {
    if xs == [] then 0 else 6 + |xs[0].value| + ItemsSize(xs[1..])
  }

  lemma {:induction false} ItemsFit(b: seq<byte>, pos: nat)
    requires pos <= |b|
    ensures ItemsSize(Items(b, pos).0) <= |b| - pos
    decreases |b| - pos
  {
    match ReadItem(b, pos)
    case Got(x, next) =>
      ItemsFit(b, next);
      assert Items(b, pos).0[1..] == Items(b, next).0;
    case _ =>
  }

  // With room for every 46 bytes still to come the limit makes no difference.
  lemma {:induction false} CapNeverBites(a: Acc, xs: seq<Item>, cap: nat, cap': nat)
    requires 46 * |a.e.content| + ItemsSize(xs) <= 46 * cap + 45 && cap <= cap'
    ensures EntryFields(a, xs, cap) == EntryFields(a, xs, cap')
    decreases |xs|
  {
    if xs != [] {
      match EntryField(a, xs[0], cap)
      case Err(_) =>
      case Ok(b) => CapNeverBites(b, xs[1..], cap, cap');
    }
  }

  // vlen/46 + 1 references are always enough: a larger array changes nothing.
  lemma ScratchIsEnough(value: seq<byte>, cap: nat)
    requires cap >= |value| / 46 + 1
    ensures DecodeEntry(value, cap) == DecodeEntry(value, |value| / 46)
  {
    ItemsFit(value, 0);
    CapNeverBites(START, Items(value, 0).0, |value| / 46, cap);
  }
}
