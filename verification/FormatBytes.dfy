// The bytes of a manifest and of an object frame, written out with the numbers docs/format.md
// gives, and what readers make of fields and records they do not know.

module FormatBytes {
  import opened Bytes
  import opened Frame
  import opened HexNames
  import opened Lz4Format
  import opened Manifest
  import opened Meta
  import opened Records
  import opened RepoCrypto
  import opened SnapIds
  import opened Tlv

  // ---- Numbers and strings -----------------------------------------------------------------

  function Two(v: nat): seq<byte>
    requires v < 0x1_0000
  {
    [v / 256, v % 256]
  }

  function Four(v: nat): seq<byte>
    requires v < 0x1_0000_0000
  {
    [v / 0x100_0000, v / 0x1_0000 % 256, v / 256 % 256, v % 256]
  }

  function Eight(v: nat): seq<byte>
    requires v < 0x1_0000_0000_0000_0000
  {
    Four(v / 0x1_0000_0000) + Four(v % 0x1_0000_0000)
  }

  lemma BeTwo(v: nat)
    requires v < 0x1_0000
    ensures Be(2, v) == Two(v)
  {
    assert Be(1, v / 256) == Be(0, v / 256 / 256) + [v / 256 % 256];
  }

  lemma BeStep(w: nat, v: nat)
    requires w > 0
    ensures Be(w, v) == Be(w - 1, v / 256) + [v % 256]
  {
  }

  // The last four bytes, and what comes before them.
  lemma BeFourMore(w: nat, v: nat)
    ensures Be(w + 4, v) == Be(w, v / 0x1_0000_0000) + Four(v % 0x1_0000_0000)
  {
    BeStep(w + 4, v);
    BeStep(w + 3, v / 256);
    BeStep(w + 2, v / 256 / 256);
    BeStep(w + 1, v / 256 / 256 / 256);
    FourBytes(v);
    var d := [v / 256 / 256 / 256 % 256, v / 256 / 256 % 256, v / 256 % 256, v % 256];
    assert Be(w, v / 256 / 256 / 256 / 256) + d == Be(w + 4, v);
  }

  lemma LowFour(v: nat, a: nat, b: nat, c: nat, d: nat, e: nat)
    requires a < 256 && b < 256 && c < 256 && d < 256
    requires v == a + 256 * b + 0x1_0000 * c + 0x100_0000 * d + 0x1_0000_0000 * e
    ensures v / 0x1_0000_0000 == e && Four(v % 0x1_0000_0000) == [d, c, b, a]
  {
    var u := a + 256 * b + 0x1_0000 * c + 0x100_0000 * d;
    assert v % 0x1_0000_0000 == u;
    assert u / 0x100_0000 == d && u / 0x1_0000 == c + 256 * d && u / 256 == b + 256 * c + 0x1_0000 * d;
  }

  lemma FourBytes(v: nat)
    ensures v / 256 / 256 / 256 / 256 == v / 0x1_0000_0000
    ensures Four(v % 0x1_0000_0000) == [v / 256 / 256 / 256 % 256, v / 256 / 256 % 256, v / 256 % 256, v % 256]
  {
    var p, q, r := v / 256, v / 256 / 256, v / 256 / 256 / 256;
    var a, b, c, d, e := v % 256, p % 256, q % 256, r % 256, r / 256;
    assert v == a + 256 * b + 0x1_0000 * c + 0x100_0000 * d + 0x1_0000_0000 * e;
    LowFour(v, a, b, c, d, e);
  }

  lemma BeFour(v: nat)
    requires v < 0x1_0000_0000
    ensures Be(4, v) == Four(v)
  {
    BeFourMore(0, v);
    assert Be(0, 0) == [];
  }

  lemma BeEight(v: nat)
    requires v < 0x1_0000_0000_0000_0000
    ensures Be(8, v) == Eight(v)
  {
    BeFourMore(4, v);
    BeFour(v / 0x1_0000_0000);
  }

  // A string is its length in two bytes and its bytes.
  function Text(s: seq<byte>): seq<byte>
    requires |s| < 0x1_0000
  {
    Two(|s|) + s
  }

  function Date(d: Stamp): seq<byte>
    requires ValidStamp(d)
  {
    Four(d.days) + Four(d.mins) + Four(d.ticks)
  }

  // A tag in two bytes, a length in four, the value.
  function Field(x: Item): seq<byte>
    requires ValidItem(x)
  {
    Two(x.tag) + Four(|x.value|) + x.value
  }

  lemma FieldBytes(x: Item)
    requires ValidItem(x)
    ensures EncodeItem(x) == Field(x)
  {
    BeTwo(x.tag);
    BeFour(|x.value|);
  }

  function FieldsInOrder(xs: seq<Item>): seq<byte>
    requires forall x :: x in xs ==> ValidItem(x)
  {
    if xs == [] then [] else FieldsInOrder(xs[..|xs| - 1]) + Field(xs[|xs| - 1])
  }

  lemma {:induction false} FieldsBytes(xs: seq<Item>)
    requires forall x :: x in xs ==> ValidItem(x)
    ensures EncodeItems(xs) == FieldsInOrder(xs)
    decreases |xs|
  {
    if xs != [] {
      FieldsBytes(xs[..|xs| - 1]);
      FieldBytes(xs[|xs| - 1]);
    }
  }

  // ---- The three kinds of record ---------------------------------------------------------------

  function Maybe(x: Option<Item>): seq<Item> {
    if x.Some? then [x.value] else []
  }

  function MaybeText(tag: nat, s: Option<seq<byte>>): Option<Item>
    requires s.Some? ==> |s.value| < 0x1_0000
  {
    if s.Some? then Some(Item(tag, Text(s.value))) else None
  }

  function SnapFieldsOf(s: Snap): seq<Item>
    requires ValidStamp(s.created) && !TooLongSnap(s)
  {
    [Item(0x8020, Date(s.created))] + Maybe(MaybeText(0x0021, s.hostname)) + Maybe(MaybeText(0x0022, s.toolver))
    + Maybe(MaybeText(0x0023, s.comment))
  }

  lemma SnapAsDocumented(s: Snap)
    requires ValidStamp(s.created) && !TooLongSnap(s)
    ensures SnapItems(s) == SnapFieldsOf(s)
  {
    DateBytes(s.created);
    MaybeTextIs(0x0021, s.hostname);
    MaybeTextIs(0x0022, s.toolver);
    MaybeTextIs(0x0023, s.comment);
  }

  lemma DateBytes(d: Stamp)
    requires ValidStamp(d)
    ensures StampValue(d) == Date(d)
  {
    BeFour(d.days);
    BeFour(d.mins);
    BeFour(d.ticks);
  }

  lemma MaybeTextIs(tag: nat, s: Option<seq<byte>>)
    requires s.Some? ==> |s.value| < 0x1_0000
    ensures Optional(StringItem(tag, s)) == Maybe(MaybeText(tag, s))
  {
    if s.Some? {
      BeTwo(|s.value|);
    }
  }

  function MaybePair(tag: nat, p: Option<(nat, nat)>): Option<Item>
    requires p.Some? ==> p.value.0 < 0x1_0000 && p.value.1 < 0x1_0000
  {
    if p.Some? then Some(Item(tag, Two(p.value.0) + Two(p.value.1))) else None
  }

  lemma MaybePairIs(tag: nat, p: Option<(nat, nat)>)
    requires p.Some? ==> p.value.0 < 0x1_0000 && p.value.1 < 0x1_0000
    ensures Optional(PairItem(tag, p)) == Maybe(MaybePair(tag, p))
  {
    if p.Some? {
      BeTwo(p.value.0);
      BeTwo(p.value.1);
    }
  }

  function VolumeFieldsOf(v: Volume): seq<Item>
    requires ValidVolume(v) && !TooLongVolume(v)
  {
    [Item(0x8030, Text(v.root))] + Maybe(MaybeText(0x0031, v.name))
    + Maybe(if v.dostype.Some? then Some(Item(0x0032, Four(v.dostype.value))) else None)
    + Maybe(if v.created.Some? then Some(Item(0x0033, Date(v.created.value))) else None)
    + Maybe(MaybePair(0x0034, v.caps))
  }

  lemma VolumeAsDocumented(v: Volume)
    requires ValidVolume(v) && !TooLongVolume(v)
    ensures VolumeItems(v) == VolumeFieldsOf(v)
  {
    BeTwo(|v.root|);
    MaybeTextIs(0x0031, v.name);
    if v.dostype.Some? {
      BeFour(v.dostype.value);
    }
    if v.created.Some? {
      DateBytes(v.created.value);
    }
    MaybePairIs(0x0034, v.caps);
  }

  // Each reference is a hash and a size in eight bytes.
  function ContentFields(rs: seq<Ref>): seq<Item>
    requires forall r :: r in rs ==> ValidRef(r)
  {
    if rs == [] then []
    else
      var last := rs[|rs| - 1];
      assert last in rs && ValidRef(last);
      ContentFields(rs[..|rs| - 1]) + [Item(0x8047, last.hash + Eight(last.size))]
  }

  lemma {:induction false} ContentBytes(rs: seq<Ref>)
    requires forall r :: r in rs ==> ValidRef(r)
    ensures RefItems(rs) == ContentFields(rs)
    decreases |rs|
  {
    if rs != [] {
      var last := rs[|rs| - 1];
      assert last in rs;
      ContentBytes(rs[..|rs| - 1]);
      BeEight(last.size);
    }
  }

  function FieldsBefore(e: Entry): seq<Item>
    requires ValidEntry(e) && !TooLongEntry(e)
  {
    [Item(0x8040, Text(e.path)), Item(0x8041, [e.etype]), Item(0x8042, Four(e.prot)), Item(0x8043, Date(e.date))]
    + Maybe(MaybeText(0x0044, e.comment)) + Maybe(MaybePair(0x0045, e.owner))
    + Maybe(if e.size.Some? then Some(Item(0x8046, Eight(e.size.value))) else None)
  }

  function FieldsBehind(e: Entry): seq<Item>
    requires ValidEntry(e) && !TooLongEntry(e)
  {
    Maybe(MaybeText(0x8048, e.link)) + Maybe(if e.xhash.Some? then Some(Item(0x0049, Four(e.xhash.value))) else None)
  }

  lemma RequiredAsDocumented(e: Entry)
    requires ValidEntry(e) && !TooLongEntry(e)
    ensures RequiredItems(e) ==
            [Item(0x8040, Text(e.path)), Item(0x8041, [e.etype]), Item(0x8042, Four(e.prot)), Item(0x8043, Date(e.date))]
  {
    BeTwo(|e.path|);
    assert Be(1, e.etype) == Be(0, e.etype / 256) + [e.etype % 256] == [e.etype];
    BeFour(e.prot);
    DateBytes(e.date);
    assert StringValue(e.path) == Text(e.path);
  }

  lemma EntryAsDocumented(e: Entry)
    requires ValidEntry(e) && !TooLongEntry(e)
    ensures EntryItems(e) == FieldsBefore(e) + ContentFields(e.content) + FieldsBehind(e)
  {
    RequiredAsDocumented(e);
    MaybeTextIs(0x0044, e.comment);
    MaybePairIs(0x0045, e.owner);
    ContentBytes(e.content);
    MaybeTextIs(0x8048, e.link);
    if e.size.Some? {
      BeEight(e.size.value);
    }
    if e.xhash.Some? {
      BeFour(e.xhash.value);
    }
  }

  // ---- A whole manifest --------------------------------------------------------------------------

  function FieldsOf(e: Event): seq<Item>
    requires ValidEvent(e)
  {
    match e
    case OnSnap(s) => SnapFieldsOf(s)
    case OnVolume(v) => VolumeFieldsOf(v)
    case OnEntry(n) => FieldsBefore(n) + ContentFields(n.content) + FieldsBehind(n)
  }

  lemma EventFields(e: Event)
    requires ValidEvent(e)
    ensures EventBody(e) == EncodeItems(FieldsOf(e))
  {
    match e
    case OnSnap(s) => SnapAsDocumented(s);
    case OnVolume(v) => VolumeAsDocumented(v);
    case OnEntry(n) => EntryAsDocumented(n);
  }

  predicate FieldsAreValid(xs: seq<Item>) {
    forall x :: x in xs ==> ValidItem(x)
  }

  lemma SnapFieldsAreValid(s: Snap)
    requires ValidStamp(s.created) && !TooLongSnap(s)
    ensures FieldsAreValid(SnapFieldsOf(s))
  {
  }

  lemma VolumeFieldsAreValid(v: Volume)
    requires ValidVolume(v) && !TooLongVolume(v)
    ensures FieldsAreValid(VolumeFieldsOf(v))
  {
  }

  lemma EventFieldsAreValid(e: Event)
    requires ValidEvent(e)
    ensures FieldsAreValid(FieldsOf(e))
  {
    match e
    case OnSnap(s) => SnapFieldsAreValid(s);
    case OnVolume(v) => VolumeFieldsAreValid(v);
    case OnEntry(n) =>
      EntryItemsValid(n);
      EntryAsDocumented(n);
  }

  // Its tag and its fields.
  function RecordBytes(e: Event): seq<byte>
    requires ValidEvent(e)
  {
    EventFieldsAreValid(e);
    var body := FieldsInOrder(FieldsOf(e));
    EventFields(e);
    FieldsBytes(FieldsOf(e));
    Two(if e.OnSnap? then 0x8002 else if e.OnVolume? then 0x8003 else 0x8004) + Four(|body|) + body
  }

  lemma RecordAsDocumented(e: Event)
    requires ValidEvent(e)
    ensures EncodeItem(RecordOf(e)) == RecordBytes(e)
  {
    EventFieldsAreValid(e);
    EventFields(e);
    FieldsBytes(FieldsOf(e));
    FieldBytes(RecordOf(e));
  }

  function AllRecords(es: seq<Event>): seq<byte>
    requires ValidEvents(es)
  {
    if es == [] then [] else AllRecords(es[..|es| - 1]) + RecordBytes(es[|es| - 1])
  }

  lemma LastRecord(es: seq<Event>, init: seq<Event>, last: Event)
    requires es == init + [last] && ValidEvent(last)
    ensures EncodeItems(RecordsOf(es)) == EncodeItems(RecordsOf(init)) + RecordBytes(last)
  {
    RecordsSnoc(init, last);
    EncodeItemsSnoc(RecordsOf(init), RecordOf(last));
    RecordAsDocumented(last);
  }

  lemma {:induction false} RecordsBytes(es: seq<Event>)
    requires ValidEvents(es)
    ensures EncodeItems(RecordsOf(es)) == AllRecords(es)
    decreases |es|
  {
    if es != [] {
      var init, last := es[..|es| - 1], es[|es| - 1];
      RecordsBytes(init);
      LastRecord(es, init, last);
    }
  }

  // "ASNP", the kind 2, the version 1 and no flags; the records; the end record with the
  // number of entries and the hash of all bytes before it.
  lemma ManifestAsDocumented(es: seq<Event>, hash: Hash)
    requires ValidEvents(es) && EntryCount(es) < 0x1_0000_0000 && |hash(Unclosed(es))| == 32
    ensures var before := [0x41, 0x53, 0x4E, 0x50, 2, 1, 0, 0] + AllRecords(es);
      ManifestBytes(es, hash) ==
      before + ([0x80, 0x05, 0, 0, 0, 48] + ([0x80, 0x50, 0, 0, 0, 4] + Four(EntryCount(es)) + ([0x80, 0x51, 0, 0, 0, 32] + hash(before))))
  {
    RecordsBytes(es);
    BeTwo(0);
    assert Unclosed(es) == [0x41, 0x53, 0x4E, 0x50, 2, 1, 0, 0] + AllRecords(es);
    EndBytes(EntryCount(es), hash(Unclosed(es)));
  }

  lemma EndBytes(count: nat, h: seq<byte>)
    requires count < 0x1_0000_0000 && |h| == 32
    ensures EncodeItem(EndRecord(count, h)) ==
            [0x80, 0x05, 0, 0, 0, 48] + ([0x80, 0x50, 0, 0, 0, 4] + Four(count) + ([0x80, 0x51, 0, 0, 0, 32] + h))
  {
    var a, b := Item(0x8050, Four(count)), Item(0x8051, h);
    BeFour(count);
    assert EndItems(count, h) == [a, b];
    FieldBytes(a);
    FieldBytes(b);
    EncodeItemsSnoc([a], b);
    EncodeItemsSnoc([], a);
    assert [] + [a] == [a] && [a] + [b] == [a, b];
    FieldBytes(EndRecord(count, h));
  }

  // The end record counts the entries among the events.
  lemma {:induction false} CountIsOfEntries(es: seq<Event>)
    ensures EntryCount(es) == |EntriesAmong(es)|
    decreases |es|
  {
    if es != [] {
      CountIsOfEntries(es[..|es| - 1]);
    }
  }

  function EntriesAmong(es: seq<Event>): seq<Entry> {
    if es == [] then []
    else EntriesAmong(es[..|es| - 1]) + match es[|es| - 1] { case OnEntry(e) => [e] case _ => [] }
  }

  // ---- Fields a reader does not know -------------------------------------------------------------

  // The result with a field left out, and with it in.
  ghost predicate Skips<T>(r: Result<T>, with: Result<T>, tag: nat) {
    if tag < 0x8000 then with == r else with.Err?
  }

  lemma UnknownEntryField(a: Acc, xs: seq<Item>, x: Item, ys: seq<Item>, cap: nat)
    requires x.tag < 0x1_0000 && x.tag !in {0x8040, 0x8041, 0x8042, 0x8043, 0x0044, 0x0045, 0x8046, 0x8047, 0x8048, 0x0049}
    ensures Skips(EntryFields(a, xs + ys, cap), EntryFields(a, xs + ([x] + ys), cap), x.tag)
  {
    EntryFieldsConcat(a, xs, ys, cap);
    EntryFieldsConcat(a, xs, [x] + ys, cap);
    match EntryFields(a, xs, cap)
    case Err(_) =>
    case Ok(b) =>
      assert ([x] + ys)[1..] == ys;
      assert EntryField(b, x, cap) == if x.tag < 0x8000 then Ok(b) else Err(Error.CriticalTag);
  }

  lemma EntryDecoded(xs: seq<Item>, cap: nat)
    requires FieldsAreValid(xs)
    ensures DecodeEntry(EncodeItems(xs), cap) ==
            match EntryFields(START, xs, cap) { case Err(err) => Err(err) case Ok(a) => CheckEntry(a) }
  {
    ItemsRoundTrip([], xs);
    assert [] + EncodeItems(xs) == EncodeItems(xs);
  }

  // An entry with a field from a later version, wherever it stands: read as if it were not
  // there when its tag is below 0x8000, refused otherwise.
  lemma EntryFromTheFuture(xs: seq<Item>, x: Item, ys: seq<Item>, cap: nat)
    requires FieldsAreValid(xs + ([x] + ys)) && FieldsAreValid(xs + ys)
    requires x.tag !in {0x8040, 0x8041, 0x8042, 0x8043, 0x0044, 0x0045, 0x8046, 0x8047, 0x8048, 0x0049}
    ensures Skips(DecodeEntry(EncodeItems(xs + ys), cap), DecodeEntry(EncodeItems(xs + ([x] + ys)), cap), x.tag)
  {
    assert x in xs + ([x] + ys);
    UnknownEntryField(START, xs, x, ys, cap);
    EntryDecoded(xs + ys, cap);
    EntryDecoded(xs + ([x] + ys), cap);
  }

  // The same for a whole record.
  lemma UnknownRecord(p: Progress, x: Item, data: seq<byte>, at: nat, hash: Hash)
    requires at <= |data| && p.seenSnap && !p.seenEnd && x.tag < 0x1_0000 && x.tag !in {0x8002, 0x8003, 0x8004, 0x8005}
    ensures RecordStep(p, x, data, at, hash) == if x.tag < 0x8000 then Ok(p) else Err(Error.CriticalTag)
  {
  }

  // ---- Frames ---------------------------------------------------------------------------------

  // 0 is stored, 1 LZ4, 2 zlib, the plain size in eight bytes before the payload; nothing
  // else is read.
  lemma FrameAsDocumented(alg: byte, payload: seq<byte>, usize: nat, inflate: Inflate)
    requires usize <= 0x7FFF_FFFF && |payload| <= 0x7FFF_FFFF
    ensures var r := FrameDecode([alg] + Eight(usize) + payload, usize, inflate);
      match alg
      case 0 => r.Ok? <==> |payload| == usize
      case 1 => r.Ok? <==> SafeDecode(payload, usize).Some? && |SafeDecode(payload, usize).value| == usize
      case 2 => r.Ok? <==> inflate(payload, usize).Some? && |inflate(payload, usize).value| == usize
      case _ => r == Err(Error.CriticalTag)
    ensures var r := FrameDecode([alg] + Eight(usize) + payload, usize, inflate);
      r.Ok? ==> r.value == if alg == 0 then payload
                           else if alg == 1 then SafeDecode(payload, usize).value else inflate(payload, usize).value
  {
    BeEight(usize);
    HeaderParts(alg, usize, payload);
  }

  // And a frame that is read is nothing else.
  lemma FrameIsHeaded(data: seq<byte>, usize: nat, inflate: Inflate)
    requires FrameDecode(data, usize, inflate).Ok? && usize < 0x1_0000_0000_0000_0000
    ensures |data| >= 9 && data[0] in {0, 1, 2} && GetBe(data[1..9]) == usize
  {
  }

  // A snapshot's id: day, minute and tick in eight, four and four hexadecimal digits.
  lemma IdAsDocumented(days: nat, mins: nat, ticks: nat)
    requires days < 0x1_0000_0000 && mins < 0x1_0000 && ticks < 0x1_0000
    ensures SnapId(days, mins, ticks) == HexOf(Four(days) + Two(mins) + Two(ticks))
  {
    BeFour(days);
    BeTwo(mins);
    BeTwo(ticks);
  }

  // ---- Encrypted frames ---------------------------------------------------------------------------

  // Twelve bytes of nonce, the plain bytes under the keystream for that nonce, and the first
  // sixteen bytes of the keyed hash of both.
  lemma SealAsDocumented(c: Cipher, k: Subkeys, nonce: seq<byte>, plain: seq<byte>)
    requires GoodCipher(c) && |nonce| == 12
    ensures var f := SealFrame(c, k, nonce, plain);
      && |f| == |plain| + 28 && f[..12] == nonce && f[12..|plain| + 12] == Xor(plain, c.stream(k.enc, nonce, |plain|))
      && f[|plain| + 12..] == c.keyed(k.mac, f[..|plain| + 12])[..16]
  {
    var ct := Ciphertext(c, k, nonce, plain);
    FrameParts(nonce, ct, Mac16(c, k, nonce, ct));
    assert SealFrame(c, k, nonce, plain)[..|plain| + 12] == nonce + ct;
  }

  // The i-th binary digit from the right.
  function Bit(a: nat, i: nat): nat {
    if i == 0 then a % 2 else Bit(a / 2, i - 1)
  }

  // A digit of an exclusive or is 1 exactly where those of the two numbers differ.
  lemma {:induction false} XorBitIs(a: nat, b: nat, k: nat, i: nat)
    requires i < k
    ensures Bit(XorBits(a, b, k), i) == if Bit(a, i) == Bit(b, i) then 0 else 1
    decreases k
  {
    var high := XorBits(a / 2, b / 2, k - 1);
    LowBit(a, b, high, XorBits(a, b, k));
    if i > 0 {
      XorBitIs(a / 2, b / 2, k - 1, i - 1);
    }
  }
}
