// REC_SNAP and REC_VOLUME, the two records that open a manifest.

module Records {
  import opened Bytes
  import opened Tlv

  const TAG_CREATED: nat := 0x8020
  const TAG_HOSTNAME: nat := 0x0021
  const TAG_TOOLVER: nat := 0x0022
  const TAG_SNAP_COMMENT: nat := 0x0023

  const TAG_VOL_ROOT: nat := 0x8030
  const TAG_VOL_NAME: nat := 0x0031
  const TAG_VOL_DOSTYPE: nat := 0x0032
  const TAG_VOL_CREATED: nat := 0x0033
  const TAG_VOL_CAPS: nat := 0x0034

  datatype Snap = Snap(
    created: Stamp,
    hostname: Option<seq<byte>>,
    toolver: Option<seq<byte>>,
    comment: Option<seq<byte>>)

  // caps is the longest name and the flag word.
  datatype Volume = Volume(
    root: seq<byte>,
    name: Option<seq<byte>>,
    dostype: Option<nat>,
    created: Option<Stamp>,
    caps: Option<(nat, nat)>)

  predicate Fits16(s: Option<seq<byte>>) {
    s.Some? ==> |s.value| < U16
  }

  predicate TooLongSnap(s: Snap) {
    !Fits16(s.hostname) || !Fits16(s.toolver) || !Fits16(s.comment)
  }

  predicate TooLongVolume(v: Volume) {
    |v.root| >= U16 || !Fits16(v.name)
  }

  predicate ValidVolume(v: Volume) {
    && (v.dostype.Some? ==> v.dostype.value < U32)
    && (v.created.Some? ==> ValidStamp(v.created.value))
    && (v.caps.Some? ==> v.caps.value.0 < U16 && v.caps.value.1 < U16)
  }

  function StampItem(tag: nat, d: Option<Stamp>): Option<Item> {
    if d.Some? then Some(Item(tag, StampValue(d.value))) else None
  }

  function SnapItems(s: Snap): seq<Item> {
    [Item(TAG_CREATED, StampValue(s.created))] + Optional(StringItem(TAG_HOSTNAME, s.hostname))
    + Optional(StringItem(TAG_TOOLVER, s.toolver)) + Optional(StringItem(TAG_SNAP_COMMENT, s.comment))
  }

  function VolumeItems(v: Volume): seq<Item> {
    [Item(TAG_VOL_ROOT, StringValue(v.root))] + Optional(StringItem(TAG_VOL_NAME, v.name))
    + Optional(UintItem(TAG_VOL_DOSTYPE, 4, v.dostype)) + Optional(StampItem(TAG_VOL_CREATED, v.created))
    + Optional(PairItem(TAG_VOL_CAPS, v.caps))
  }

  // encode_snap_body
  method EncodeSnap(s: Snap) returns (r: Result<seq<byte>>)
    ensures r == if TooLongSnap(s) then Err(TooLong) else Ok(EncodeItems(SnapItems(s)))
  {
    if TooLongSnap(s) {
      return Err(TooLong);
    }
    ghost var items;
    var body: seq<byte>;
    body, items := AddItem([], [], Item(TAG_CREATED, StampValue(s.created)));
    body, items := AddOptional(body, items, StringItem(TAG_HOSTNAME, s.hostname));
    body, items := AddOptional(body, items, StringItem(TAG_TOOLVER, s.toolver));
    body, items := AddOptional(body, items, StringItem(TAG_SNAP_COMMENT, s.comment));
    assert items == SnapItems(s);
    return Ok(body);
  }

  // encode_volume_body
  method EncodeVolume(v: Volume) returns (r: Result<seq<byte>>)
    ensures r == if TooLongVolume(v) then Err(TooLong) else Ok(EncodeItems(VolumeItems(v)))
  {
    if TooLongVolume(v) {
      return Err(TooLong);
    }
    ghost var items;
    var body: seq<byte>;
    body, items := AddItem([], [], Item(TAG_VOL_ROOT, StringValue(v.root)));
    body, items := AddOptional(body, items, StringItem(TAG_VOL_NAME, v.name));
    body, items := AddOptional(body, items, UintItem(TAG_VOL_DOSTYPE, 4, v.dostype));
    body, items := AddOptional(body, items, StampItem(TAG_VOL_CREATED, v.created));
    body, items := AddOptional(body, items, PairItem(TAG_VOL_CAPS, v.caps));
    assert items == VolumeItems(v);
    return Ok(body);
  }

  // ---- Decoding: the record so far, and whether its required field was seen ---------

  function SnapField(a: (Snap, bool), x: Item): Result<(Snap, bool)> {
    var (s, seen) := a;
    if x.tag == TAG_CREATED then
      match DecodeStamp(x.value)
      case None => Err(Malformed)
      case Some(d) => Ok((s.(created := d), true))
    else if x.tag == TAG_HOSTNAME || x.tag == TAG_TOOLVER || x.tag == TAG_SNAP_COMMENT then
      match DecodeString(x.value)
      case None => Err(Malformed)
      case Some(t) =>
        Ok((if x.tag == TAG_HOSTNAME then s.(hostname := Some(t))
            else if x.tag == TAG_TOOLVER then s.(toolver := Some(t))
            else s.(comment := Some(t)), seen))
    else if Critical(x.tag) then Err(Error.CriticalTag)
    else Ok(a)
  }

  function SnapFields(a: (Snap, bool), xs: seq<Item>): Result<(Snap, bool)>
    decreases |xs|
  {
    if xs == [] then Ok(a)
    else match SnapField(a, xs[0])
      case Err(err) => Err(err)
      case Ok(b) => SnapFields(b, xs[1..])
  }

  const SNAP_START: (Snap, bool) := (Snap(Stamp(0, 0, 0), None, None, None), false)

  function DecodeSnap(value: seq<byte>): Result<Snap> {
    var (xs, ok) := Items(value, 0);
    match SnapFields(SNAP_START, xs)
    case Err(err) => Err(err)
    case Ok(a) => if !ok then Err(Truncated) else if !a.1 then Err(MissingField) else Ok(a.0)
  }

  function VolumeField(a: (Volume, bool), x: Item): Result<(Volume, bool)> {
    var (v, seen) := a;
    if x.tag == TAG_VOL_ROOT then
      match DecodeString(x.value)
      case None => Err(Malformed)
      case Some(s) => Ok((v.(root := s), true))
    else if x.tag == TAG_VOL_NAME then
      match DecodeString(x.value)
      case None => Err(Malformed)
      case Some(s) => Ok((v.(name := Some(s)), seen))
    else if x.tag == TAG_VOL_DOSTYPE then
      match DecodeUint(x.value, 4)
      case None => Err(Malformed)
      case Some(n) => Ok((v.(dostype := Some(n)), seen))
    else if x.tag == TAG_VOL_CREATED then
      match DecodeStamp(x.value)
      case None => Err(Malformed)
      case Some(d) => Ok((v.(created := Some(d)), seen))
    else if x.tag == TAG_VOL_CAPS then
      match DecodePair(x.value)
      case None => Err(Malformed)
      case Some(p) => Ok((v.(caps := Some(p)), seen))
    else if Critical(x.tag) then Err(Error.CriticalTag)
    else Ok(a)
  }

  function VolumeFields(a: (Volume, bool), xs: seq<Item>): Result<(Volume, bool)>
    decreases |xs|
  {
    if xs == [] then Ok(a)
    else match VolumeField(a, xs[0])
      case Err(err) => Err(err)
      case Ok(b) => VolumeFields(b, xs[1..])
  }

  const VOLUME_START: (Volume, bool) := (Volume([], None, None, None, None), false)

  function DecodeVolume(value: seq<byte>): Result<Volume> {
    var (xs, ok) := Items(value, 0);
    match VolumeFields(VOLUME_START, xs)
    case Err(err) => Err(err)
    case Ok(a) => if !ok then Err(Truncated) else if !a.1 then Err(MissingField) else Ok(a.0)
  }

  // decode_snap's cursor loop.
  method DecodeSnapLoop(value: seq<byte>) returns (r: Result<Snap>)
    ensures r == DecodeSnap(value)
  {
    var a, pos := SNAP_START, 0;
    while true
      invariant pos <= |value| && Items(value, 0).1 == Items(value, pos).1
      invariant SnapFields(SNAP_START, Items(value, 0).0) == SnapFields(a, Items(value, pos).0)
      decreases |value| - pos
    {
      match ReadItem(value, pos) {
        case AtEnd => return if a.1 then Ok(a.0) else Err(MissingField);
        case Cut => return Err(Truncated);
        case Got(x, next) =>
          assert Items(value, pos).0[1..] == Items(value, next).0;
          match SnapField(a, x) {
            case Err(err) => return Err(err);
            case Ok(b) => a, pos := b, next;
          }
      }
    }
  }

  // decode_volume's cursor loop.
  method DecodeVolumeLoop(value: seq<byte>) returns (r: Result<Volume>)
    ensures r == DecodeVolume(value)
  {
    var a, pos := VOLUME_START, 0;
    while true
      invariant pos <= |value| && Items(value, 0).1 == Items(value, pos).1
      invariant VolumeFields(VOLUME_START, Items(value, 0).0) == VolumeFields(a, Items(value, pos).0)
      decreases |value| - pos
    {
      match ReadItem(value, pos) {
        case AtEnd => return if a.1 then Ok(a.0) else Err(MissingField);
        case Cut => return Err(Truncated);
        case Got(x, next) =>
          assert Items(value, pos).0[1..] == Items(value, next).0;
          match VolumeField(a, x) {
            case Err(err) => return Err(err);
            case Ok(b) => a, pos := b, next;
          }
      }
    }
  }

  // ---- Round trips -------------------------------------------------------------------

  lemma {:induction false} SnapFieldsConcat(a: (Snap, bool), xs: seq<Item>, ys: seq<Item>)
    ensures SnapFields(a, xs + ys) ==
            match SnapFields(a, xs)
            case Err(err) => Err(err)
            case Ok(b) => SnapFields(b, ys)
    decreases |xs|
  {
    if xs == [] {
      assert xs + ys == ys;
    } else {
      assert (xs + ys)[1..] == xs[1..] + ys;
      match SnapField(a, xs[0])
      case Err(_) =>
      case Ok(b) => SnapFieldsConcat(b, xs[1..], ys);
    }
  }

  lemma {:induction false} VolumeFieldsConcat(a: (Volume, bool), xs: seq<Item>, ys: seq<Item>)
    ensures VolumeFields(a, xs + ys) ==
            match VolumeFields(a, xs)
            case Err(err) => Err(err)
            case Ok(b) => VolumeFields(b, ys)
    decreases |xs|
  {
    if xs == [] {
      assert xs + ys == ys;
    } else {
      assert (xs + ys)[1..] == xs[1..] + ys;
      match VolumeField(a, xs[0])
      case Err(_) =>
      case Ok(b) => VolumeFieldsConcat(b, xs[1..], ys);
    }
  }

  lemma OptionalSnapString(a: (Snap, bool), tag: nat, s: Option<seq<byte>>)
    requires Fits16(s) && tag in {TAG_HOSTNAME, TAG_TOOLVER, TAG_SNAP_COMMENT}
    requires tag == TAG_HOSTNAME ==> a.0.hostname.None?
    requires tag == TAG_TOOLVER ==> a.0.toolver.None?
    requires tag == TAG_SNAP_COMMENT ==> a.0.comment.None?
    ensures SnapFields(a, Optional(StringItem(tag, s))) ==
            Ok((if tag == TAG_HOSTNAME then a.0.(hostname := s)
                else if tag == TAG_TOOLVER then a.0.(toolver := s)
                else a.0.(comment := s), a.1))
  {
    if s.Some? {
      StringRoundTrip(s.value);
      assert Optional(StringItem(tag, s))[1..] == [];
    }
  }

  lemma SnapRoundTrip(s: Snap)
    requires ValidStamp(s.created) && !TooLongSnap(s)
    ensures DecodeSnap(EncodeItems(SnapItems(s))) == Ok(s)
    ensures forall x :: x in SnapItems(s) ==> ValidItem(x)
  {
    var c := [Item(TAG_CREATED, StampValue(s.created))];
    var h, t, m := Optional(StringItem(TAG_HOSTNAME, s.hostname)), Optional(StringItem(TAG_TOOLVER, s.toolver)),
                   Optional(StringItem(TAG_SNAP_COMMENT, s.comment));
    var s0 := Snap(s.created, None, None, None);
    assert [] + EncodeItems(SnapItems(s)) == EncodeItems(SnapItems(s));
    ItemsRoundTrip([], SnapItems(s));
    StampRoundTrip(s.created);
    assert c[1..] == [];
    OptionalSnapString((s0, true), TAG_HOSTNAME, s.hostname);
    OptionalSnapString((s0.(hostname := s.hostname), true), TAG_TOOLVER, s.toolver);
    OptionalSnapString((s.(comment := None), true), TAG_SNAP_COMMENT, s.comment);
    SnapFieldsConcat(SNAP_START, c + h + t, m);
    SnapFieldsConcat(SNAP_START, c + h, t);
    SnapFieldsConcat(SNAP_START, c, h);
  }

  lemma OptionalName(v: Volume, s: Option<seq<byte>>)
    requires Fits16(s) && v.name.None?
    ensures VolumeFields((v, true), Optional(StringItem(TAG_VOL_NAME, s))) == Ok((v.(name := s), true))
  {
    if s.Some? {
      StringRoundTrip(s.value);
      assert Optional(StringItem(TAG_VOL_NAME, s))[1..] == [];
    }
  }

  lemma OptionalDostype(v: Volume, n: Option<nat>)
    requires (n.Some? ==> n.value < U32) && v.dostype.None?
    ensures VolumeFields((v, true), Optional(UintItem(TAG_VOL_DOSTYPE, 4, n))) == Ok((v.(dostype := n), true))
  {
    if n.Some? {
      Widths();
      UintRoundTrip(4, n.value);
      assert Optional(UintItem(TAG_VOL_DOSTYPE, 4, n))[1..] == [];
    }
  }

  lemma OptionalCreated(v: Volume, d: Option<Stamp>)
    requires (d.Some? ==> ValidStamp(d.value)) && v.created.None?
    ensures VolumeFields((v, true), Optional(StampItem(TAG_VOL_CREATED, d))) == Ok((v.(created := d), true))
  {
    if d.Some? {
      StampRoundTrip(d.value);
      assert Optional(StampItem(TAG_VOL_CREATED, d))[1..] == [];
    }
  }

  lemma OptionalCaps(v: Volume, p: Option<(nat, nat)>)
    requires (p.Some? ==> p.value.0 < U16 && p.value.1 < U16) && v.caps.None?
    ensures VolumeFields((v, true), Optional(PairItem(TAG_VOL_CAPS, p))) == Ok((v.(caps := p), true))
  {
    if p.Some? {
      PairRoundTrip(p.value.0, p.value.1);
      assert Optional(PairItem(TAG_VOL_CAPS, p))[1..] == [];
    }
  }

  lemma VolumeItemsRead(v: Volume)
    requires ValidVolume(v) && !TooLongVolume(v)
    ensures VolumeFields(VOLUME_START, VolumeItems(v)) == Ok((v, true))
  {
    var r := [Item(TAG_VOL_ROOT, StringValue(v.root))];
    var n, d := Optional(StringItem(TAG_VOL_NAME, v.name)), Optional(UintItem(TAG_VOL_DOSTYPE, 4, v.dostype));
    var c, p := Optional(StampItem(TAG_VOL_CREATED, v.created)), Optional(PairItem(TAG_VOL_CAPS, v.caps));
    StringRoundTrip(v.root);
    assert r[1..] == [];
    OptionalName(Volume(v.root, None, None, None, None), v.name);
    OptionalDostype(Volume(v.root, v.name, None, None, None), v.dostype);
    OptionalCreated(v.(created := None, caps := None), v.created);
    OptionalCaps(v.(caps := None), v.caps);
    VolumeFieldsConcat(VOLUME_START, r + n + d + c, p);
    VolumeFieldsConcat(VOLUME_START, r + n + d, c);
    VolumeFieldsConcat(VOLUME_START, r + n, d);
    VolumeFieldsConcat(VOLUME_START, r, n);
  }

  lemma VolumeRoundTrip(v: Volume)
    requires ValidVolume(v) && !TooLongVolume(v)
    ensures DecodeVolume(EncodeItems(VolumeItems(v))) == Ok(v)
    ensures forall x :: x in VolumeItems(v) ==> ValidItem(x)
  {
    assert [] + EncodeItems(VolumeItems(v)) == EncodeItems(VolumeItems(v));
    ItemsRoundTrip([], VolumeItems(v));
    VolumeItemsRead(v);
  }
}
