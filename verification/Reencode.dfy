// What a reader has accepted, a writer can write again: decoded values fit their fields,
// and written anew a record is no longer than the one it was read from.

module Reencoding {
  import opened Bytes
  import opened Manifest
  import opened ManifestProofs
  import opened Meta
  import opened Records
  import opened Tlv

  // ---- Lengths of encodings ----------------------------------------------------------------

  lemma {:induction false} LengthAdds(xs: seq<Item>, ys: seq<Item>)
    ensures |EncodeItems(xs + ys)| == |EncodeItems(xs)| + |EncodeItems(ys)|
    decreases |ys|
  {
    if ys == [] {
      assert xs + ys == xs;
    } else {
      var init, last := ys[..|ys| - 1], ys[|ys| - 1];
      LengthAdds(xs, init);
      assert (xs + ys)[..|xs + ys| - 1] == xs + init;
    }
  }

  lemma LengthOfOne(x: Item)
    ensures |EncodeItems([x])| == 6 + |x.value|
  {
    assert [x][..0] == [];
  }

  function OptionalLength(x: Option<Item>): nat {
    if x.Some? then 6 + |x.value.value| else 0
  }

  lemma LengthOfOptional(x: Option<Item>)
    ensures |EncodeItems(Optional(x))| == OptionalLength(x)
  {
    if x.Some? {
      LengthOfOne(x.value);
    }
  }

  // ---- Entries --------------------------------------------------------------------------------

  lemma {:induction false} LengthOfRefs(rs: seq<Ref>)
    requires forall r :: r in rs ==> |r.hash| == 32
    ensures |EncodeItems(RefItems(rs))| == 46 * |rs|
    decreases |rs|
  {
    if rs != [] {
      var init, last := rs[..|rs| - 1], rs[|rs| - 1];
      assert last in rs && forall r :: r in init ==> r in rs;
      LengthOfRefs(init);
      EncodeItemsSnoc(RefItems(init), Item(TAG_CONTENT, RefValue(last)));
    }
  }

  function RequiredLength(e: Entry): nat {
    43 + |e.path|
  }

  lemma LengthOfRequired(e: Entry)
    ensures |EncodeItems(RequiredItems(e))| == RequiredLength(e)
  {
    var a, b, c, d := Item(TAG_PATH, StringValue(e.path)), Item(TAG_TYPE, Be(1, e.etype)),
      Item(TAG_PROT, Be(4, e.prot)), Item(TAG_DATE, StampValue(e.date));
    LengthOfOne(a);
    EncodeItemsSnoc([a], b);
    EncodeItemsSnoc([a, b], c);
    EncodeItemsSnoc([a, b, c], d);
    assert [a] + [b] == [a, b] && [a, b] + [c] == [a, b, c] && [a, b, c] + [d] == RequiredItems(e);
  }

  function OptionsLength(e: Entry): nat {
    (if e.comment.Some? then 8 + |e.comment.value| else 0) + (if e.owner.Some? then 10 else 0)
    + (if e.size.Some? then 14 else 0) + (if e.link.Some? then 8 + |e.link.value| else 0)
    + if e.xhash.Some? then 10 else 0
  }

  lemma LengthBeforeContent(e: Entry)
    ensures |EncodeItems(ItemsBeforeContent(e))|
            == RequiredLength(e) + OptionalLength(StringItem(TAG_COMMENT, e.comment))
               + OptionalLength(PairItem(TAG_OWNER, e.owner)) + OptionalLength(UintItem(TAG_SIZE, 8, e.size))
  {
    var required, comment := RequiredItems(e), Optional(StringItem(TAG_COMMENT, e.comment));
    var owner, size := Optional(PairItem(TAG_OWNER, e.owner)), Optional(UintItem(TAG_SIZE, 8, e.size));
    LengthOfRequired(e);
    LengthOfOptional(StringItem(TAG_COMMENT, e.comment));
    LengthOfOptional(PairItem(TAG_OWNER, e.owner));
    LengthOfOptional(UintItem(TAG_SIZE, 8, e.size));
    LengthAdds(required, comment);
    LengthAdds(required + comment, owner);
    LengthAdds(required + comment + owner, size);
  }

  lemma LengthAfterContent(e: Entry)
    ensures |EncodeItems(ItemsAfterContent(e))|
            == OptionalLength(StringItem(TAG_LINK, e.link)) + OptionalLength(UintItem(TAG_XHASH, 4, e.xhash))
  {
    LengthOfOptional(StringItem(TAG_LINK, e.link));
    LengthOfOptional(UintItem(TAG_XHASH, 4, e.xhash));
    LengthAdds(Optional(StringItem(TAG_LINK, e.link)), Optional(UintItem(TAG_XHASH, 4, e.xhash)));
  }

  lemma LengthOfThree(xs: seq<Item>, ys: seq<Item>, zs: seq<Item>, all: seq<Item>)
    requires all == xs + ys + zs
    ensures |EncodeItems(all)| == |EncodeItems(xs)| + |EncodeItems(ys)| + |EncodeItems(zs)|
  {
    LengthAdds(xs, ys);
    LengthAdds(xs + ys, zs);
  }

  lemma LengthOfEntry(e: Entry)
    requires forall r :: r in e.content ==> |r.hash| == 32
    ensures |EncodeItems(EntryItems(e))| == RequiredLength(e) + OptionsLength(e) + 46 * |e.content|
  {
    LengthBeforeContent(e);
    LengthOfRefs(e.content);
    LengthAfterContent(e);
    LengthOfThree(ItemsBeforeContent(e), RefItems(e.content), ItemsAfterContent(e), EntryItems(e));
  }

  // What the fields read so far would take to write.
  function ReadLength(a: Acc): nat {
    (if a.path then 8 + |a.e.path| else 0) + (if a.etype then 7 else 0) + (if a.prot then 10 else 0)
    + (if a.date then 18 else 0) + OptionsLength(a.e) + 46 * |a.e.content|
  }

  ghost predicate FitsFields(e: Entry) {
    ValidEntry(e) && !TooLongEntry(e)
  }

  lemma Bounded(v: seq<byte>, width: nat)
    ensures DecodeUint(v, width).Some? ==> DecodeUint(v, width).value < Pow256(width)
  {
    GetBeBound(v);
  }

  lemma StringBounded(v: seq<byte>)
    ensures DecodeString(v).Some? ==> |DecodeString(v).value| == |v| - 2 && |DecodeString(v).value| < U16
  {
    if DecodeString(v).Some? {
      GetBeBound(v[..2]);
      Widths();
    }
  }

  lemma StampBounded(v: seq<byte>)
    ensures DecodeStamp(v).Some? ==> ValidStamp(DecodeStamp(v).value) && |v| == 12
  {
    if DecodeStamp(v).Some? {
      GetBeBound(v[..4]);
      GetBeBound(v[4..8]);
      GetBeBound(v[8..]);
      Widths();
    }
  }

  lemma PairBounded(v: seq<byte>)
    ensures DecodePair(v).Some? ==> DecodePair(v).value.0 < U16 && DecodePair(v).value.1 < U16 && |v| == 4
  {
    if DecodePair(v).Some? {
      GetBeBound(v[..2]);
      GetBeBound(v[2..]);
      Widths();
    }
  }

  lemma RefBounded(v: seq<byte>)
    ensures DecodeRef(v).Some? ==> ValidRef(DecodeRef(v).value) && |v| == 40
  {
    if DecodeRef(v).Some? {
      GetBeBound(v[32..]);
      Widths();
    }
  }

  lemma FieldsBounded(v: seq<byte>)
    ensures DecodeUint(v, 1).Some? ==> DecodeUint(v, 1).value < 256 && |v| == 1
    ensures DecodeUint(v, 4).Some? ==> DecodeUint(v, 4).value < U32 && |v| == 4
    ensures DecodeUint(v, 8).Some? ==> DecodeUint(v, 8).value < U64 && |v| == 8
  {
    Widths();
    Bounded(v, 1);
    Bounded(v, 4);
    Bounded(v, 8);
  }

  predicate IsText(tag: nat) {
    tag == TAG_PATH || tag == TAG_COMMENT || tag == TAG_LINK
  }

  predicate IsWord(tag: nat) {
    tag == TAG_PROT || tag == TAG_XHASH
  }

  // A field adds no more than its own length, and what it sets fits.
  ghost predicate Grows(a: Acc, x: Item, b: Acc) {
    FitsFields(b.e) && ReadLength(b) <= ReadLength(a) + 6 + |x.value|
  }

  lemma TextRead(a: Acc, x: Item, cap: nat)
    requires FitsFields(a.e) && EntryField(a, x, cap).Ok? && IsText(x.tag)
    ensures Grows(a, x, EntryField(a, x, cap).value)
  {
    if x.tag == TAG_PATH {
      PathRead(a, x, cap);
    } else if x.tag == TAG_COMMENT {
      CommentRead(a, x, cap);
    } else {
      LinkRead(a, x, cap);
    }
  }

  lemma PathRead(a: Acc, x: Item, cap: nat)
    requires FitsFields(a.e) && EntryField(a, x, cap).Ok? && x.tag == TAG_PATH
    ensures Grows(a, x, EntryField(a, x, cap).value)
  {
    StringBounded(x.value);
  }

  lemma CommentRead(a: Acc, x: Item, cap: nat)
    requires FitsFields(a.e) && EntryField(a, x, cap).Ok? && x.tag == TAG_COMMENT
    ensures Grows(a, x, EntryField(a, x, cap).value)
  {
    StringBounded(x.value);
  }

  lemma LinkRead(a: Acc, x: Item, cap: nat)
    requires FitsFields(a.e) && EntryField(a, x, cap).Ok? && x.tag == TAG_LINK
    ensures Grows(a, x, EntryField(a, x, cap).value)
  {
    StringBounded(x.value);
  }

  lemma WordRead(a: Acc, x: Item, cap: nat)
    requires FitsFields(a.e) && EntryField(a, x, cap).Ok? && IsWord(x.tag)
    ensures Grows(a, x, EntryField(a, x, cap).value)
  {
    Bounded(x.value, 4);
    Widths();
  }

  lemma TypeRead(a: Acc, x: Item, cap: nat)
    requires FitsFields(a.e) && EntryField(a, x, cap).Ok? && x.tag == TAG_TYPE
    ensures Grows(a, x, EntryField(a, x, cap).value)
  {
    Bounded(x.value, 1);
    Widths();
  }

  lemma SizeRead(a: Acc, x: Item, cap: nat)
    requires FitsFields(a.e) && EntryField(a, x, cap).Ok? && x.tag == TAG_SIZE
    ensures Grows(a, x, EntryField(a, x, cap).value)
  {
    Bounded(x.value, 8);
    Widths();
  }

  lemma RefRead(a: Acc, x: Item, cap: nat)
    requires FitsFields(a.e) && EntryField(a, x, cap).Ok? && x.tag == TAG_CONTENT
    ensures Grows(a, x, EntryField(a, x, cap).value)
  {
    RefBounded(x.value);
  }

  lemma OneFieldRead(a: Acc, x: Item, cap: nat)
    requires FitsFields(a.e) && EntryField(a, x, cap).Ok?
    ensures Grows(a, x, EntryField(a, x, cap).value)
  {
    if IsText(x.tag) {
      TextRead(a, x, cap);
    } else if IsWord(x.tag) {
      WordRead(a, x, cap);
    } else if x.tag == TAG_TYPE {
      TypeRead(a, x, cap);
    } else if x.tag == TAG_SIZE {
      SizeRead(a, x, cap);
    } else if x.tag == TAG_CONTENT {
      RefRead(a, x, cap);
    } else {
      StampBounded(x.value);
      PairBounded(x.value);
    }
  }

  lemma {:induction false} FieldsRead(a: Acc, xs: seq<Item>, cap: nat)
    requires FitsFields(a.e) && EntryFields(a, xs, cap).Ok?
    ensures var b := EntryFields(a, xs, cap).value;
      FitsFields(b.e) && ReadLength(b) <= ReadLength(a) + ItemsSize(xs)
    decreases |xs|
  {
    if xs != [] {
      OneFieldRead(a, xs[0], cap);
      FieldsRead(EntryField(a, xs[0], cap).value, xs[1..], cap);
    }
  }

  // A decoded entry can be written again, in no more bytes.
  lemma DecodedEntryIsValid(value: seq<byte>, cap: nat)
    requires DecodeEntry(value, cap).Ok?
    ensures var e := DecodeEntry(value, cap).value;
      FitsFields(e) && CompleteEntry(e) && |EncodeItems(EntryItems(e))| <= |value|
  {
    var xs := Items(value, 0).0;
    var a := EntryFields(START, xs, cap).value;
    ItemsFit(value, 0);
    FieldsRead(START, xs, cap);
    LengthOfEntry(a.e);
  }

  lemma FewRefsFit(e: Entry)
    requires FitsFields(e) && CompleteEntry(e) && |e.content| <= 16384
    ensures ValidEvent(OnEntry(e))
  {
    LengthOfEntry(e);
  }

  // Nothing e says is longer than what p says.
  predicate NoMoreThan(e: Entry, p: Entry) {
    && e.path == p.path && e.comment == p.comment && e.owner == p.owner && e.content == p.content
    && (e.size.Some? ==> p.size.Some?) && e.link.None? && (e.xhash.Some? ==> p.xhash.Some?)
  }

  lemma NoLongerFits(p: Entry, e: Entry)
    requires ValidEvent(OnEntry(p)) && FitsFields(e) && CompleteEntry(e) && NoMoreThan(e, p)
    ensures ValidEvent(OnEntry(e))
  {
    LengthOfEntry(p);
    LengthOfEntry(e);
  }

  // ---- Snaps and volumes ---------------------------------------------------------------------

  function TextLength(s: Option<seq<byte>>): nat {
    if s.Some? then 8 + |s.value| else 0
  }

  lemma LengthOfSnap(s: Snap)
    ensures |EncodeItems(SnapItems(s))| == 18 + TextLength(s.hostname) + TextLength(s.toolver) + TextLength(s.comment)
  {
    var created, host := Item(TAG_CREATED, StampValue(s.created)), StringItem(TAG_HOSTNAME, s.hostname);
    var tool, comment := StringItem(TAG_TOOLVER, s.toolver), StringItem(TAG_SNAP_COMMENT, s.comment);
    LengthOfOne(created);
    LengthOfOptional(host);
    LengthOfOptional(tool);
    LengthOfOptional(comment);
    LengthAdds([created], Optional(host));
    LengthAdds([created] + Optional(host), Optional(tool));
    LengthAdds([created] + Optional(host) + Optional(tool), Optional(comment));
  }

  lemma LengthOfVolume(v: Volume)
    ensures |EncodeItems(VolumeItems(v))| ==
            8 + |v.root| + TextLength(v.name) + (if v.dostype.Some? then 10 else 0)
            + (if v.created.Some? then 18 else 0) + if v.caps.Some? then 10 else 0
  {
    var root, name := Item(TAG_VOL_ROOT, StringValue(v.root)), StringItem(TAG_VOL_NAME, v.name);
    var dostype, created := UintItem(TAG_VOL_DOSTYPE, 4, v.dostype), StampItem(TAG_VOL_CREATED, v.created);
    var caps := PairItem(TAG_VOL_CAPS, v.caps);
    LengthOfOne(root);
    LengthOfOptional(name);
    LengthOfOptional(dostype);
    LengthOfOptional(created);
    LengthOfOptional(caps);
    LengthAdds([root], Optional(name));
    LengthAdds([root] + Optional(name), Optional(dostype));
    LengthAdds([root] + Optional(name) + Optional(dostype), Optional(created));
    LengthAdds([root] + Optional(name) + Optional(dostype) + Optional(created), Optional(caps));
  }

  // A snap or volume record that fits its fields fits the record length.
  lemma HeadFitsRecords(s: Snap, v: Volume)
    ensures ValidStamp(s.created) && !TooLongSnap(s) ==> ValidEvent(OnSnap(s))
    ensures ValidVolume(v) && !TooLongVolume(v) ==> ValidEvent(OnVolume(v))
  {
    LengthOfSnap(s);
    LengthOfVolume(v);
  }

  lemma {:induction false} SnapFieldsFit(a: (Snap, bool), xs: seq<Item>)
    requires ValidStamp(a.0.created) && !TooLongSnap(a.0) && SnapFields(a, xs).Ok?
    ensures var s := SnapFields(a, xs).value.0; ValidStamp(s.created) && !TooLongSnap(s)
    decreases |xs|
  {
    if xs != [] {
      StringBounded(xs[0].value);
      StampBounded(xs[0].value);
      SnapFieldsFit(SnapField(a, xs[0]).value, xs[1..]);
    }
  }

  lemma {:induction false} VolumeFieldsFit(a: (Volume, bool), xs: seq<Item>)
    requires ValidVolume(a.0) && !TooLongVolume(a.0) && VolumeFields(a, xs).Ok?
    ensures var v := VolumeFields(a, xs).value.0; ValidVolume(v) && !TooLongVolume(v)
    decreases |xs|
  {
    if xs != [] {
      StringBounded(xs[0].value);
      StampBounded(xs[0].value);
      PairBounded(xs[0].value);
      FieldsBounded(xs[0].value);
      VolumeFieldsFit(VolumeField(a, xs[0]).value, xs[1..]);
    }
  }

  // ---- Manifests ------------------------------------------------------------------------------

  lemma ItemFits(b: seq<byte>, pos: nat)
    requires pos <= |b| && ReadItem(b, pos).Got?
    ensures |ReadItem(b, pos).item.value| < U32
  {
    GetBeBound(b[pos + 2..pos + 6]);
    Widths();
  }

  lemma StepIsValid(p: Progress, x: Item, data: seq<byte>, at: nat, hash: Hash)
    requires at <= |data| && ValidEvents(p.events) && |x.value| < U32 && RecordStep(p, x, data, at, hash).Ok?
    ensures ValidEvents(RecordStep(p, x, data, at, hash).value.events)
  {
    if x.tag == REC_SNAP {
      SnapFieldsFit(SNAP_START, Items(x.value, 0).0);
      HeadFitsRecords(DecodeSnap(x.value).value, Volume([], None, None, None, None));
    } else if x.tag == REC_VOLUME {
      VolumeFieldsFit(VOLUME_START, Items(x.value, 0).0);
      HeadFitsRecords(Snap(Stamp(0, 0, 0), None, None, None), DecodeVolume(x.value).value);
    } else if x.tag == REC_ENTRY {
      DecodedEntryIsValid(x.value, Scratch(p.scratch, x.value));
    }
  }

  lemma {:induction false} DecodedFromIsValid(data: seq<byte>, pos: nat, p: Progress, hash: Hash)
    requires pos <= |data| && ValidEvents(p.events)
    ensures ValidEvents(DecodeFrom(data, pos, p, hash).events)
    decreases |data| - pos
  {
    match ReadItem(data, pos)
    case Got(x, next) =>
      ItemFits(data, pos);
      var step := RecordStep(p, x, data, pos, hash);
      if step.Ok? {
        StepIsValid(p, x, data, pos, hash);
        DecodedFromIsValid(data, next, step.value, hash);
      }
    case _ =>
  }

  // Everything a decoder reports can be written; of an accepted manifest, so that it decodes
  // to the same again.
  lemma DecodedIsValid(data: seq<byte>, hash: Hash)
    ensures ValidEvents(DecodeManifest(data, hash).events)
    ensures DecodeManifest(data, hash).error.None? && GoodHash(hash) ==>
              DecodeManifest(ManifestBytes(DecodeManifest(data, hash).events, hash), hash) == DecodeManifest(data, hash)
  {
    if ReadHeader(data, FTYPE_MANIFEST).Ok? {
      DecodedFromIsValid(data, 8, BEGIN, hash);
    }
    if DecodeManifest(data, hash).error.None? && GoodHash(hash) {
      AcceptedIsSealed(data, hash);
      ManifestRoundTrip(DecodeManifest(data, hash).events, hash);
    }
  }
}
