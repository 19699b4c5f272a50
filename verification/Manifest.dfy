// The manifest: records in order, closed by a count and a hash of everything before.

module Manifest {
  import opened Bytes
  import opened Meta
  import opened Records
  import opened Tlv

  const REC_SNAP: nat := 0x8002
  const REC_VOLUME: nat := 0x8003
  const REC_ENTRY: nat := 0x8004
  const REC_END: nat := 0x8005
  const TAG_END_COUNT: nat := 0x8050
  const TAG_END_HASH: nat := 0x8051

  const FTYPE_MANIFEST: nat := 2
  const FORMAT_VERSION: nat := 1

  // The hash of a byte string, 32 bytes long.
  type Hash = seq<byte> -> seq<byte>

  ghost predicate GoodHash(hash: Hash) {
    forall b :: |hash(b)| == 32
  }

  // What the writer is told and the visitor is called with.
  datatype Event =
    | OnSnap(snap: Snap)
    | OnVolume(vol: Volume)
    | OnEntry(entry: Entry)

  function EventBody(e: Event): seq<byte> {
    match e
    case OnSnap(s) => EncodeItems(SnapItems(s))
    case OnVolume(v) => EncodeItems(VolumeItems(v))
    case OnEntry(n) => EncodeItems(EntryItems(n))
  }

  function RecordOf(e: Event): Item {
    Item(if e.OnSnap? then REC_SNAP else if e.OnVolume? then REC_VOLUME else REC_ENTRY, EventBody(e))
  }

  function RecordsOf(es: seq<Event>): seq<Item> {
    seq(|es|, i requires 0 <= i < |es| => RecordOf(es[i]))
  }

  function EntryCount(es: seq<Event>): nat {
    if es == [] then 0 else EntryCount(es[..|es| - 1]) + if es[|es| - 1].OnEntry? then 1 else 0
  }

  // Metadata a C struct can hold, strings within u16 and records within u32.
  predicate ValidEvent(e: Event) {
    |EventBody(e)| < U32 &&
    match e
    case OnSnap(s) => ValidStamp(s.created) && !TooLongSnap(s)
    case OnVolume(v) => ValidVolume(v) && !TooLongVolume(v)
    case OnEntry(n) => ValidEntry(n) && !TooLongEntry(n) && CompleteEntry(n)
  }

  predicate ValidEvents(es: seq<Event>) {
    forall e :: e in es ==> ValidEvent(e)
  }

  // One snap record, first.
  predicate Ordered(es: seq<Event>) {
    es != [] && es[0].OnSnap? && forall i :: 1 <= i < |es| ==> !es[i].OnSnap?
  }

  // ---- Header -----------------------------------------------------------------------

  // amisnap_write_header
  function Header(ftype: nat, flags: nat): (r: seq<byte>)
    requires ftype < 256
    ensures |r| == 8
  {
    [65, 83, 78, 80, ftype, FORMAT_VERSION] + Be(2, flags)
  }

  // amisnap_read_header: the flag word.
  function ReadHeader(data: seq<byte>, ftype: nat): Result<nat> {
    if |data| < 8 then Err(Truncated)
    else if data[..4] != [65, 83, 78, 80] || data[4] != ftype || data[5] != FORMAT_VERSION then Err(Malformed)
    else Ok(GetBe(data[6..8]))
  }

  lemma HeaderRoundTrip(ftype: nat, flags: nat, body: seq<byte>)
    requires ftype < 256 && flags < U16
    ensures ReadHeader(Header(ftype, flags) + body, ftype) == Ok(flags)
  {
    var d := Header(ftype, flags) + body;
    Widths();
    GetPutBe(2, flags);
    assert d[..4] == [65, 83, 78, 80] && d[6..8] == Be(2, flags);
  }

  // ---- Writer -------------------------------------------------------------------------

  function EndItems(count: nat, h: seq<byte>): seq<Item> {
    [Item(TAG_END_COUNT, Be(4, count)), Item(TAG_END_HASH, h)]
  }

  function EndRecord(count: nat, h: seq<byte>): Item {
    Item(REC_END, EncodeItems(EndItems(count, h)))
  }

  // Everything before the end record.
  function Unclosed(es: seq<Event>): seq<byte> {
    Header(FTYPE_MANIFEST, 0) + EncodeItems(RecordsOf(es))
  }

  // A finished manifest.
  function ManifestBytes(es: seq<Event>, hash: Hash): seq<byte> {
    Unclosed(es) + EncodeItem(EndRecord(EntryCount(es), hash(Unclosed(es))))
  }

  lemma OneMore(es: seq<Event>, e: Event)
    requires (e.OnSnap? <==> es == []) && (es != [] ==> Ordered(es))
    ensures EncodeItems(RecordsOf(es + [e])) == EncodeItems(RecordsOf(es)) + EncodeItem(RecordOf(e))
    ensures EntryCount(es + [e]) == EntryCount(es) + if e.OnEntry? then 1 else 0
    ensures Ordered(es + [e])
  {
    RecordsSnoc(es, e);
    EncodeItemsSnoc(RecordsOf(es), RecordOf(e));
    assert (es + [e])[..|es|] == es;
  }

  lemma RecordsSnoc(es: seq<Event>, e: Event)
    ensures RecordsOf(es + [e]) == RecordsOf(es) + [RecordOf(e)]
  {
  }

  class ManifestWriter {
    var body: seq<byte>
    var entryCount: nat
    var haveSnap: bool
    var error: Option<Error>
    ghost var events: seq<Event>  // what was accepted so far

    ghost predicate Valid()
      reads this
    {
      && body == EncodeItems(RecordsOf(events))
      && entryCount == EntryCount(events)
      && (haveSnap <==> events != [])
      && (haveSnap ==> Ordered(events))
    }

    constructor ()
      ensures Valid() && events == [] && error.None?
    {
      body, entryCount, haveSnap, error, events := [], 0, false, None, [];
    }

    // One record goes onto the body, and the counters with it.
    method Append(e: Event, rec: Item)
      requires Valid() && (e.OnSnap? <==> !haveSnap) && rec == RecordOf(e)
      modifies `body, `haveSnap, `entryCount, `events
      ensures Valid() && events == old(events) + [e]
    {
      OneMore(events, e);
      assert body + EncodeItem(rec) == EncodeItems(RecordsOf(events + [e]));
      events := events + [e];
      body := body + EncodeItem(rec);
      haveSnap := true;
      if e.OnEntry? {
        entryCount := entryCount + 1;
      }
    }

    // The error is sticky: once set nothing is accepted any more.
    method AddSnap(s: Snap) returns (r: Option<Error>)
      requires Valid()
      modifies this
      ensures Valid() && r == error
      ensures r.None? <==> old(error).None? && !old(haveSnap) && !TooLongSnap(s)
      ensures events == if r.None? then old(events) + [OnSnap(s)] else old(events)
      ensures error == if old(error).Some? then old(error) else if old(haveSnap) then Some(Malformed)
                       else if TooLongSnap(s) then Some(TooLong) else None
    {
      if error.Some? {
        return error;
      }
      if haveSnap {
        error := Some(Malformed);
        return error;
      }
      var rec := EncodeSnap(s);
      if rec.Err? {
        error := Some(rec.error);
        return error;
      }
      Append(OnSnap(s), Item(REC_SNAP, rec.value));
      return None;
    }

    method AddVolume(v: Volume) returns (r: Option<Error>)
      requires Valid()
      modifies this
      ensures Valid() && r == error
      ensures r.None? <==> old(error).None? && old(haveSnap) && !TooLongVolume(v)
      ensures events == if r.None? then old(events) + [OnVolume(v)] else old(events)
      ensures error == if old(error).Some? then old(error) else if !old(haveSnap) then Some(MissingField)
                       else if TooLongVolume(v) then Some(TooLong) else None
    {
      if error.Some? {
        return error;
      }
      if !haveSnap {
        error := Some(MissingField);
        return error;
      }
      var rec := EncodeVolume(v);
      if rec.Err? {
        error := Some(rec.error);
        return error;
      }
      Append(OnVolume(v), Item(REC_VOLUME, rec.value));
      return None;
    }

    method AddEntry(n: Entry) returns (r: Option<Error>)
      requires Valid()
      modifies this
      ensures Valid() && r == error
      ensures r.None? <==> old(error).None? && old(haveSnap) && !TooLongEntry(n)
      ensures events == if r.None? then old(events) + [OnEntry(n)] else old(events)
      ensures error == if old(error).Some? then old(error) else if !old(haveSnap) then Some(MissingField)
                       else if TooLongEntry(n) then Some(TooLong) else None
    {
      if error.Some? {
        return error;
      }
      if !haveSnap {
        error := Some(MissingField);
        return error;
      }
      var rec := EncodeEntry(n);
      if rec.Err? {
        error := Some(rec.error);
        return error;
      }
      Append(OnEntry(n), Item(REC_ENTRY, rec.value));
      return None;
    }

    method Finish(hash: Hash) returns (r: Result<seq<byte>>)
      requires Valid()
      ensures r == if error.Some? then Err(error.value)
                   else if !haveSnap then Err(MissingField)
                   else Ok(ManifestBytes(events, hash))
    {
      if error.Some? {
        return Err(error.value);
      }
      if !haveSnap {
        return Err(MissingField);
      }
      var out := Header(FTYPE_MANIFEST, 0) + body;
      var h := hash(out);
      ghost var items;
      var end: seq<byte>;
      end, items := AddItem([], [], Item(TAG_END_COUNT, Be(4, entryCount)));
      end, items := AddItem(end, items, Item(TAG_END_HASH, h));
      assert items == EndItems(entryCount, h);
      return Ok(out + EncodeItem(Item(REC_END, end)));
    }
  }

  // ---- Reader ---------------------------------------------------------------------------

  // decode_end: the last count and the last hash.
  function EndField(a: (Option<nat>, Option<seq<byte>>), x: Item): Result<(Option<nat>, Option<seq<byte>>)> {
    if x.tag == TAG_END_COUNT then
      match DecodeUint(x.value, 4)
      case None => Err(Malformed)
      case Some(n) => Ok((Some(n), a.1))
    else if x.tag == TAG_END_HASH then
      if |x.value| != 32 then Err(Malformed) else Ok((a.0, Some(x.value)))
    else if Critical(x.tag) then Err(Error.CriticalTag)
    else Ok(a)
  }

  function EndFields(a: (Option<nat>, Option<seq<byte>>), xs: seq<Item>): Result<(Option<nat>, Option<seq<byte>>)>
    decreases |xs|
  {
    if xs == [] then Ok(a)
    else match EndField(a, xs[0])
      case Err(err) => Err(err)
      case Ok(b) => EndFields(b, xs[1..])
  }

  function DecodeEnd(value: seq<byte>): Result<(nat, seq<byte>)> {
    var (xs, ok) := Items(value, 0);
    match EndFields((None, None), xs)
    case Err(err) => Err(err)
    case Ok(a) =>
      if !ok then Err(Truncated)
      else if a.0.None? || a.1.None? then Err(MissingField)
      else Ok((a.0.value, a.1.value))
  }

  // The visitor's calls so far and the loop variables of amisnap_manifest_decode.
  datatype Progress = Progress(events: seq<Event>, seenSnap: bool, seenEnd: bool, entries: nat, scratch: nat)

  const BEGIN: Progress := Progress([], false, false, 0, 0)

  // The references array grows to what the record could hold, and never shrinks.
  function Scratch(cap: nat, value: seq<byte>): (r: nat)
    ensures r >= |value| / 46 + 1
  {
    if |value| / 46 + 1 > cap then |value| / 46 + 1 else cap
  }

  // One record, which starts at `at`.
  function RecordStep(p: Progress, x: Item, data: seq<byte>, at: nat, hash: Hash): Result<Progress>
    requires at <= |data|
  {
    if !p.seenSnap && x.tag != REC_SNAP then Err(MissingField)
    else if p.seenEnd then Err(Malformed)
    else if x.tag == REC_SNAP then
      if p.seenSnap then Err(Malformed)
      else match DecodeSnap(x.value)
        case Err(err) => Err(err)
        case Ok(s) => Ok(p.(events := p.events + [OnSnap(s)], seenSnap := true))
    else if x.tag == REC_VOLUME then
      match DecodeVolume(x.value)
      case Err(err) => Err(err)
      case Ok(v) => Ok(p.(events := p.events + [OnVolume(v)]))
    else if x.tag == REC_ENTRY then
      match DecodeEntry(x.value, Scratch(p.scratch, x.value))
      case Err(err) => Err(err)
      case Ok(n) => Ok(p.(events := p.events + [OnEntry(n)], entries := p.entries + 1,
                          scratch := Scratch(p.scratch, x.value)))
    else if x.tag == REC_END then
      match DecodeEnd(x.value)
      case Err(err) => Err(err)
      case Ok((count, h)) =>
        if count != p.entries % U32 then Err(Malformed)
        else if hash(data[..at]) != h then Err(HashMismatch)
        else Ok(p.(seenEnd := true))
    else if Critical(x.tag) then Err(Error.CriticalTag)
    else Ok(p)
  }

  // The visitor's calls, and how decoding ended.
  datatype Decoded = Decoded(events: seq<Event>, error: Option<Error>)

  function DecodeFrom(data: seq<byte>, pos: nat, p: Progress, hash: Hash): Decoded
    requires pos <= |data|
    decreases |data| - pos
  {
    match ReadItem(data, pos)
    case AtEnd => Decoded(p.events, if p.seenSnap && p.seenEnd then None else Some(MissingField))
    case Cut => Decoded(p.events, Some(Truncated))
    case Got(x, next) =>
      match RecordStep(p, x, data, pos, hash)
      case Err(err) => Decoded(p.events, Some(err))
      case Ok(q) => DecodeFrom(data, next, q, hash)
  }

  // amisnap_manifest_decode for a visitor that never stops it.
  function DecodeManifest(data: seq<byte>, hash: Hash): Decoded {
    match ReadHeader(data, FTYPE_MANIFEST)
    case Err(err) => Decoded([], Some(err))
    case Ok(_) => DecodeFrom(data, 8, BEGIN, hash)
  }

  // The record loop.
  method DecodeManifestLoop(data: seq<byte>, hash: Hash) returns (r: Decoded)
    ensures r == DecodeManifest(data, hash)
  {
    if ReadHeader(data, FTYPE_MANIFEST).Err? {
      return Decoded([], Some(ReadHeader(data, FTYPE_MANIFEST).error));
    }
    var p, pos := BEGIN, 8;
    while true
      invariant pos <= |data| && DecodeManifest(data, hash) == DecodeFrom(data, pos, p, hash)
      decreases |data| - pos
    {
      match ReadItem(data, pos) {
        case AtEnd => return Decoded(p.events, if p.seenSnap && p.seenEnd then None else Some(MissingField));
        case Cut => return Decoded(p.events, Some(Truncated));
        case Got(x, next) =>
          var q := DecodeRecord(p, x, data, pos, hash);
          if q.Err? {
            return Decoded(p.events, Some(q.error));
          }
          p, pos := q.value, next;
      }
    }
  }

  // The switch on the record's tag.
  method DecodeRecord(p: Progress, x: Item, data: seq<byte>, at: nat, hash: Hash) returns (r: Result<Progress>)
    requires at <= |data|
    ensures r == RecordStep(p, x, data, at, hash)
  {
    if !p.seenSnap && x.tag != REC_SNAP {
      return Err(MissingField);
    }
    if p.seenEnd {
      return Err(Malformed);
    }
    if x.tag == REC_SNAP {
      if p.seenSnap {
        return Err(Malformed);
      }
      var s := DecodeSnapLoop(x.value);
      return if s.Ok? then Ok(p.(events := p.events + [OnSnap(s.value)], seenSnap := true)) else Err(s.error);
    }
    if x.tag == REC_VOLUME {
      var v := DecodeVolumeLoop(x.value);
      return if v.Ok? then Ok(p.(events := p.events + [OnVolume(v.value)])) else Err(v.error);
    }
    if x.tag == REC_ENTRY {
      var need := |x.value| / 46 + 1;
      var scratch := if need > p.scratch then need else p.scratch;
      var n := DecodeEntryLoop(x.value, scratch);
      return if n.Err? then Err(n.error)
             else Ok(p.(events := p.events + [OnEntry(n.value)], entries := p.entries + 1, scratch := scratch));
    }
    if x.tag == REC_END {
      match DecodeEnd(x.value) {
        case Err(err) => return Err(err);
        case Ok((count, h)) =>
          if count != p.entries % U32 {
            return Err(Malformed);
          }
          if hash(data[..at]) != h {
            return Err(HashMismatch);
          }
          return Ok(p.(seenEnd := true));
      }
    }
    return if Critical(x.tag) then Err(Error.CriticalTag) else Ok(p);
  }
}
