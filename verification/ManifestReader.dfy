// The second, independent manifest reader (in Python), and its agreement with the first.

module ManifestReader {
  import opened Bytes
  import opened Manifest
  import opened ManifestProofs
  import opened Meta
  import opened Records
  import opened Tlv

  // What the reader's dictionaries hold: a key that is absent is None.
  datatype SnapDict = SnapDict(
    created: Option<Stamp>,
    hostname: Option<seq<byte>>,
    toolver: Option<seq<byte>>,
    comment: Option<seq<byte>>)

  datatype VolumeDict = VolumeDict(
    root: Option<seq<byte>>,
    name: Option<seq<byte>>,
    dostype: Option<nat>,
    created: Option<Stamp>,
    maxNameLen: Option<nat>,
    ownerSupported: Option<bool>,
    filenoteSupported: Option<bool>)

  datatype EntryDict = EntryDict(
    content: seq<Ref>,
    path: Option<seq<byte>>,
    etype: Option<nat>,
    prot: Option<nat>,
    date: Option<Stamp>,
    comment: Option<seq<byte>>,
    owner: Option<(nat, nat)>,
    size: Option<nat>,
    link: Option<seq<byte>>,
    xhash: Option<nat>)

  const SNAP_TAGS := {TAG_CREATED, TAG_HOSTNAME, TAG_TOOLVER, TAG_SNAP_COMMENT}
  const VOLUME_TAGS := {TAG_VOL_ROOT, TAG_VOL_NAME, TAG_VOL_DOSTYPE, TAG_VOL_CREATED, TAG_VOL_CAPS}
  const ENTRY_TAGS := {TAG_PATH, TAG_TYPE, TAG_PROT, TAG_DATE, TAG_COMMENT, TAG_OWNER, TAG_SIZE, TAG_CONTENT,
                       TAG_LINK, TAG_XHASH}

  // require_no_unknown_critical
  predicate Understood(xs: seq<Item>, known: set<nat>) {
    forall i :: 0 <= i < |xs| && Critical(xs[i].tag) ==> xs[i].tag in known
  }

  // A field present must decode; the dictionary is left alone by tags it does not know.
  function SnapKey(d: SnapDict, x: Item): Option<SnapDict> {
    if x.tag == TAG_CREATED then
      var v := DecodeStamp(x.value);
      if v.None? then None else Some(d.(created := v))
    else if x.tag == TAG_HOSTNAME then
      var v := DecodeString(x.value);
      if v.None? then None else Some(d.(hostname := v))
    else if x.tag == TAG_TOOLVER then
      var v := DecodeString(x.value);
      if v.None? then None else Some(d.(toolver := v))
    else if x.tag == TAG_SNAP_COMMENT then
      var v := DecodeString(x.value);
      if v.None? then None else Some(d.(comment := v))
    else Some(d)
  }

  function SnapKeys(d: SnapDict, xs: seq<Item>): Option<SnapDict>
    decreases |xs|
  {
    if xs == [] then Some(d)
    else match SnapKey(d, xs[0])
      case None => None
      case Some(d') => SnapKeys(d', xs[1..])
  }

  function ReadSnap(value: seq<byte>): Option<SnapDict> {
    var (xs, ok) := Items(value, 0);
    if !ok || !Understood(xs, SNAP_TAGS) then None
    else match SnapKeys(SnapDict(None, None, None, None), xs)
      case None => None
      case Some(d) => if d.created.None? then None else Some(d)
  }

  function VolumeKey(d: VolumeDict, x: Item): Option<VolumeDict> {
    if x.tag == TAG_VOL_ROOT then
      var v := DecodeString(x.value);
      if v.None? then None else Some(d.(root := v))
    else if x.tag == TAG_VOL_NAME then
      var v := DecodeString(x.value);
      if v.None? then None else Some(d.(name := v))
    else if x.tag == TAG_VOL_DOSTYPE then
      var v := DecodeUint(x.value, 4);
      if v.None? then None else Some(d.(dostype := v))
    else if x.tag == TAG_VOL_CREATED then
      var v := DecodeStamp(x.value);
      if v.None? then None else Some(d.(created := v))
    else if x.tag == TAG_VOL_CAPS then
      match DecodePair(x.value)
      case None => None
      case Some((n, caps)) =>
        Some(d.(maxNameLen := Some(n), ownerSupported := Some(caps % 2 == 1),
                filenoteSupported := Some(caps / 2 % 2 == 1)))
    else Some(d)
  }

  function VolumeKeys(d: VolumeDict, xs: seq<Item>): Option<VolumeDict>
    decreases |xs|
  {
    if xs == [] then Some(d)
    else match VolumeKey(d, xs[0])
      case None => None
      case Some(d') => VolumeKeys(d', xs[1..])
  }

  const NO_VOLUME: VolumeDict := VolumeDict(None, None, None, None, None, None, None)

  function ReadVolume(value: seq<byte>): Option<VolumeDict> {
    var (xs, ok) := Items(value, 0);
    if !ok || !Understood(xs, VOLUME_TAGS) then None
    else match VolumeKeys(NO_VOLUME, xs)
      case None => None
      case Some(d) => if d.root.None? then None else Some(d)
  }

  function EntryKey(d: EntryDict, x: Item): Option<EntryDict> {
    if x.tag == TAG_PATH then
      var v := DecodeString(x.value);
      if v.None? then None else Some(d.(path := v))
    else if x.tag == TAG_TYPE then
      var v := DecodeUint(x.value, 1);
      if v.None? then None else Some(d.(etype := v))
    else if x.tag == TAG_PROT then
      var v := DecodeUint(x.value, 4);
      if v.None? then None else Some(d.(prot := v))
    else if x.tag == TAG_DATE then
      var v := DecodeStamp(x.value);
      if v.None? then None else Some(d.(date := v))
    else if x.tag == TAG_COMMENT then
      var v := DecodeString(x.value);
      if v.None? then None else Some(d.(comment := v))
    else if x.tag == TAG_OWNER then
      var v := DecodePair(x.value);
      if v.None? then None else Some(d.(owner := v))
    else if x.tag == TAG_SIZE then
      var v := DecodeUint(x.value, 8);
      if v.None? then None else Some(d.(size := v))
    else if x.tag == TAG_CONTENT then
      match DecodeRef(x.value)
      case None => None
      case Some(r) => Some(d.(content := d.content + [r]))
    else if x.tag == TAG_LINK then
      var v := DecodeString(x.value);
      if v.None? then None else Some(d.(link := v))
    else if x.tag == TAG_XHASH then
      var v := DecodeUint(x.value, 4);
      if v.None? then None else Some(d.(xhash := v))
    else Some(d)
  }

  function EntryKeys(d: EntryDict, xs: seq<Item>): Option<EntryDict>
    decreases |xs|
  {
    if xs == [] then Some(d)
    else match EntryKey(d, xs[0])
      case None => None
      case Some(d') => EntryKeys(d', xs[1..])
  }

  const NO_ENTRY: EntryDict := EntryDict([], None, None, None, None, None, None, None, None, None)

  function ReadEntry(value: seq<byte>): Option<EntryDict> {
    var (xs, ok) := Items(value, 0);
    if !ok || !Understood(xs, ENTRY_TAGS) then None
    else match EntryKeys(NO_ENTRY, xs)
      case None => None
      case Some(d) =>
        if d.path.None? || d.etype.None? || d.prot.None? || d.date.None? then None else Some(d)
  }

  // ---- parse_manifest -------------------------------------------------------------------

  // `groups` pairs each volume with the entries under it.
  datatype Parse = Parse(snap: Option<SnapDict>, groups: seq<(VolumeDict, seq<EntryDict>)>, count: nat, ended: bool)

  const NOTHING: Parse := Parse(None, [], 0, false)

  function AddToLast(groups: seq<(VolumeDict, seq<EntryDict>)>, d: EntryDict): seq<(VolumeDict, seq<EntryDict>)> {
    if groups == [] then []
    else groups[|groups| - 1 := (groups[|groups| - 1].0, groups[|groups| - 1].1 + [d])]
  }

  function ParseRecord(m: Parse, x: Item, data: seq<byte>, at: nat, hash: Hash): Option<Parse>
    requires at <= |data|
  {
    if m.ended then None
    else if x.tag == REC_SNAP then
      if m.snap.Some? then None
      else match ReadSnap(x.value)
        case None => None
        case Some(d) => Some(m.(snap := Some(d)))
    else if x.tag == REC_VOLUME then
      if m.snap.None? then None
      else match ReadVolume(x.value)
        case None => None
        case Some(d) => Some(m.(groups := m.groups + [(d, [])]))
    else if x.tag == REC_ENTRY then
      if m.snap.None? || m.groups == [] then None
      else match ReadEntry(x.value)
        case None => None
        case Some(d) => Some(m.(groups := AddToLast(m.groups, d), count := m.count + 1))
    else if x.tag == REC_END then
      match DecodeEnd(x.value)
      case Err(_) => None
      case Ok((count, h)) =>
        if count != m.count || hash(data[..at]) != h then None else Some(m.(ended := true))
    else if Critical(x.tag) then None
    else Some(m)
  }

  function ParseFrom(data: seq<byte>, pos: nat, m: Parse, hash: Hash): Option<Parse>
    requires pos <= |data|
    decreases |data| - pos
  {
    match ReadItem(data, pos)
    case AtEnd => if m.snap.Some? && m.ended then Some(m) else None
    case Cut => None
    case Got(x, next) =>
      match ParseRecord(m, x, data, pos, hash)
      case None => None
      case Some(m') => ParseFrom(data, next, m', hash)
  }

  // The parsed manifest, or None for FormatError.
  function ParseManifest(data: seq<byte>, hash: Hash): Option<Parse> {
    match ReadHeader(data, FTYPE_MANIFEST)
    case Err(_) => None
    case Ok(flags) => if flags != 0 then None else ParseFrom(data, 8, NOTHING, hash)
  }

  // The loop over the records.
  method ParseManifestLoop(data: seq<byte>, hash: Hash) returns (r: Option<Parse>)
    ensures r == ParseManifest(data, hash)
  {
    var header := ReadHeader(data, FTYPE_MANIFEST);
    if header.Err? || header.value != 0 {
      return None;
    }
    var m, off := NOTHING, 8;
    while off < |data|
      invariant off <= |data| && ParseManifest(data, hash) == ParseFrom(data, off, m, hash)
    {
      var x := ReadItem(data, off);
      if !x.Got? {
        return None;
      }
      var step := ParseRecord(m, x.item, data, off, hash);
      if step.None? {
        return None;
      }
      m, off := step.value, x.next;
    }
    return if m.snap.Some? && m.ended then Some(m) else None;
  }

  // ---- Agreement --------------------------------------------------------------------------

  // The dictionaries for what the C reader reports.
  function SnapAsDict(s: Snap): SnapDict {
    SnapDict(Some(s.created), s.hostname, s.toolver, s.comment)
  }

  function VolumeAsDict(v: Volume): VolumeDict {
    VolumeDict(Some(v.root), v.name, v.dostype, v.created,
               if v.caps.None? then None else Some(v.caps.value.0),
               if v.caps.None? then None else Some(v.caps.value.1 % 2 == 1),
               if v.caps.None? then None else Some(v.caps.value.1 / 2 % 2 == 1))
  }

  function EntryAsDict(n: Entry): EntryDict {
    EntryDict(n.content, Some(n.path), Some(n.etype), Some(n.prot), Some(n.date), n.comment, n.owner, n.size,
              n.link, n.xhash)
  }

  // The C reader's calls, gathered the way the Python reader gathers its records.
  function Gathered(es: seq<Event>): Parse {
    if es == [] then NOTHING
    else
      var m := Gathered(es[..|es| - 1]);
      match es[|es| - 1]
      case OnSnap(s) => m.(snap := Some(SnapAsDict(s)))
      case OnVolume(v) => m.(groups := m.groups + [(VolumeAsDict(v), [])])
      case OnEntry(n) => m.(groups := AddToLast(m.groups, EntryAsDict(n)), count := m.count + 1)
  }

  // Every entry has a volume somewhere before it.
  predicate VolumesFirst(es: seq<Event>) {
    forall i :: 0 <= i < |es| && es[i].OnEntry? ==> exists j :: 0 <= j < i && es[j].OnVolume?
  }

  // Snap record --------------------------------------------------------------------

  function PartSnap(a: (Snap, bool)): SnapDict {
    SnapDict(if a.1 then Some(a.0.created) else None, a.0.hostname, a.0.toolver, a.0.comment)
  }

  lemma {:induction false} SnapKeysAgree(a: (Snap, bool), xs: seq<Item>)
    requires SnapFields(a, xs).Ok?
    ensures SnapKeys(PartSnap(a), xs) == Some(PartSnap(SnapFields(a, xs).value))
    ensures Understood(xs, SNAP_TAGS)
    decreases |xs|
  {
    if xs != [] {
      SnapKeysAgree(SnapField(a, xs[0]).value, xs[1..]);
    }
  }

  lemma SnapsAgree(value: seq<byte>)
    requires DecodeSnap(value).Ok?
    ensures ReadSnap(value) == Some(SnapAsDict(DecodeSnap(value).value))
  {
    SnapKeysAgree(SNAP_START, Items(value, 0).0);
  }

  // Volume record --------------------------------------------------------------------

  function PartVolume(a: (Volume, bool)): VolumeDict {
    VolumeAsDict(a.0).(root := if a.1 then Some(a.0.root) else None)
  }

  lemma {:induction false} VolumeKeysAgree(a: (Volume, bool), xs: seq<Item>)
    requires VolumeFields(a, xs).Ok?
    ensures VolumeKeys(PartVolume(a), xs) == Some(PartVolume(VolumeFields(a, xs).value))
    ensures Understood(xs, VOLUME_TAGS)
    decreases |xs|
  {
    if xs != [] {
      VolumeKeysAgree(VolumeField(a, xs[0]).value, xs[1..]);
    }
  }

  lemma VolumesAgree(value: seq<byte>)
    requires DecodeVolume(value).Ok?
    ensures ReadVolume(value) == Some(VolumeAsDict(DecodeVolume(value).value))
  {
    VolumeKeysAgree(VOLUME_START, Items(value, 0).0);
  }

  // Entry record ----------------------------------------------------------------------

  function PartEntry(a: Acc): EntryDict {
    EntryAsDict(a.e).(path := if a.path then Some(a.e.path) else None,
                      etype := if a.etype then Some(a.e.etype) else None,
                      prot := if a.prot then Some(a.e.prot) else None,
                      date := if a.date then Some(a.e.date) else None)
  }

  lemma EntryKeyAgrees(a: Acc, x: Item, cap: nat)
    requires EntryField(a, x, cap).Ok?
    ensures EntryKey(PartEntry(a), x) == Some(PartEntry(EntryField(a, x, cap).value))
    ensures Critical(x.tag) ==> x.tag in ENTRY_TAGS
  {
  }

  lemma {:induction false} EntryKeysAgree(a: Acc, xs: seq<Item>, cap: nat)
    requires EntryFields(a, xs, cap).Ok?
    ensures EntryKeys(PartEntry(a), xs) == Some(PartEntry(EntryFields(a, xs, cap).value))
    ensures Understood(xs, ENTRY_TAGS)
    decreases |xs|
  {
    if xs != [] {
      EntryKeyAgrees(a, xs[0], cap);
      EntryKeysAgree(EntryField(a, xs[0], cap).value, xs[1..], cap);
    }
  }

  lemma EntriesAgree(value: seq<byte>, cap: nat)
    requires DecodeEntry(value, cap).Ok?
    ensures ReadEntry(value) == Some(EntryAsDict(DecodeEntry(value, cap).value))
  {
    EntryKeysAgree(START, Items(value, 0).0, cap);
  }

  // Records ----------------------------------------------------------------------------

  function PartParse(p: Progress): Parse {
    Gathered(p.events).(ended := p.seenEnd)
  }

  lemma GatheredSnoc(es: seq<Event>, e: Event)
    ensures Gathered(es + [e]) ==
            var m := Gathered(es);
            match e
            case OnSnap(s) => m.(snap := Some(SnapAsDict(s)))
            case OnVolume(v) => m.(groups := m.groups + [(VolumeAsDict(v), [])])
            case OnEntry(n) => m.(groups := AddToLast(m.groups, EntryAsDict(n)), count := m.count + 1)
  {
    assert (es + [e])[..|es|] == es;
  }

  lemma {:induction false} GatheredCounts(es: seq<Event>)
    ensures Gathered(es).count == EntryCount(es) && !Gathered(es).ended
    ensures Gathered(es).snap.Some? <==> exists i :: 0 <= i < |es| && es[i].OnSnap?
    ensures Gathered(es).groups != [] <==> exists i :: 0 <= i < |es| && es[i].OnVolume?
    decreases |es|
  {
    if es != [] {
      GatheredCounts(es[..|es| - 1]);
      assert forall i :: 0 <= i < |es| - 1 ==> es[..|es| - 1][i] == es[i];
    }
  }

  // What is known of the C reader's loop between two records.
  ghost predicate Running(p: Progress, last: seq<Event>) {
    Consistent(p) && p.events <= last && VolumesFirst(last)
  }

  lemma {:induction false} CountOfPrefix(es: seq<Event>, last: seq<Event>)
    requires es <= last
    ensures EntryCount(es) <= EntryCount(last)
    decreases |last|
  {
    if es != last {
      CountOfPrefix(es, last[..|last| - 1]);
    }
  }

  lemma ParseEnd(p: Progress, x: Item, data: seq<byte>, at: nat, hash: Hash, last: seq<Event>)
    requires at <= |data| && Consistent(p) && p.events <= last && EntryCount(last) < U32 && x.tag == REC_END
    requires RecordStep(p, x, data, at, hash).Ok?
    ensures ParseRecord(PartParse(p), x, data, at, hash) == Some(PartParse(RecordStep(p, x, data, at, hash).value))
  {
    GatheredCounts(p.events);
    CountOfPrefix(p.events, last);
  }

  lemma ParseContent(p: Progress, x: Item, data: seq<byte>, at: nat, hash: Hash, last: seq<Event>)
    requires at <= |data| && Running(p, last) && x.tag != REC_END
    requires RecordStep(p, x, data, at, hash).Ok? && RecordStep(p, x, data, at, hash).value.events <= last
    ensures ParseRecord(PartParse(p), x, data, at, hash) == Some(PartParse(RecordStep(p, x, data, at, hash).value))
  {
    GatheredCounts(p.events);
    var q := RecordStep(p, x, data, at, hash).value;
    if x.tag == REC_SNAP {
      SnapsAgree(x.value);
      GatheredSnoc(p.events, OnSnap(DecodeSnap(x.value).value));
    } else if x.tag == REC_VOLUME {
      VolumesAgree(x.value);
      GatheredSnoc(p.events, OnVolume(DecodeVolume(x.value).value));
    } else if x.tag == REC_ENTRY {
      EntriesAgree(x.value, Scratch(p.scratch, x.value));
      GatheredSnoc(p.events, q.events[|p.events|]);
      assert last[|p.events|].OnEntry?;
    }
  }

  lemma {:induction false} EventsOnlyGrow(data: seq<byte>, pos: nat, p: Progress, hash: Hash)
    requires pos <= |data|
    ensures p.events <= DecodeFrom(data, pos, p, hash).events
    decreases |data| - pos
  {
    match ReadItem(data, pos)
    case Got(x, next) =>
      if RecordStep(p, x, data, pos, hash).Ok? {
        EventsOnlyGrow(data, next, RecordStep(p, x, data, pos, hash).value, hash);
      }
    case _ =>
  }

  lemma {:induction false} ParseFromAgrees(data: seq<byte>, pos: nat, p: Progress, hash: Hash, last: seq<Event>)
    requires pos <= |data| && Running(p, last) && EntryCount(last) < U32
    requires DecodeFrom(data, pos, p, hash) == Decoded(last, None)
    ensures ParseFrom(data, pos, PartParse(p), hash) == Some(Gathered(last).(ended := true))
    decreases |data| - pos
  {
    GatheredCounts(p.events);
    match ReadItem(data, pos)
    case Got(x, next) =>
      var q := RecordStep(p, x, data, pos, hash).value;
      EventsOnlyGrow(data, next, q, hash);
      StepConsistent(p, x, data, pos, hash);
      if x.tag == REC_END {
        ParseEnd(p, x, data, pos, hash, last);
      } else {
        ParseContent(p, x, data, pos, hash, last);
      }
      ParseFromAgrees(data, next, q, hash, last);
    case AtEnd =>
    case Cut =>
  }

  // The converse: what the Python reader accepts too meets its conditions.
  lemma VolumeAlreadyThere(p: Progress, e: Event)
    requires VolumesFirst(p.events) && (e.OnEntry? ==> Gathered(p.events).groups != [])
    ensures VolumesFirst(p.events + [e])
  {
    GatheredCounts(p.events);
    var es := p.events + [e];
    assert forall i :: 0 <= i < |p.events| ==> es[i] == p.events[i];
    forall i | 0 <= i < |es| && es[i].OnEntry?
      ensures exists j :: 0 <= j < i && es[j].OnVolume?
    {
      if i < |p.events| {
        var j :| 0 <= j < i && p.events[j].OnVolume?;
        assert es[j].OnVolume?;
      } else {
        var j :| 0 <= j < |p.events| && p.events[j].OnVolume?;
        assert es[j].OnVolume?;
      }
    }
  }

  lemma ParsedStep(p: Progress, x: Item, data: seq<byte>, at: nat, hash: Hash) returns (q: Progress)
    requires at <= |data| && Consistent(p) && VolumesFirst(p.events) && !p.seenEnd
    requires RecordStep(p, x, data, at, hash).Ok? && ParseRecord(PartParse(p), x, data, at, hash).Some?
    ensures RecordStep(p, x, data, at, hash) == Ok(q) && Consistent(q) && VolumesFirst(q.events)
    ensures q.seenEnd ==> q.entries < U32
    ensures ParseRecord(PartParse(p), x, data, at, hash) == Some(PartParse(q))
  {
    q := RecordStep(p, x, data, at, hash).value;
    StepConsistent(p, x, data, at, hash);
    GatheredCounts(p.events);
    if x.tag == REC_END {
      ParseEnd(p, x, data, at, hash, p.events);
    } else {
      if q.events != p.events {
        VolumeAlreadyThere(p, q.events[|p.events|]);
      }
      ParseContent(p, x, data, at, hash, q.events);
    }
  }

  lemma {:induction false} ParsedFrom(data: seq<byte>, pos: nat, p: Progress, hash: Hash)
    requires pos <= |data| && Consistent(p) && VolumesFirst(p.events) && (p.seenEnd ==> p.entries < U32)
    requires DecodeFrom(data, pos, p, hash).error.None? && ParseFrom(data, pos, PartParse(p), hash).Some?
    ensures VolumesFirst(DecodeFrom(data, pos, p, hash).events)
    ensures EntryCount(DecodeFrom(data, pos, p, hash).events) < U32
    decreases |data| - pos
  {
    match ReadItem(data, pos)
    case Got(x, next) =>
      var q := ParsedStep(p, x, data, pos, hash);
      ParsedFrom(data, next, q, hash);
    case AtEnd =>
    case Cut =>
  }

  // On what the C reader accepts, the Python reader accepts exactly the manifests with no
  // header flags, fewer than 2^32 entries and a volume before the first entry; and then it
  // gives the same snapshot, volumes and entries in the same order.
  lemma ReadersAgree(data: seq<byte>, hash: Hash)
    requires DecodeManifest(data, hash).error.None?
    ensures ParseManifest(data, hash).Some? <==>
            && ReadHeader(data, FTYPE_MANIFEST) == Ok(0)
            && VolumesFirst(DecodeManifest(data, hash).events)
            && EntryCount(DecodeManifest(data, hash).events) < U32
    ensures ParseManifest(data, hash).Some? ==>
            ParseManifest(data, hash).value == Gathered(DecodeManifest(data, hash).events).(ended := true)
  {
    var last := DecodeManifest(data, hash).events;
    if ReadHeader(data, FTYPE_MANIFEST) == Ok(0) {
      assert PartParse(BEGIN) == NOTHING;
      if VolumesFirst(last) && EntryCount(last) < U32 {
        ParseFromAgrees(data, 8, BEGIN, hash, last);
      } else if ParseManifest(data, hash).Some? {
        ParsedFrom(data, 8, BEGIN, hash);
      }
    }
  }
}
