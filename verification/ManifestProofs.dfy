// What the manifest decoder makes of what the writer wrote, and of anything cut short.

module ManifestProofs {
  import opened Bytes
  import opened Manifest
  import opened Meta
  import opened Records
  import opened Tlv

  // ---- Round trip -------------------------------------------------------------------

  lemma EntryBodyRead(n: Entry, cap: nat)
    requires ValidEntry(n) && !TooLongEntry(n) && CompleteEntry(n)
    requires cap >= |EncodeItems(EntryItems(n))| / 46 + 1
    ensures DecodeEntry(EncodeItems(EntryItems(n)), cap) == Ok(n)
  {
    var v := EncodeItems(EntryItems(n));
    var room := if |n.content| > cap then |n.content| else cap;
    ScratchIsEnough(v, cap);
    ScratchIsEnough(v, room);
    EntryRoundTrip(n, room);
  }

  lemma EventBodyRead(p: Progress, e: Event, data: seq<byte>, at: nat, hash: Hash) returns (q: Progress)
    requires at <= |data| && ValidEvent(e) && !p.seenEnd && (e.OnSnap? <==> !p.seenSnap)
    ensures RecordStep(p, RecordOf(e), data, at, hash) == Ok(q)
    ensures q.events == p.events + [e] && q.seenSnap && !q.seenEnd
    ensures q.entries == p.entries + if e.OnEntry? then 1 else 0
  {
    q := p.(events := p.events + [e], seenSnap := true);
    match e
    case OnSnap(s) => SnapRoundTrip(s);
    case OnVolume(w) => VolumeRoundTrip(w);
    case OnEntry(n) => q := EntryStep(p, n, data, at, hash);
  }

  lemma EntryStep(p: Progress, n: Entry, data: seq<byte>, at: nat, hash: Hash) returns (q: Progress)
    requires at <= |data| && ValidEvent(OnEntry(n)) && !p.seenEnd && p.seenSnap
    ensures RecordStep(p, RecordOf(OnEntry(n)), data, at, hash) == Ok(q)
    ensures q.events == p.events + [OnEntry(n)] && q.seenSnap && !q.seenEnd && q.entries == p.entries + 1
  {
    var x := RecordOf(OnEntry(n));
    EntryBodyRead(n, Scratch(p.scratch, x.value));
    q := EntryRecordStep(p, x, n, data, at, hash);
  }

  lemma EntryRecordStep(p: Progress, x: Item, n: Entry, data: seq<byte>, at: nat, hash: Hash) returns (q: Progress)
    requires at <= |data| && !p.seenEnd && p.seenSnap && x.tag == REC_ENTRY
    requires DecodeEntry(x.value, Scratch(p.scratch, x.value)) == Ok(n)
    ensures RecordStep(p, x, data, at, hash) == Ok(q)
    ensures q.events == p.events + [OnEntry(n)] && q.seenSnap && !q.seenEnd && q.entries == p.entries + 1
  {
    q := p.(events := p.events + [OnEntry(n)], entries := p.entries + 1, scratch := Scratch(p.scratch, x.value));
  }

  lemma LastByte(width: nat, v: nat)
    requires width > 0
    ensures GetBe(Be(width, v)) == 256 * GetBe(Be(width - 1, v / 256)) + v % 256
  {
    assert Be(width, v)[..width - 1] == Be(width - 1, v / 256);
  }

  // A count too wide for its field is written modulo the field.
  lemma CountField(v: nat)
    ensures GetBe(Be(4, v)) == v % U32
  {
    LastByte(4, v);
    LastByte(3, v / 256);
    LastByte(2, v / 256 / 256);
    LastByte(1, v / 256 / 256 / 256);
  }

  lemma EndRead(count: nat, h: seq<byte>)
    requires |h| == 32
    ensures ValidItem(EndRecord(count, h))
    ensures DecodeEnd(EndRecord(count, h).value) == Ok((count % U32, h))
  {
    var xs := EndItems(count, h);
    Widths();
    CountField(count);
    ItemsRoundTrip([], xs);
    assert [] + EncodeItems(xs) == EncodeItems(xs);
    EndFieldsRead(count, h);
    EndSize(count, h);
  }

  lemma EndSize(count: nat, h: seq<byte>)
    ensures |EncodeItems(EndItems(count, h))| == 16 + |h|
  {
    var xs := EndItems(count, h);
    assert EncodeItems(xs[..1]) == EncodeItems(xs[..1][..0]) + EncodeItem(xs[0]);
  }

  lemma EndFieldsRead(count: nat, h: seq<byte>)
    requires |h| == 32
    ensures EndFields((None, None), EndItems(count, h)) == Ok((Some(GetBe(Be(4, count))), Some(h)))
  {
    var xs := EndItems(count, h);
    assert xs[1..][1..] == [];
    assert EndFields((Some(GetBe(Be(4, count))), None), xs[1..]) == Ok((Some(GetBe(Be(4, count))), Some(h)));
  }

  // The last record closes the manifest.
  lemma EndStep(data: seq<byte>, pre: seq<byte>, x: Item, p: Progress, hash: Hash)
    requires GoodHash(hash) && p.seenSnap && !p.seenEnd
    requires x == EndRecord(p.entries, hash(pre)) && data == pre + EncodeItem(x)
    ensures DecodeFrom(data, |pre|, p, hash) == Decoded(p.events, None)
  {
    var h := hash(pre);
    EndRead(p.entries, h);
    ReadLast(data, pre, x);
    assert RecordStep(p, x, data, |pre|, hash) == Ok(p.(seenEnd := true));
    EndReached(data, p.(seenEnd := true), hash);
  }

  lemma ReadLast(data: seq<byte>, pre: seq<byte>, x: Item)
    requires ValidItem(x) && data == pre + EncodeItem(x)
    ensures ReadItem(data, |pre|) == Got(x, |data|) && data[..|pre|] == pre
  {
    ReadEncoded(pre, x, []);
    assert data + [] == data;
  }

  lemma EndReached(data: seq<byte>, p: Progress, hash: Hash)
    requires p.seenSnap && p.seenEnd
    ensures DecodeFrom(data, |data|, p, hash) == Decoded(p.events, None)
  {
  }

  lemma Regroup(a: seq<byte>, b: seq<byte>, c: seq<byte>, d: seq<byte>)
    ensures a + (b + c) == a + b + c
    ensures a + b + c + d == a + b + (c + d)
  {
  }

  lemma {:induction false} CountCons(e: Event, es: seq<Event>)
    ensures EntryCount([e] + es) == EntryCount(es) + if e.OnEntry? then 1 else 0
    decreases |es|
  {
    if es == [] {
      assert ([e] + es)[..0] == [];
    } else {
      var init := es[..|es| - 1];
      assert ([e] + es)[..|es|] == [e] + init;
      CountCons(e, init);
    }
  }

  // Taking the first of the items that are still to come.
  lemma ItemsCons(x: Item, xs: seq<Item>, pre: seq<byte>, total: seq<byte>, end: seq<byte>)
    returns (pre': seq<byte>, post: seq<byte>)
    requires total == pre + EncodeItems([x] + xs)
    ensures pre' == pre + EncodeItem(x) && total == pre' + EncodeItems(xs)
    ensures total + end == pre' + post
  {
    var b, bs := EncodeItem(x), EncodeItems(xs);
    EncodeItemsCons(x, xs);
    pre', post := pre + b, bs + end;
    Regroup(pre, b, bs, end);
  }

  lemma RecordsCons(e: Event, es: seq<Event>)
    ensures RecordsOf([e] + es) == [RecordOf(e)] + RecordsOf(es)
  {
  }

  lemma DecodeStep(data: seq<byte>, pos: nat, p: Progress, x: Item, next: nat, q: Progress, hash: Hash)
    requires pos < next <= |data| && ReadItem(data, pos) == Got(x, next)
    requires RecordStep(p, x, data, pos, hash) == Ok(q)
    ensures DecodeFrom(data, pos, p, hash) == DecodeFrom(data, next, q, hash)
  {
  }

  // One record further: `pre` is read, `post` is still to come.
  lemma OneRecordRead(data: seq<byte>, pre: seq<byte>, e: Event, post: seq<byte>, p: Progress, hash: Hash)
    returns (q: Progress)
    requires ValidEvent(e) && !p.seenEnd && (e.OnSnap? <==> !p.seenSnap)
    requires data == pre + EncodeItem(RecordOf(e)) + post
    ensures q.events == p.events + [e] && q.seenSnap && !q.seenEnd
    ensures q.entries == p.entries + if e.OnEntry? then 1 else 0
    ensures DecodeFrom(data, |pre|, p, hash) == DecodeFrom(data, |pre + EncodeItem(RecordOf(e))|, q, hash)
  {
    var x := RecordOf(e);
    ReadEncoded(pre, x, post);
    q := EventBodyRead(p, e, data, |pre|, hash);
    DecodeStep(data, |pre|, p, x, |pre + EncodeItem(x)|, q, hash);
  }

  // The events still to come once `done` are through, out of `all`.
  ghost predicate StillToCome(all: seq<Event>, done: seq<Event>, es: seq<Event>) {
    && Ordered(all) && ValidEvents(all) && all == done + es
  }

  lemma NextEvent(all: seq<Event>, done: seq<Event>, es: seq<Event>)
    requires StillToCome(all, done, es) && es != []
    ensures es == [es[0]] + es[1..] && ValidEvent(es[0]) && (es[0].OnSnap? <==> done == [])
    ensures StillToCome(all, done + [es[0]], es[1..])
    ensures EntryCount(es) == EntryCount(es[1..]) + if es[0].OnEntry? then 1 else 0
  {
    assert es[0] == all[|done|];
    assert es == [es[0]] + es[1..];
    CountCons(es[0], es[1..]);
  }

  // Records are read one by one; `total` is everything before the end record.
  lemma {:induction false} RecordsRead(all: seq<Event>, es: seq<Event>, pre: seq<byte>, total: seq<byte>,
                                       tail: seq<byte>, n: nat, p: Progress, hash: Hash)
    requires GoodHash(hash) && StillToCome(all, p.events, es) && !p.seenEnd
    requires p.seenSnap <==> p.events != []
    requires total == pre + EncodeItems(RecordsOf(es))
    requires n == p.entries + EntryCount(es) && tail == EncodeItem(EndRecord(n, hash(total)))
    ensures DecodeFrom(total + tail, |pre|, p, hash) == Decoded(all, None)
    decreases |es|
  {
    if es == [] {
      assert p.events == all && total == pre;
      EndStep(total + tail, pre, EndRecord(n, hash(total)), p, hash);
    } else {
      NextEvent(all, p.events, es);
      RecordsCons(es[0], es[1..]);
      var pre', post := ItemsCons(RecordOf(es[0]), RecordsOf(es[1..]), pre, total, tail);
      var q := OneRecordRead(total + tail, pre, es[0], post, p, hash);
      RecordsRead(all, es[1..], pre', total, tail, n, q, hash);
    }
  }

  // Decoding finished bytes makes exactly the calls that wrote them, in order.
  lemma ManifestRoundTrip(es: seq<Event>, hash: Hash)
    requires Ordered(es) && ValidEvents(es) && GoodHash(hash)
    ensures DecodeManifest(ManifestBytes(es, hash), hash) == Decoded(es, None)
  {
    var head, total := Header(FTYPE_MANIFEST, 0), Unclosed(es);
    var tail := EncodeItem(EndRecord(EntryCount(es), hash(total)));
    assert [] + es == es;
    RecordsRead(es, es, head, total, tail, EntryCount(es), BEGIN, hash);
    HeaderRead(EncodeItems(RecordsOf(es)), tail);
  }

  lemma HeaderRead(body: seq<byte>, tail: seq<byte>)
    ensures ReadHeader(Header(FTYPE_MANIFEST, 0) + body + tail, FTYPE_MANIFEST) == Ok(0)
  {
    HeaderRoundTrip(FTYPE_MANIFEST, 0, body + tail);
    assert Header(FTYPE_MANIFEST, 0) + body + tail == Header(FTYPE_MANIFEST, 0) + (body + tail);
  }

  // ---- Cut short ---------------------------------------------------------------------

  lemma {:induction false} CutFrom(data: seq<byte>, len: nat, pos: nat, p: Progress, hash: Hash)
    requires pos <= len < |data| && DecodeFrom(data, pos, p, hash).error.None?
    ensures DecodeFrom(data[..len], pos, p, hash).error.Some?
    decreases |data| - pos
  {
    var Got(x, next) := ReadItem(data, pos);
    ReadItemInPrefix(data, len, pos);
    if next <= len {
      assert data[..len][..pos] == data[..pos];
      var q := RecordStep(p, x, data, pos, hash).value;
      CutFrom(data, len, next, q, hash);
    }
  }

  // Whatever the hash, nothing can be dropped from the end of an accepted manifest.
  lemma ProperPrefixIsRejected(data: seq<byte>, len: nat, hash: Hash)
    requires len < |data| && DecodeManifest(data, hash).error.None?
    ensures DecodeManifest(data[..len], hash).error.Some?
  {
    if len >= 8 {
      var d := data[..len];
      assert d[..4] == data[..4] && d[6..8] == data[6..8];
      CutFrom(data, len, 8, BEGIN, hash);
    }
  }

  // ---- The references array ------------------------------------------------------------

  lemma StepWithAnyScratch(p: Progress, scratch: nat, x: Item, data: seq<byte>, at: nat, hash: Hash)
    requires at <= |data|
    ensures var r, r' := RecordStep(p, x, data, at, hash), RecordStep(p.(scratch := scratch), x, data, at, hash);
      if r.Err? then r' == r else r'.Ok? && r'.value == r.value.(scratch := r'.value.scratch)
  {
    if x.tag == REC_ENTRY {
      ScratchIsEnough(x.value, Scratch(p.scratch, x.value));
      ScratchIsEnough(x.value, Scratch(scratch, x.value));
    }
  }

  // However large the array already is, the calls and the verdict are the same: its limit
  // is never what decides.
  lemma {:induction false} ScratchNeverDecides(data: seq<byte>, pos: nat, p: Progress, scratch: nat, hash: Hash)
    requires pos <= |data|
    ensures DecodeFrom(data, pos, p, hash) == DecodeFrom(data, pos, p.(scratch := scratch), hash)
    decreases |data| - pos
  {
    match ReadItem(data, pos)
    case Got(x, next) =>
      StepWithAnyScratch(p, scratch, x, data, pos, hash);
      var r, r' := RecordStep(p, x, data, pos, hash), RecordStep(p.(scratch := scratch), x, data, pos, hash);
      if r.Ok? {
        ScratchNeverDecides(data, next, r.value, r'.value.scratch, hash);
      }
    case _ =>
  }

  // ---- What acceptance means --------------------------------------------------------------

  // Some record at `at` is an end record whose count and hash agree with what precedes it.
  ghost predicate SealedAt(data: seq<byte>, at: nat, count: nat, hash: Hash) {
    && at <= |data| && ReadItem(data, at).Got? && ReadItem(data, at).item.tag == REC_END
    && ReadItem(data, at).next == |data|
    && DecodeEnd(ReadItem(data, at).item.value) == Ok((count % U32, hash(data[..at])))
  }

  ghost predicate Sealed(data: seq<byte>, count: nat, hash: Hash) {
    exists at :: SealedAt(data, at, count, hash)
  }

  ghost predicate Consistent(p: Progress) {
    p.entries == EntryCount(p.events) && (p.seenSnap <==> p.events != []) && (p.seenSnap ==> Ordered(p.events))
  }

  lemma StepConsistent(p: Progress, x: Item, data: seq<byte>, at: nat, hash: Hash)
    requires at <= |data| && Consistent(p) && RecordStep(p, x, data, at, hash).Ok?
    ensures Consistent(RecordStep(p, x, data, at, hash).value)
  {
    var q := RecordStep(p, x, data, at, hash).value;
    if q.events != p.events {
      var e := q.events[|p.events|];
      assert q.events == p.events + [e];
      OneMore(p.events, e);
    }
  }

  lemma {:induction false} AcceptedFrom(data: seq<byte>, pos: nat, p: Progress, hash: Hash)
    requires pos <= |data| && Consistent(p) && DecodeFrom(data, pos, p, hash).error.None?
    requires p.seenEnd ==> Sealed(data[..pos], p.entries, hash)
    ensures Ordered(DecodeFrom(data, pos, p, hash).events)
    ensures Sealed(data, EntryCount(DecodeFrom(data, pos, p, hash).events), hash)
    decreases |data| - pos
  {
    match ReadItem(data, pos)
    case AtEnd =>
      assert data[..pos] == data;
    case Got(x, next) =>
      var q := RecordStep(p, x, data, pos, hash).value;
      StepConsistent(p, x, data, pos, hash);
      if q.seenEnd {
        ReadItemInPrefix(data, next, pos);
        assert data[..next][..pos] == data[..pos];
        assert SealedAt(data[..next], pos, q.entries, hash);
      }
      AcceptedFrom(data, next, q, hash);
    case Cut =>
  }

  // An accepted manifest has its one snap record first and ends in an end record that
  // names the number of entries and the hash of every byte before it.
  lemma AcceptedIsSealed(data: seq<byte>, hash: Hash)
    requires DecodeManifest(data, hash).error.None?
    ensures Ordered(DecodeManifest(data, hash).events)
    ensures Sealed(data, EntryCount(DecodeManifest(data, hash).events), hash)
  {
    AcceptedFrom(data, 8, BEGIN, hash);
  }

  // ---- Decoded references ------------------------------------------------------------------

  lemma OneFieldRefs(a: Acc, x: Item, cap: nat)
    requires EntryField(a, x, cap).Ok? && forall r :: r in a.e.content ==> |r.hash| == 32
    ensures forall r :: r in EntryField(a, x, cap).value.e.content ==> |r.hash| == 32
  {
  }

  lemma {:induction false} DecodedFieldRefs(a: Acc, xs: seq<Item>, cap: nat)
    requires EntryFields(a, xs, cap).Ok? && forall r :: r in a.e.content ==> |r.hash| == 32
    ensures forall r :: r in EntryFields(a, xs, cap).value.e.content ==> |r.hash| == 32
    decreases |xs|
  {
    if xs != [] {
      OneFieldRefs(a, xs[0], cap);
      DecodedFieldRefs(EntryField(a, xs[0], cap).value, xs[1..], cap);
    }
  }

  // A decoded reference names a hash of the right length.
  lemma {:induction false} DecodedRefs(data: seq<byte>, pos: nat, p: Progress, hash: Hash)
    requires pos <= |data| && HashesOf32(p.events)
    ensures HashesOf32(DecodeFrom(data, pos, p, hash).events)
    decreases |data| - pos
  {
    match ReadItem(data, pos)
    case Got(x, next) =>
      var r := RecordStep(p, x, data, pos, hash);
      if r.Ok? {
        if x.tag == REC_ENTRY && r.value.events != p.events {
          DecodedFieldRefs(START, Items(x.value, 0).0, Scratch(p.scratch, x.value));
        }
        DecodedRefs(data, next, r.value, hash);
      }
    case _ =>
  }

  ghost predicate HashesOf32(es: seq<Event>) {
    forall i :: 0 <= i < |es| && es[i].OnEntry? ==> forall r :: r in es[i].entry.content ==> |r.hash| == 32
  }
}
