// Whole responses on the wire (sections 3 and 4.1 of RFC 7230): a status line, header lines
// of which one frames the body, and the body.

module HttpResponses {
  import opened Bytes
  import opened HttpNumbers
  import opened HttpParser
  import opened HttpRoundTrip
  import opened HttpSpec
  import opened Letters

  // ---- Header lines one by one -----------------------------------------------------------------

  // What one header line says; one without a colon says nothing.
  function LineEffect(h: seq<byte>, f: Framing, sizeMax: nat): (Framing, Option<Error>) {
    var c := IndexOf(h, COLON, 0, |h|);
    if c == |h| then (f, None) else OneHeader(h, 0, c, |h|, f, sizeMax)
  }

  // A reader of lines, and what it makes of a list of them and of a block of them.
  type Reader = (seq<byte>, Framing) -> (Framing, Option<Error>)

  function ReaderOf(sizeMax: nat): Reader {
    (h, f) => LineEffect(h, f, sizeMax)
  }

  function LinesSay(hs: seq<TextLine>, f: Framing, read: Reader): (Framing, Option<Error>) {
    if hs == [] then (f, None)
    else
      var w := read(hs[0].text, f);
      if w.1.Some? then w else LinesSay(hs[1..], w.0, read)
  }

  function BlockSays(raw: seq<byte>, p: nat, f: Framing, read: Reader): (Framing, Option<Error>)
    requires p <= |raw| && Terminated(raw)
    decreases |raw| - p
  {
    if p == |raw| then (f, None)
    else
      var e := IndexOf(raw, 0, p, |raw|);
      var w := read(raw[p..e], f);
      if w.1.Some? then w else BlockSays(raw, e + 1, w.0, read)
  }

  lemma {:induction false} IndexInSlice(raw: seq<byte>, c: byte, p: nat, i: nat, e: nat)
    requires p <= i <= e <= |raw|
    ensures IndexOf(raw, c, i, e) == p + IndexOf(raw[p..e], c, i - p, e - p)
    decreases e - i
  {
    if i < e && raw[i] != c {
      IndexInSlice(raw, c, p, i + 1, e);
    }
  }

  lemma {:induction false} SpacesInSlice(raw: seq<byte>, p: nat, i: nat, e: nat)
    requires p <= i <= e <= |raw|
    ensures SkipSpaces(raw, i, e) == p + SkipSpaces(raw[p..e], i - p, e - p)
    decreases e - i
  {
    if i < e && raw[i] == SPACE {
      SpacesInSlice(raw, p, i + 1, e);
    }
  }

  lemma HeaderInSlice(raw: seq<byte>, p: nat, c: nat, e: nat, f: Framing, sizeMax: nat)
    requires p <= c < e <= |raw|
    ensures OneHeader(raw, p, c, e, f, sizeMax) == OneHeader(raw[p..e], 0, c - p, e - p, f, sizeMax)
  {
    SpacesInSlice(raw, p, c + 1, e);
    var v := SkipSpaces(raw, c + 1, e);
    assert raw[p..e][0..c - p] == raw[p..c] && raw[p..e][v - p..e - p] == raw[v..e];
  }

  lemma ColonInSlice(raw: seq<byte>, p: nat, c: nat, e: nat, f: Framing, sizeMax: nat)
    requires p <= c < e <= |raw| && c == IndexOf(raw, COLON, p, e)
    ensures LineEffect(raw[p..e], f, sizeMax) == OneHeader(raw, p, c, e, f, sizeMax)
  {
    IndexInSlice(raw, COLON, p, p, e);
    HeaderInSlice(raw, p, c, e, f, sizeMax);
  }

  lemma LineInSlice(raw: seq<byte>, p: nat, e: nat, f: Framing, sizeMax: nat)
    requires p <= e <= |raw|
    ensures (var c := IndexOf(raw, COLON, p, e); if c == e then (f, None) else OneHeader(raw, p, c, e, f, sizeMax))
            == LineEffect(raw[p..e], f, sizeMax)
  {
    var c := IndexOf(raw, COLON, p, e);
    if c < e {
      ColonInSlice(raw, p, c, e, f, sizeMax);
    } else {
      IndexInSlice(raw, COLON, p, p, e);
    }
  }

  lemma PopulateLine(raw: seq<byte>, p: nat, e: nat, w: (Framing, Option<Error>), f: Framing, sizeMax: nat)
    requires p < |raw| && Terminated(raw) && e == IndexOf(raw, 0, p, |raw|) && w == LineEffect(raw[p..e], f, sizeMax)
    ensures e < |raw| && Populate(raw, p, f, sizeMax) == if w.1.Some? then w else Populate(raw, e + 1, w.0, sizeMax)
  {
    LineInSlice(raw, p, e, f, sizeMax);
  }

  lemma BlockStep(raw: seq<byte>, p: nat, e: nat, w: (Framing, Option<Error>), f: Framing, read: Reader)
    requires p < |raw| && Terminated(raw) && e == IndexOf(raw, 0, p, |raw|) && w == read(raw[p..e], f)
    ensures e < |raw| && BlockSays(raw, p, f, read) == if w.1.Some? then w else BlockSays(raw, e + 1, w.0, read)
  {
  }

  lemma {:induction false} PopulateIsBlock(raw: seq<byte>, p: nat, f: Framing, sizeMax: nat)
    requires p <= |raw| && Terminated(raw)
    ensures Populate(raw, p, f, sizeMax) == BlockSays(raw, p, f, ReaderOf(sizeMax))
    decreases |raw| - p
  {
    if p < |raw| {
      var e := IndexOf(raw, 0, p, |raw|);
      var w := LineEffect(raw[p..e], f, sizeMax);
      PopulateLine(raw, p, e, w, f, sizeMax);
      BlockStep(raw, p, e, w, f, ReaderOf(sizeMax));
      if w.1.None? {
        PopulateIsBlock(raw, e + 1, w.0, sizeMax);
      }
    }
  }

  lemma {:induction false} IndexShift(a: seq<byte>, b: seq<byte>, c: byte, i: nat)
    requires i <= |b|
    ensures IndexOf(a + b, c, |a| + i, |a + b|) == |a| + IndexOf(b, c, i, |b|)
    decreases |b| - i
  {
    if i < |b| && b[i] != c {
      IndexShift(a, b, c, i + 1);
    }
  }

  // What comes before does not matter.
  lemma {:induction false} BlockShift(a: seq<byte>, b: seq<byte>, p: nat, f: Framing, read: Reader)
    requires p <= |b| && Terminated(b) && Terminated(a + b)
    ensures BlockSays(a + b, |a| + p, f, read) == BlockSays(b, p, f, read)
    decreases |b| - p
  {
    if p < |b| {
      var e := IndexOf(b, 0, p, |b|);
      IndexShift(a, b, 0, p);
      assert (a + b)[|a| + p..|a| + e] == b[p..e];
      var w := read(b[p..e], f);
      if w.1.None? {
        BlockShift(a, b, e + 1, w.0, read);
      }
    }
  }

  lemma {:induction false} EndOfLineAt(h: seq<byte>, rest: seq<byte>, i: nat)
    requires i <= |h| && 0 !in h
    ensures IndexOf(h + [0] + rest, 0, i, |h + [0] + rest|) == |h|
    decreases |h| - i
  {
    if i < |h| {
      assert h[i] in h;
      EndOfLineAt(h, rest, i + 1);
    }
  }

  // The first line of a block, then the others.
  lemma BlockLine(h: seq<byte>, rest: seq<byte>, f: Framing, read: Reader)
    requires 0 !in h && Terminated(rest) && Terminated(h + [0] + rest)
    ensures BlockSays(h + [0] + rest, 0, f, read)
            == if read(h, f).1.Some? then read(h, f) else BlockSays(rest, 0, read(h, f).0, read)
  {
    EndOfLineAt(h, rest, 0);
    assert (h + [0] + rest)[0..|h|] == h;
    BlockShift(h + [0], rest, 0, read(h, f).0, read);
  }

  lemma {:induction false} RawFirst(hs: seq<TextLine>)
    requires hs != []
    ensures RawOf(hs) == hs[0].text + [0] + RawOf(hs[1..])
    decreases |hs|
  {
    if |hs| == 1 {
      assert RawOf(hs[..0]) == [] && RawOf(hs[1..]) == [];
    } else {
      var init, last := hs[..|hs| - 1], hs[|hs| - 1];
      RawFirst(init);
      assert hs[1..][..|hs| - 2] == init[1..];
      Regroup(hs[0].text + [0], RawOf(init[1..]), last.text + [0]);
      Regroup(RawOf(init[1..]), last.text, [0]);
      Regroup(RawOf(init), last.text, [0]);
    }
  }

  predicate NoNul(hs: seq<TextLine>) {
    forall h :: h in hs ==> 0 !in h.text
  }

  // The block says what its lines say, in order.
  lemma {:induction false} BlockIsLines(hs: seq<TextLine>, f: Framing, read: Reader)
    requires NoNul(hs)
    ensures BlockSays(RawOf(hs), 0, f, read) == LinesSay(hs, f, read)
    decreases |hs|
  {
    if hs != [] {
      RawFirst(hs);
      BlockLine(hs[0].text, RawOf(hs[1..]), f, read);
      if read(hs[0].text, f).1.None? {
        BlockIsLines(hs[1..], read(hs[0].text, f).0, read);
      }
    }
  }

  lemma {:induction false} LinesInTwo(a: seq<TextLine>, b: seq<TextLine>, f: Framing, read: Reader)
    requires LinesSay(a, f, read).1.None?
    ensures LinesSay(a + b, f, read) == LinesSay(b, LinesSay(a, f, read).0, read)
    decreases |a|
  {
    if a == [] {
      assert a + b == b;
    } else {
      assert (a + b)[1..] == a[1..] + b;
      LinesInTwo(a[1..], b, read(a[0].text, f).0, read);
    }
  }

  // ---- Names ------------------------------------------------------------------------------------

  // The names of the two framing headers, and the transfer coding, as they are written in
  // section 3 of RFC 7230; letter case does not matter.
  const LENGTH_NAME: string := "Content-Length"
  const CODING_NAME: string := "Transfer-Encoding"
  const CODING: string := "chunked"

  lemma LowerIsRecased(a: byte, b: byte)
    ensures Lower(a) == Lower(b) <==> SameLetter(a, b)
  {
  }

  lemma NamesInAnyCase(name: seq<byte>, literal: seq<byte>)
    ensures NameEq(name, literal) <==> Recased(name, literal)
  {
    forall i | 0 <= i < |name| && i < |literal|
      ensures Lower(name[i]) == Lower(literal[i]) <==> SameLetter(name[i], literal[i])
    {
      LowerIsRecased(name[i], literal[i]);
    }
  }

  lemma {:induction false} RecasedVia(a: seq<byte>, b: seq<byte>, c: seq<byte>)
    requires Recased(b, c)
    ensures Recased(a, b) <==> Recased(a, c)
  {
    if |a| == |b| {
      forall i | 0 <= i < |a|
        ensures SameLetter(a[i], b[i]) <==> SameLetter(a[i], c[i])
      {
      }
    }
  }

  lemma TheLengthName()
    ensures Recased(Ascii(LENGTH_NAME), CONTENT_LENGTH)
  {
    assert Ascii(LENGTH_NAME) == [67, 111, 110, 116, 101, 110, 116, 45, 76, 101, 110, 103, 116, 104];
  }

  lemma TheCodingName()
    ensures Recased(Ascii(CODING_NAME), TRANSFER_ENCODING)
  {
    assert Ascii(CODING_NAME) == [84, 114, 97, 110, 115, 102, 101, 114, 45, 69, 110, 99, 111, 100, 105, 110, 103];
  }

  lemma TheCoding()
    ensures Recased(Ascii(CODING), CHUNKED)
  {
    assert Ascii(CODING) == CHUNKED;
  }

  // Which names frame a response: these two, in any case.
  lemma FramingNames(name: seq<byte>)
    ensures NameEq(name, CONTENT_LENGTH) <==> Recased(name, Ascii(LENGTH_NAME))
    ensures NameEq(name, TRANSFER_ENCODING) <==> Recased(name, Ascii(CODING_NAME))
  {
    TheLengthName();
    TheCodingName();
    NamesInAnyCase(name, CONTENT_LENGTH);
    NamesInAnyCase(name, TRANSFER_ENCODING);
    RecasedVia(name, Ascii(LENGTH_NAME), CONTENT_LENGTH);
    RecasedVia(name, Ascii(CODING_NAME), TRANSFER_ENCODING);
  }

  // A value names the chunked coding when it has that word in it anywhere, in any case.
  ghost predicate NamesChunked(value: seq<byte>) {
    exists i: nat :: WordAt(value, i)
  }

  predicate WordAt(value: seq<byte>, i: nat) {
    i + 7 <= |value| && Recased(value[i..i + 7], Ascii(CODING))
  }

  lemma ChunkedIsNamed(value: seq<byte>)
    ensures ContainsCi(value, CHUNKED) <==> NamesChunked(value)
  {
    TheCoding();
    forall i: nat | i + 7 <= |value|
      ensures LiesAtCi(value, i, CHUNKED) <==> WordAt(value, i)
    {
      NamesInAnyCase(value[i..i + 7], CHUNKED);
      RecasedVia(value[i..i + 7], Ascii(CODING), CHUNKED);
    }
    if NamesChunked(value) {
      var i: nat :| WordAt(value, i);
      assert LiesAtCi(value, i, CHUNKED);
    }
  }

  // ---- Lines that say nothing of the framing -----------------------------------------------------

  // Whatever stands before the first colon, if there is one, is neither name.
  ghost predicate Neutral(h: seq<byte>) {
    forall n: seq<byte>, v: seq<byte> :: h == n + [58] + v && 58 !in n ==>
      !Recased(n, Ascii(LENGTH_NAME)) && !Recased(n, Ascii(CODING_NAME))
  }

  ghost predicate AllNeutral(hs: seq<TextLine>) {
    forall h :: h in hs ==> Neutral(h.text)
  }

  predicate SameFraming(f: Framing, g: Framing) {
    f.(headers := []) == g.(headers := [])
  }

  lemma NeutralLine(h: seq<byte>, f: Framing, sizeMax: nat)
    requires Neutral(h)
    ensures LineEffect(h, f, sizeMax).1.None? && SameFraming(f, LineEffect(h, f, sizeMax).0)
  {
    var c := IndexOf(h, COLON, 0, |h|);
    if c < |h| {
      assert h[0..c] == h[..c] && h == h[..c] + [58] + h[c + 1..];
      FramingNames(h[..c]);
    }
  }

  lemma {:induction false} NeutralLines(hs: seq<TextLine>, f: Framing, sizeMax: nat)
    requires AllNeutral(hs)
    ensures LinesSay(hs, f, ReaderOf(sizeMax)).1.None? && SameFraming(f, LinesSay(hs, f, ReaderOf(sizeMax)).0)
    decreases |hs|
  {
    if hs != [] {
      NeutralLine(hs[0].text, f, sizeMax);
      NeutralLines(hs[1..], LineEffect(hs[0].text, f, sizeMax).0, sizeMax);
    }
  }

  // This line, wherever it stands, frames a response so.
  ghost predicate Frames(h: seq<byte>, sizeMax: nat, want: Framing) {
    forall f :: SameFraming(f, INIT.framing) ==>
      LineEffect(h, f, sizeMax).1.None? && SameFraming(LineEffect(h, f, sizeMax).0, want)
  }

  // One line that says something among others that do not.
  lemma OneFrames(a: seq<TextLine>, h: TextLine, b: seq<TextLine>, sizeMax: nat, want: Framing)
    requires AllNeutral(a) && AllNeutral(b) && NoNul(a + ([h] + b)) && Frames(h.text, sizeMax, want)
    ensures FramingOf(a + ([h] + b), sizeMax).Some? && SameFraming(FramingOf(a + ([h] + b), sizeMax).value, want)
  {
    var f0, read := INIT.framing, ReaderOf(sizeMax);
    PopulateIsBlock(RawOf(a + ([h] + b)), 0, f0, sizeMax);
    BlockIsLines(a + ([h] + b), f0, read);
    NeutralLines(a, f0, sizeMax);
    LinesInTwo(a, [h] + b, f0, read);
    OneLine(h, b, LinesSay(a, f0, read).0, sizeMax, want);
  }

  lemma OneLine(h: TextLine, b: seq<TextLine>, f: Framing, sizeMax: nat, want: Framing)
    requires AllNeutral(b) && Frames(h.text, sizeMax, want) && SameFraming(f, INIT.framing)
    ensures var w := LinesSay([h] + b, f, ReaderOf(sizeMax)); w.1.None? && SameFraming(w.0, want)
  {
    assert ([h] + b)[0] == h && ([h] + b)[1..] == b;
    NeutralLines(b, LineEffect(h.text, f, sizeMax).0, sizeMax);
  }

  // ---- Framing lines ----------------------------------------------------------------------------

  function Spaces(k: nat): (r: seq<byte>)
    ensures |r| == k && forall i :: 0 <= i < k ==> r[i] == SPACE
  {
    seq(k, i => SPACE)
  }

  // A name, a colon, any number of spaces and a value.
  function HeaderLine(name: seq<byte>, k: nat, value: seq<byte>): seq<byte> {
    name + [COLON] + Spaces(k) + value
  }

  lemma {:induction false} FirstColon(name: seq<byte>, rest: seq<byte>, i: nat)
    requires i <= |name| && COLON !in name
    ensures IndexOf(name + ([COLON] + rest), COLON, i, |name + ([COLON] + rest)|) == |name|
    decreases |name| - i
  {
    if i < |name| {
      assert name[i] in name;
      FirstColon(name, rest, i + 1);
    }
  }

  lemma {:induction false} SkipThese(h: seq<byte>, i: nat, end: nat)
    requires i <= end <= |h| && (forall k :: i <= k < end ==> h[k] == SPACE) && (end == |h| || h[end] != SPACE)
    ensures SkipSpaces(h, i, |h|) == end
    decreases end - i
  {
    if i < end {
      SkipThese(h, i + 1, end);
    }
  }

  // Its name and its value are found.
  lemma HeaderLineParts(name: seq<byte>, k: nat, value: seq<byte>)
    requires COLON !in name && (value == [] || value[0] != SPACE)
    ensures var h := HeaderLine(name, k, value);
      && IndexOf(h, COLON, 0, |h|) == |name| && |name| < |h| && h[0..|name|] == name
      && h[SkipSpaces(h, |name| + 1, |h|)..|h|] == value
  {
    var h := HeaderLine(name, k, value);
    assert h == name + ([COLON] + (Spaces(k) + value));
    FirstColon(name, Spaces(k) + value, 0);
    SkipThese(h, |name| + 1, |name| + 1 + k);
  }

  lemma NameIsPlain(name: seq<byte>, literal: seq<byte>)
    requires Recased(name, literal) && forall i :: 0 <= i < |literal| ==> literal[i] != COLON && literal[i] != LF && literal[i] != 0
    ensures COLON !in name && LF !in name && 0 !in name
  {
  }

  lemma FramingNamesArePlain(name: seq<byte>)
    requires Recased(name, Ascii(LENGTH_NAME)) || Recased(name, Ascii(CODING_NAME))
    ensures COLON !in name && LF !in name && 0 !in name
  {
    if Recased(name, Ascii(LENGTH_NAME)) {
      TheLengthName();
      RecasedVia(name, Ascii(LENGTH_NAME), CONTENT_LENGTH);
      NameIsPlain(name, CONTENT_LENGTH);
    } else {
      TheCodingName();
      RecasedVia(name, Ascii(CODING_NAME), TRANSFER_ENCODING);
      NameIsPlain(name, TRANSFER_ENCODING);
    }
  }

  lemma LengthIsPlain(value: seq<byte>, n: nat)
    requires LengthValue(value, n)
    ensures LF !in value && 0 !in value && value != [] && value[0] != SPACE
  {
    var k: nat :| LengthUpTo(value, n, k);
    DecimalIsRead(value[..k], n);
    forall i | 0 <= i < |value|
      ensures value[i] != LF && value[i] != 0 && (i == 0 ==> value[i] != SPACE)
    {
      if i < k {
        assert value[i] == value[..k][i];
      }
    }
  }

  lemma LineIsPlain(name: seq<byte>, k: nat, value: seq<byte>)
    requires LF !in name && 0 !in name && LF !in value && 0 !in value
    ensures LF !in HeaderLine(name, k, value) && 0 !in HeaderLine(name, k, value) && HeaderLine(name, k, value) != []
  {
    var sp := Spaces(k);
    assert LF !in sp && 0 !in sp;
  }

  predicate PlainLine(h: seq<byte>) {
    10 !in h && 0 !in h && h != []
  }

  // A Content-Length line, its name in any case, frames a response of that length.
  lemma LengthLine(name: seq<byte>, k: nat, value: seq<byte>, n: nat, sizeMax: nat)
    requires Recased(name, Ascii(LENGTH_NAME)) && LengthValue(value, n) && n < U64 && n <= sizeMax
    ensures Frames(HeaderLine(name, k, value), sizeMax, Framing([], true, n, false)) && PlainLine(HeaderLine(name, k, value))
  {
    FramingNamesArePlain(name);
    FramingNames(name);
    LengthIsPlain(value, n);
    HeaderLineParts(name, k, value);
    LengthTaken(value, n, sizeMax);
    LineIsPlain(name, k, value);
  }

  lemma NotBothNames(name: seq<byte>)
    ensures !(Recased(name, Ascii(LENGTH_NAME)) && Recased(name, Ascii(CODING_NAME)))
  {
  }

  // A Transfer-Encoding line whose value names the chunked coding.
  lemma ChunkedLine(name: seq<byte>, k: nat, value: seq<byte>, sizeMax: nat)
    requires Recased(name, Ascii(CODING_NAME)) && NamesChunked(value) && value[0] != SPACE && LF !in value && 0 !in value
    ensures Frames(HeaderLine(name, k, value), sizeMax, Framing([], false, 0, true)) && PlainLine(HeaderLine(name, k, value))
  {
    FramingNamesArePlain(name);
    FramingNames(name);
    NotBothNames(name);
    ChunkedIsNamed(value);
    HeaderLineParts(name, k, value);
    LineIsPlain(name, k, value);
  }

  // ---- Whole responses -------------------------------------------------------------------------------

  // Header lines that say nothing of the framing.
  ghost predicate Others(hs: seq<TextLine>) {
    ValidHeaderLines(hs) && NoNul(hs) && AllNeutral(hs)
  }

  lemma LinesAreValid(a: seq<TextLine>, h: TextLine, b: seq<TextLine>)
    requires Others(a) && Others(b) && GoodLine(h) && PlainLine(h.text)
    ensures ValidHeaderLines(a + ([h] + b)) && NoNul(a + ([h] + b))
  {
  }

  // A version, a space, three digits, and anything.
  predicate StatusLineOf(l: TextLine, status: nat) {
    && GoodLine(l) && status < 1000
    && exists i :: 0 <= i < |l.text| - 3 && l.text[i] == 32 && 32 !in l.text[..i]
                   && l.text[i + 1..i + 4] == [48 + status / 100, 48 + status / 10 % 10, 48 + status % 10]
  }

  lemma {:induction false} FirstSpace(s: seq<byte>, i: nat, k: nat)
    requires k <= i < |s| && s[i] == SPACE && SPACE !in s[..i]
    ensures IndexOf(s, SPACE, k, |s|) == i
    decreases i - k
  {
    if k < i {
      assert s[k] in s[..i];
      FirstSpace(s, i, k + 1);
    }
  }

  lemma StatusIsRead(l: TextLine, status: nat)
    requires StatusLineOf(l, status)
    ensures ValidStatusLine(l) && AfterHeaders(l, []).status == status
  {
    var s := l.text;
    var i :| 0 <= i < |s| - 3 && s[i] == 32 && 32 !in s[..i]
             && s[i + 1..i + 4] == [48 + status / 100, 48 + status / 10 % 10, 48 + status % 10];
    FirstSpace(s, i, 0);
    ThreeDigits(s[i + 1..i + 4], status);
  }

  lemma ThreeDigits(d: seq<byte>, status: nat)
    requires status < 1000 && d == [48 + status / 100, 48 + status / 10 % 10, 48 + status % 10]
    ensures Decimal(d, 0, 0) == status
  {
    assert ShowsDecimal([], 0);
    assert d[..2][..1][..0] == [] && ShowsDecimal(d[..2][..1], status / 10 / 10);
    assert ShowsDecimal(d[..2], status / 10);
    DecimalIsRead(d, status);
  }

  // A status line, any headers, a Content-Length among them, and that many bytes: parsed to
  // exactly those bytes and that status, and done with the last of them.
  lemma LengthResponse(statusLine: TextLine, status: nat, a: seq<TextLine>, h: TextLine, name: seq<byte>, k: nat,
                       value: seq<byte>, b: seq<TextLine>, gap: TextLine, body: seq<byte>, sizeMax: nat)
    requires StatusLineOf(statusLine, status) && Others(a) && Others(b) && EmptyLine(gap)
    requires GoodLine(h) && h.text == HeaderLine(name, k, value)
    requires Recased(name, Ascii(LENGTH_NAME)) && LengthValue(value, |body|)
    requires 0 < |body| < U64 && |body| <= sizeMax
    ensures var head := Head(statusLine, a + ([h] + b), gap);
      var (r, o) := FeedAll(INIT, head + body, sizeMax);
      && o == Finished && r.state.Done? && r.body == body && r.status == status && !r.unframed
      && FeedAll(INIT, head + body[..|body| - 1], sizeMax).1 == More
  {
    StatusIsRead(statusLine, status);
    LengthLine(name, k, value, |body|, sizeMax);
    LinesAreValid(a, h, b);
    OneFrames(a, h, b, sizeMax, Framing([], true, |body|, false));
    LengthRoundTrip(statusLine, a + ([h] + b), gap, body, sizeMax);
  }

  // The same with a length of zero: done with the head.
  lemma EmptyResponse(statusLine: TextLine, status: nat, a: seq<TextLine>, h: TextLine, name: seq<byte>, k: nat,
                      value: seq<byte>, b: seq<TextLine>, gap: TextLine, sizeMax: nat)
    requires StatusLineOf(statusLine, status) && Others(a) && Others(b) && EmptyLine(gap)
    requires GoodLine(h) && h.text == HeaderLine(name, k, value)
    requires Recased(name, Ascii(LENGTH_NAME)) && LengthValue(value, 0)
    ensures var (r, o) := FeedAll(INIT, Head(statusLine, a + ([h] + b), gap), sizeMax);
      o == Finished && r.state.Done? && r.body == [] && r.status == status && !r.unframed
  {
    StatusIsRead(statusLine, status);
    LengthLine(name, k, value, 0, sizeMax);
    LinesAreValid(a, h, b);
    OneFrames(a, h, b, sizeMax, Framing([], true, 0, false));
    HeadAlone(statusLine, a + ([h] + b), gap, sizeMax);
  }

  // And without any line that frames it, but flagged, for its body is not known.
  lemma UnframedResponse(statusLine: TextLine, status: nat, hs: seq<TextLine>, gap: TextLine, sizeMax: nat)
    requires StatusLineOf(statusLine, status) && Others(hs) && EmptyLine(gap)
    ensures var (r, o) := FeedAll(INIT, Head(statusLine, hs, gap), sizeMax);
      o == Finished && r.state.Done? && r.body == [] && r.status == status && r.unframed
  {
    StatusIsRead(statusLine, status);
    PopulateIsBlock(RawOf(hs), 0, INIT.framing, sizeMax);
    BlockIsLines(hs, INIT.framing, ReaderOf(sizeMax));
    NeutralLines(hs, INIT.framing, sizeMax);
    HeadAlone(statusLine, hs, gap, sizeMax);
  }

  lemma HeadAlone(statusLine: TextLine, hs: seq<TextLine>, gap: TextLine, sizeMax: nat)
    requires ValidStatusLine(statusLine) && ValidHeaderLines(hs) && EmptyLine(gap) && FramingOf(hs, sizeMax).Some?
    requires var f := FramingOf(hs, sizeMax).value; !f.chunked && (f.hasLength ==> f.length == 0)
    ensures FeedAll(INIT, Head(statusLine, hs, gap), sizeMax) ==
            (AfterHeaders(statusLine, hs).(framing := FramingOf(hs, sizeMax).value, state := Done,
                                           unframed := !FramingOf(hs, sizeMax).value.hasLength), Finished)
  {
    ReadWholeHead(statusLine, hs, gap, [], sizeMax);
    assert Head(statusLine, hs, gap) + [] == Head(statusLine, hs, gap);
  }

  // A status line, any headers, a chunked Transfer-Encoding among them, and a body cut into
  // chunks in any way, their sizes in digits of any case: parsed to exactly the body, and
  // done with the last byte of the final empty line.
  lemma ChunkedResponse(statusLine: TextLine, status: nat, a: seq<TextLine>, h: TextLine, name: seq<byte>, k: nat,
                        value: seq<byte>, b: seq<TextLine>, gap: TextLine, pieces: seq<seq<byte>>, cs: seq<Chunk>,
                        zero: TextLine, last: TextLine, sizeMax: nat)
    requires StatusLineOf(statusLine, status) && Others(a) && Others(b) && EmptyLine(gap)
    requires GoodLine(h) && h.text == HeaderLine(name, k, value) && Recased(name, Ascii(CODING_NAME))
    requires NamesChunked(value) && value[0] != SPACE && LF !in value && 0 !in value
    requires ValidChunks(cs) && Carry(cs, pieces) && GoodLine(zero) && SizeLine(zero.text, 0) && EmptyLine(last)
    ensures var head := Head(statusLine, a + ([h] + b), gap);
      var wire := ChunkedHead(cs, zero, []);
      var (r, o) := FeedAll(INIT, head + (wire + Line(last)), sizeMax);
      && o == Finished && r.state.Done? && r.body == Concat(pieces) && r.status == status
      && !r.unframed && FeedAll(INIT, head + (wire + Line(last)[..|Line(last)| - 1]), sizeMax).1 == More
  {
    StatusIsRead(statusLine, status);
    ChunkedLine(name, k, value, sizeMax);
    LinesAreValid(a, h, b);
    OneFrames(a, h, b, sizeMax, Framing([], false, 0, true));
    AfterChunkedHead(statusLine, a + ([h] + b), gap, pieces, cs, zero, last, sizeMax);
  }

  lemma AfterChunkedHead(statusLine: TextLine, hs: seq<TextLine>, gap: TextLine, pieces: seq<seq<byte>>,
                         cs: seq<Chunk>, zero: TextLine, last: TextLine, sizeMax: nat)
    requires ValidStatusLine(statusLine) && ValidHeaderLines(hs) && EmptyLine(gap) && FramingOf(hs, sizeMax).Some?
    requires FramingOf(hs, sizeMax).value.chunked
    requires ValidChunks(cs) && Carry(cs, pieces) && GoodLine(zero) && SizeLine(zero.text, 0) && EmptyLine(last)
    ensures var wire := ChunkedHead(cs, zero, []);
      var t := AfterHeaders(statusLine, hs).(framing := FramingOf(hs, sizeMax).value, state := Done, body := Concat(pieces));
      && FeedAll(INIT, Head(statusLine, hs, gap) + (wire + Line(last)), sizeMax) == (t, Finished)
      && FeedAll(INIT, Head(statusLine, hs, gap) + (wire + Line(last)[..|Line(last)| - 1]), sizeMax).1 == More
  {
    var wire := ChunkedHead(cs, zero, []);
    var r := AfterHeaders(statusLine, hs).(framing := FramingOf(hs, sizeMax).value, state := ChunkSize);
    ReadWholeHead(statusLine, hs, gap, wire + Line(last), sizeMax);
    ReadWholeHead(statusLine, hs, gap, wire + Line(last)[..|Line(last)| - 1], sizeMax);
    EveryCuttingRoundTrips(r, pieces, cs, zero, last, sizeMax);
    assert [] + Concat(pieces) == Concat(pieces);
  }

  // ---- The headers that are kept -------------------------------------------------------------------

  // A name, spaces and a value.
  datatype Field = Field(name: seq<byte>, spaces: nat, value: seq<byte>)

  predicate GoodField(f: Field) {
    58 !in f.name && (f.value == [] || f.value[0] != 32)
  }

  // The line shows this field.
  predicate Shows(h: TextLine, f: Field) {
    GoodField(f) && h.text == HeaderLine(f.name, f.spaces, f.value)
  }

  predicate AllShow(hs: seq<TextLine>, fs: seq<Field>) {
    |hs| == |fs| && forall i :: 0 <= i < |hs| ==> Shows(hs[i], fs[i])
  }

  function Kept(fs: seq<Field>): seq<Header> {
    seq(|fs|, i requires 0 <= i < |fs| => Header(fs[i].name, fs[i].value))
  }

  function Most(hs: seq<Header>, n: nat): seq<Header> {
    if |hs| <= n then hs else hs[..n]
  }

  lemma LineIsKept(h: TextLine, x: Field, f: Framing, sizeMax: nat)
    requires Shows(h, x) && |f.headers| <= 32
    ensures LineEffect(h.text, f, sizeMax).0.headers == Most(f.headers + [Header(x.name, x.value)], 32)
  {
    HeaderLineParts(x.name, x.spaces, x.value);
  }

  lemma {:induction false} LinesAreKept(hs: seq<TextLine>, fs: seq<Field>, f: Framing, sizeMax: nat)
    requires AllShow(hs, fs) && LinesSay(hs, f, ReaderOf(sizeMax)).1.None? && |f.headers| <= 32
    ensures LinesSay(hs, f, ReaderOf(sizeMax)).0.headers == Most(f.headers + Kept(fs), 32)
    decreases |hs|
  {
    if hs == [] {
      assert f.headers + Kept(fs) == f.headers;
    } else {
      var x, g := fs[0], LineEffect(hs[0].text, f, sizeMax).0;
      LineIsKept(hs[0], x, f, sizeMax);
      LinesAreKept(hs[1..], fs[1..], g, sizeMax);
      MostOf(f.headers, Header(x.name, x.value), Kept(fs[1..]), 32);
      assert Kept(fs) == [Header(x.name, x.value)] + Kept(fs[1..]);
    }
  }

  lemma MostOf(a: seq<Header>, x: Header, b: seq<Header>, n: nat)
    requires |a| <= n
    ensures Most(Most(a + [x], n) + b, n) == Most(a + ([x] + b), n)
  {
    assert a + [x] + b == a + ([x] + b);
  }

  // The names and values of the first 32 header lines are kept, in order.
  lemma HeadersAreKept(hs: seq<TextLine>, fs: seq<Field>, sizeMax: nat)
    requires NoNul(hs) && AllShow(hs, fs) && FramingOf(hs, sizeMax).Some?
    ensures FramingOf(hs, sizeMax).value.headers == Most(Kept(fs), 32)
  {
    PopulateIsBlock(RawOf(hs), 0, INIT.framing, sizeMax);
    BlockIsLines(hs, INIT.framing, ReaderOf(sizeMax));
    LinesAreKept(hs, fs, INIT.framing, sizeMax);
    assert [] + Kept(fs) == Kept(fs);
  }
}
