// Chunked and Content-Length framing (sections 4.1 and 3.3.3 of RFC 7230): the
// parser gives back the body that was framed, and is done exactly at its end.

module HttpRoundTrip {
  import opened Bytes
  import opened HttpNumbers
  import opened HttpParser
  import opened HttpSpec

  // A line on the wire: its text, and a carriage return and a line feed, or a line feed alone.
  datatype TextLine = TextLine(text: seq<byte>, end: seq<byte>)

  predicate NoLf(s: seq<byte>) {
    10 !in s
  }

  predicate GoodLine(l: TextLine) {
    NoLf(l.text) && (l.end == [13, 10] || (l.end == [10] && (l.text == [] || l.text[|l.text| - 1] != 13)))
  }

  function Line(l: TextLine): seq<byte> {
    l.text + l.end
  }

  predicate EmptyLine(l: TextLine) {
    GoodLine(l) && l.text == []
  }

  // A chunk on the wire: a size line (digits in any case, leading zeros and a chunk
  // extension allowed), the data, which may hold anything, and an empty line.
  datatype Chunk = Chunk(sizeLine: TextLine, data: seq<byte>, last: TextLine)

  ghost predicate ValidChunk(c: Chunk) {
    && GoodLine(c.sizeLine) && 0 < |c.data| < U64 && SizeLine(c.sizeLine.text, |c.data|) && EmptyLine(c.last)
  }

  ghost predicate ValidChunks(cs: seq<Chunk>) {
    forall c :: c in cs ==> ValidChunk(c)
  }

  function Joined(cs: seq<Chunk>): seq<byte> {
    if cs == [] then [] else cs[0].data + Joined(cs[1..])
  }

  // Every chunk, its size line before it and an empty line after it.
  function Chunked(cs: seq<Chunk>): seq<byte> {
    if cs == [] then [] else Line(cs[0].sizeLine) + cs[0].data + Line(cs[0].last) + Chunked(cs[1..])
  }

  function Trailers(ts: seq<TextLine>): seq<byte> {
    if ts == [] then [] else Line(ts[0]) + Trailers(ts[1..])
  }

  predicate ValidTrailers(ts: seq<TextLine>) {
    forall t :: t in ts ==> GoodLine(t) && t.text != []
  }

  lemma Regroup(a: seq<byte>, b: seq<byte>, c: seq<byte>)
    ensures a + b + c == a + (b + c) && a + [] == a
  {
  }

  // ---- Reading one line ---------------------------------------------------------

  lemma NoLfBefore(s: seq<byte>, end: seq<byte>)
    requires NoLf(s) && |end| > 0 && forall k :: 0 <= k < |end| - 1 ==> end[k] != LF
    ensures forall k :: 0 <= k < |s + end| - 1 ==> (s + end)[k] != LF
  {
    forall k | 0 <= k < |s + end| - 1
      ensures (s + end)[k] != LF
    {
      if k < |s| {
        assert s[k] in s;
      }
    }
  }

  lemma EndStripped(l: TextLine)
    requires GoodLine(l)
    ensures var d := Line(l); |d| > 0 && d[|d| - 1] == LF && StripCr(d[..|d| - 1]) == l.text
    ensures forall k :: 0 <= k < |Line(l)| - 1 ==> Line(l)[k] != LF
  {
    var d := Line(l);
    NoLfBefore(l.text, l.end);
    if l.end == [13, 10] {
      assert d[..|d| - 1] == l.text + [13];
    } else {
      assert d[..|d| - 1] == l.text;
    }
  }

  // A line that starts with nothing open is handed over whole, without its end.
  lemma ReadLine(r: Response, l: TextLine, sizeMax: nat)
    requires Valid(r) && LineState(r.state) && r.line == [] && GoodLine(l)
    ensures FeedFrom(r, Line(l), 0, sizeMax) == EndOfLine(r.(line := l.text), sizeMax)
  {
    EndStripped(l);
    ReadBytes(r, Line(l), l.text, sizeMax);
  }

  lemma ReadBytes(r: Response, d: seq<byte>, text: seq<byte>, sizeMax: nat)
    requires Valid(r) && LineState(r.state) && r.line == []
    requires |d| > 0 && d[|d| - 1] == LF && StripCr(d[..|d| - 1]) == text && forall k :: 0 <= k < |d| - 1 ==> d[k] != LF
    ensures FeedFrom(r, d, 0, sizeMax) == EndOfLine(r.(line := text), sizeMax)
  {
    var n := |d| - 1;
    LineRun(r, d, 0, n, sizeMax);
    assert r.line + d[0..n] == d[..n];
    var t := r.(line := d[..n]);
    assert FeedByte(t, d[n], sizeMax) == EndOfLine(t.(line := text), sizeMax);
  }

  // ... and if more input follows, reading goes on there.
  lemma ReadLineThen(r: Response, l: TextLine, rest: seq<byte>, sizeMax: nat)
    requires Valid(r) && LineState(r.state) && r.line == [] && GoodLine(l)
    ensures FeedFrom(r, Line(l) + rest, 0, sizeMax) ==
            var (t, o) := EndOfLine(r.(line := l.text), sizeMax);
            if o.More? then FeedFrom(t, rest, 0, sizeMax) else (t, o)
  {
    ReadLine(r, l, sizeMax);
    FeedFromSplit(r, Line(l), rest, 0, sizeMax);
  }

  // A line without its last byte is not read yet.
  lemma ReadPart(r: Response, l: TextLine, sizeMax: nat)
    requires Valid(r) && LineState(r.state) && r.line == [] && GoodLine(l)
    ensures FeedFrom(r, Line(l)[..|Line(l)| - 1], 0, sizeMax).1 == More
  {
    var d := Line(l)[..|Line(l)| - 1];
    EndStripped(l);
    LineRun(r, d, 0, |d|, sizeMax);
  }

  // ---- Chunks -----------------------------------------------------------------------

  predicate AtChunkSize(r: Response) {
    Valid(r) && r.state.ChunkSize? && r.line == []
  }

  // One chunk and its line end append its data.
  lemma ReadChunk(r: Response, c: Chunk, rest: seq<byte>, sizeMax: nat)
    requires AtChunkSize(r) && ValidChunk(c)
    ensures FeedFrom(r, Line(c.sizeLine) + c.data + Line(c.last) + rest, 0, sizeMax)
            == FeedFrom(r.(body := r.body + c.data, remaining := 0), rest, 0, sizeMax)
  {
    var tail := c.data + (Line(c.last) + rest);
    assert Line(c.sizeLine) + c.data + Line(c.last) + rest == Line(c.sizeLine) + tail;
    SizeIsRead(c.sizeLine.text, |c.data|);
    ReadLineThen(r, c.sizeLine, tail, sizeMax);
    var t := r.(state := ChunkData, remaining := |c.data|);
    var u := r.(state := ChunkCrlf, remaining := 0, body := r.body + c.data);
    ChunkEnd(t, c.data, 0, |c.data|, sizeMax);
    assert c.data[0..|c.data|] == c.data;
    FeedFromSplit(t, c.data, Line(c.last) + rest, 0, sizeMax);
    ReadLineThen(u, c.last, rest, sizeMax);
  }

  lemma ChunkedStep(cs: seq<Chunk>, rest: seq<byte>)
    requires cs != []
    ensures Chunked(cs) + rest
            == Line(cs[0].sizeLine) + cs[0].data + Line(cs[0].last) + (Chunked(cs[1..]) + rest)
  {
  }

  lemma {:induction false} ReadChunks(r: Response, cs: seq<Chunk>, rest: seq<byte>, sizeMax: nat)
    requires AtChunkSize(r) && ValidChunks(cs) && r.remaining == 0
    ensures FeedFrom(r, Chunked(cs) + rest, 0, sizeMax)
            == FeedFrom(r.(body := r.body + Joined(cs)), rest, 0, sizeMax)
    decreases |cs|
  {
    if cs == [] {
      assert Chunked(cs) + rest == rest && r.body + Joined(cs) == r.body;
    } else {
      var c, r' := cs[0], r.(body := r.body + cs[0].data);
      ReadChunk(r, c, Chunked(cs[1..]) + rest, sizeMax);
      ChunkedStep(cs, rest);
      ReadChunks(r', cs[1..], rest, sizeMax);
      Regroup(r.body, c.data, Joined(cs[1..]));
    }
  }

  lemma {:induction false} ReadTrailers(r: Response, ts: seq<TextLine>, rest: seq<byte>, sizeMax: nat)
    requires Valid(r) && r.state.ChunkTrailer? && r.line == [] && ValidTrailers(ts)
    ensures FeedFrom(r, Trailers(ts) + rest, 0, sizeMax) == FeedFrom(r, rest, 0, sizeMax)
    decreases |ts|
  {
    if ts == [] {
      assert Trailers(ts) + rest == rest;
    } else {
      assert Trailers(ts) + rest == Line(ts[0]) + (Trailers(ts[1..]) + rest);
      ReadLineThen(r, ts[0], Trailers(ts[1..]) + rest, sizeMax);
      ReadTrailers(r, ts[1..], rest, sizeMax);
    }
  }

  // The whole chunked body: chunks, a zero size line, trailers.
  function ChunkedHead(cs: seq<Chunk>, zero: TextLine, ts: seq<TextLine>): seq<byte> {
    Chunked(cs) + (Line(zero) + Trailers(ts))
  }

  lemma ReadChunkedHead(r: Response, cs: seq<Chunk>, zero: TextLine, ts: seq<TextLine>, rest: seq<byte>,
                        sizeMax: nat)
    requires AtChunkSize(r) && ValidChunks(cs) && r.remaining == 0
    requires GoodLine(zero) && SizeLine(zero.text, 0) && ValidTrailers(ts)
    ensures FeedFrom(r, ChunkedHead(cs, zero, ts) + rest, 0, sizeMax)
            == FeedFrom(r.(body := r.body + Joined(cs), state := ChunkTrailer), rest, 0, sizeMax)
  {
    var r' := r.(body := r.body + Joined(cs));
    assert ChunkedHead(cs, zero, ts) + rest == Chunked(cs) + (Line(zero) + (Trailers(ts) + rest));
    ReadChunks(r, cs, Line(zero) + (Trailers(ts) + rest), sizeMax);
    SizeIsRead(zero.text, 0);
    ReadLineThen(r', zero, Trailers(ts) + rest, sizeMax);
    ReadTrailers(r'.(state := ChunkTrailer), ts, rest, sizeMax);
  }

  // The body comes back, whatever bytes it holds, and the parser is done with the
  // last byte of the final empty line and not before.
  lemma ChunkedRoundTrip(r: Response, cs: seq<Chunk>, zero: TextLine, ts: seq<TextLine>, last: TextLine, sizeMax: nat)
    requires AtChunkSize(r) && ValidChunks(cs) && r.remaining == 0
    requires GoodLine(zero) && SizeLine(zero.text, 0) && ValidTrailers(ts) && EmptyLine(last)
    ensures var wire := ChunkedHead(cs, zero, ts);
            && FeedAll(r, wire + Line(last), sizeMax)
               == (r.(body := r.body + Joined(cs), state := Done), Finished)
            && FeedAll(r, wire + Line(last)[..|Line(last)| - 1], sizeMax).1 == More
  {
    var t := r.(body := r.body + Joined(cs), state := ChunkTrailer);
    ReadChunkedHead(r, cs, zero, ts, Line(last), sizeMax);
    ReadLine(t, last, sizeMax);
    ReadChunkedHead(r, cs, zero, ts, Line(last)[..|Line(last)| - 1], sizeMax);
    ReadPart(t, last, sizeMax);
  }

  // A size that does not fit 64 bits is refused, not wrapped.
  lemma ChunkSizeOverflowIsRefused(r: Response, l: TextLine, n: nat, rest: seq<byte>, sizeMax: nat)
    requires AtChunkSize(r) && GoodLine(l) && SizeLine(l.text, n) && n >= 0x1_0000_0000_0000_0000
    ensures FeedAll(r, Line(l) + rest, sizeMax).1 == Failed(Malformed)
  {
    SizeIsRead(l.text, n);
    ReadLineThen(r, l, rest, sizeMax);
  }

  // Data that does not end with its chunk is refused: a line with text stands where the
  // empty line should.
  lemma ChunkTooLongIsRefused(r: Response, l: TextLine, data: seq<byte>, more: TextLine, rest: seq<byte>, sizeMax: nat)
    requires AtChunkSize(r) && GoodLine(l) && 0 < |data| < U64 && SizeLine(l.text, |data|)
    requires GoodLine(more) && more.text != []
    ensures FeedAll(r, Line(l) + data + Line(more) + rest, sizeMax).1 == Failed(Malformed)
  {
    var tail := data + (Line(more) + rest);
    assert Line(l) + data + Line(more) + rest == Line(l) + tail;
    SizeIsRead(l.text, |data|);
    ReadLineThen(r, l, tail, sizeMax);
    var t := r.(state := ChunkData, remaining := |data|);
    var u := r.(state := ChunkCrlf, remaining := 0, body := r.body + data);
    ChunkEnd(t, data, 0, |data|, sizeMax);
    assert data[0..|data|] == data;
    FeedFromSplit(t, data, Line(more) + rest, 0, sizeMax);
    ReadLineThen(u, more, rest, sizeMax);
  }

  // Nothing before the end of what finishes a response finishes it.
  lemma EarlierIsNotFinished(r: Response, a: seq<byte>, b: seq<byte>, sizeMax: nat)
    requires Valid(r) && FeedAll(r, a, sizeMax).1.More?
    ensures forall k :: 0 <= k <= |a| ==> FeedAll(r, a[..k], sizeMax).1.More?
  {
    forall k | 0 <= k <= |a|
      ensures FeedAll(r, a[..k], sizeMax).1.More?
    {
      assert a == a[..k] + a[k..];
      FeedFromSplit(r, a[..k], a[k..], 0, sizeMax);
    }
  }

  // ---- Every cutting of a body ---------------------------------------------------

  // The chunks carry these pieces.
  predicate Carry(cs: seq<Chunk>, pieces: seq<seq<byte>>) {
    |cs| == |pieces| && forall i :: 0 <= i < |cs| ==> cs[i].data == pieces[i]
  }

  lemma {:induction false} CarriedIsJoined(cs: seq<Chunk>, pieces: seq<seq<byte>>)
    requires Carry(cs, pieces)
    ensures Joined(cs) == Concat(pieces)
    decreases |cs|
  {
    if cs != [] {
      CarriedIsJoined(cs[1..], pieces[1..]);
    }
  }

  // For every body, every cutting of it into chunks, and every way to write the sizes.
  lemma EveryCuttingRoundTrips(r: Response, pieces: seq<seq<byte>>, cs: seq<Chunk>, zero: TextLine, last: TextLine, sizeMax: nat)
    requires AtChunkSize(r) && r.remaining == 0 && ValidChunks(cs) && Carry(cs, pieces)
    requires GoodLine(zero) && SizeLine(zero.text, 0) && EmptyLine(last)
    ensures var wire := ChunkedHead(cs, zero, []);
            && FeedAll(r, wire + Line(last), sizeMax)
               == (r.(body := r.body + Concat(pieces), state := Done), Finished)
            && FeedAll(r, wire + Line(last)[..|Line(last)| - 1], sizeMax).1 == More
  {
    CarriedIsJoined(cs, pieces);
    ChunkedRoundTrip(r, cs, zero, [], last, sizeMax);
  }

  function PlainChunks(pieces: seq<seq<byte>>, upper: nat -> bool): seq<Chunk> {
    seq(|pieces|, i requires 0 <= i < |pieces| =>
      Chunk(TextLine(Hex(|pieces[i]|, upper, 0), [13, 10]), pieces[i], TextLine([], [13, 10])))
  }

  lemma HexIsSizeLine(n: nat, upper: nat -> bool)
    ensures SizeLine(Hex(n, upper, 0), n) && GoodLine(TextLine(Hex(n, upper, 0), [13, 10]))
  {
    var s := Hex(n, upper, 0);
    HexShows(n, upper, 0);
    HexIsRead(s, n);
    assert s[..|s|] == s;
    assert SizeUpTo(s, n, |s|);
  }

  // And every body can be sent so, cut in any way, the sizes in hexadecimal of any case.
  lemma PlainChunksCarry(pieces: seq<seq<byte>>, upper: nat -> bool)
    requires forall p :: p in pieces ==> 0 < |p| < U64
    ensures ValidChunks(PlainChunks(pieces, upper)) && Carry(PlainChunks(pieces, upper), pieces)
  {
    forall c | c in PlainChunks(pieces, upper)
      ensures ValidChunk(c)
    {
      assert c.data in pieces;
      HexIsSizeLine(|c.data|, upper);
    }
  }

  // ---- Whole responses ---------------------------------------------------------------

  // The texts one after the other, each ended by a NUL.
  function RawOf(hs: seq<TextLine>): (r: seq<byte>)
    ensures Terminated(r)
  {
    if hs == [] then [] else RawOf(hs[..|hs| - 1]) + hs[|hs| - 1].text + [0]
  }

  function HeaderLines(hs: seq<TextLine>): seq<byte> {
    if hs == [] then [] else HeaderLines(hs[..|hs| - 1]) + Line(hs[|hs| - 1])
  }

  predicate ValidStatusLine(l: TextLine) {
    GoodLine(l) && IndexOf(l.text, SPACE, 0, |l.text|) + 4 <= |l.text|
  }

  predicate ValidHeaderLines(hs: seq<TextLine>) {
    forall h :: h in hs ==> GoodLine(h) && h.text != []
  }

  // The parser after the status line and some header lines.
  function AfterHeaders(statusLine: TextLine, hs: seq<TextLine>): Response
    requires ValidStatusLine(statusLine)
  {
    var s := statusLine.text;
    var i := IndexOf(s, SPACE, 0, |s|);
    INIT.(state := Headers, status := Decimal(s[i + 1..i + 4], 0, 0), raw := RawOf(hs))
  }

  lemma {:induction false} ReadHead(statusLine: TextLine, hs: seq<TextLine>, rest: seq<byte>, sizeMax: nat)
    requires ValidStatusLine(statusLine) && ValidHeaderLines(hs)
    ensures FeedFrom(INIT, Line(statusLine) + HeaderLines(hs) + rest, 0, sizeMax)
            == FeedFrom(AfterHeaders(statusLine, hs), rest, 0, sizeMax)
    decreases |hs|
  {
    if hs == [] {
      Regroup(Line(statusLine), [], rest);
      ReadLineThen(INIT, statusLine, rest, sizeMax);
    } else {
      var init, h := hs[..|hs| - 1], hs[|hs| - 1];
      Regroup(Line(statusLine), HeaderLines(init), Line(h));
      Regroup(Line(statusLine) + HeaderLines(init), Line(h), rest);
      ReadHead(statusLine, init, Line(h) + rest, sizeMax);
      ReadLineThen(AfterHeaders(statusLine, init), h, rest, sizeMax);
    }
  }

  // What the header block says, if it is acceptable.
  function FramingOf(hs: seq<TextLine>, sizeMax: nat): Option<Framing> {
    var (f, err) := Populate(RawOf(hs), 0, Framing([], false, 0, false), sizeMax);
    if err.None? then Some(f) else None
  }

  // The head of a response, the empty line included.
  function Head(statusLine: TextLine, hs: seq<TextLine>, gap: TextLine): seq<byte> {
    Line(statusLine) + HeaderLines(hs) + Line(gap)
  }

  // Reading a whole header block, including the empty line.
  lemma ReadWholeHead(statusLine: TextLine, hs: seq<TextLine>, gap: TextLine, rest: seq<byte>, sizeMax: nat)
    requires ValidStatusLine(statusLine) && ValidHeaderLines(hs) && EmptyLine(gap)
    ensures FeedAll(INIT, Head(statusLine, hs, gap) + rest, sizeMax) ==
            var (t, o) := EndOfHeaders(AfterHeaders(statusLine, hs), sizeMax);
            if o.More? then FeedFrom(t, rest, 0, sizeMax) else (t, o)
  {
    assert Head(statusLine, hs, gap) + rest == Line(statusLine) + HeaderLines(hs) + (Line(gap) + rest);
    ReadHead(statusLine, hs, Line(gap) + rest, sizeMax);
    ReadLineThen(AfterHeaders(statusLine, hs), gap, rest, sizeMax);
  }

  // A Content-Length response gives back its body and is done with its last byte.
  lemma LengthRoundTrip(statusLine: TextLine, hs: seq<TextLine>, gap: TextLine, body: seq<byte>, sizeMax: nat)
    requires ValidStatusLine(statusLine) && ValidHeaderLines(hs) && EmptyLine(gap) && body != []
    requires FramingOf(hs, sizeMax).Some?
    requires var f := FramingOf(hs, sizeMax).value; !f.chunked && f.hasLength && f.length == |body|
    ensures FeedAll(INIT, Head(statusLine, hs, gap) + body, sizeMax)
            == (AfterHeaders(statusLine, hs).(framing := FramingOf(hs, sizeMax).value, state := Done, body := body),
                Finished)
    ensures FeedAll(INIT, Head(statusLine, hs, gap) + body[..|body| - 1], sizeMax).1 == More
  {
    ReadWholeHead(statusLine, hs, gap, body, sizeMax);
    ReadWholeHead(statusLine, hs, gap, body[..|body| - 1], sizeMax);
    var t := AfterHeaders(statusLine, hs).(framing := FramingOf(hs, sizeMax).value, state := Body);
    BodyEnd(t, body, 0, |body|, sizeMax);
    assert [] + body[0..|body|] == body;
    BodyRun(t, body[..|body| - 1], 0, |body| - 1, sizeMax);
  }

  // A response whose headers name no length at all is done at once, and flagged.
  lemma UnframedIsFlagged(statusLine: TextLine, hs: seq<TextLine>, gap: TextLine, rest: seq<byte>, sizeMax: nat)
    requires ValidStatusLine(statusLine) && ValidHeaderLines(hs) && EmptyLine(gap) && FramingOf(hs, sizeMax).Some?
    requires !FramingOf(hs, sizeMax).value.chunked
    ensures var f := FramingOf(hs, sizeMax).value;
            var (r, o) := FeedAll(INIT, Head(statusLine, hs, gap) + rest, sizeMax);
            (!f.hasLength || f.length == 0 ==> o == Finished && r.body == [])
            && (o == Finished && r.unframed <==> !f.hasLength)
  {
    ReadWholeHead(statusLine, hs, gap, rest, sizeMax);
    var f := FramingOf(hs, sizeMax).value;
    if f.hasLength && f.length > 0 {
      NeverUnframed(AfterHeaders(statusLine, hs).(framing := f, state := Body), rest, 0, sizeMax);
    }
  }

  lemma {:induction false} NeverUnframed(r: Response, data: seq<byte>, i: nat, sizeMax: nat)
    requires Valid(r) && i <= |data| && (r.state.Body? || r.state.Done?) && !r.unframed
    ensures !FeedFrom(r, data, i, sizeMax).0.unframed
    decreases |data| - i
  {
    if i < |data| {
      var (s, o) := FeedByte(r, data[i], sizeMax);
      if o.More? {
        NeverUnframed(s, data, i + 1, sizeMax);
      }
    }
  }
}
