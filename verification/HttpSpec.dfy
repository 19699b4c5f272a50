// The HTTP/1.1 response parser one byte at a time: the meaning that every way of
// cutting the input must agree with.

module HttpSpec {
  import opened Bytes

  const LF: byte := 10
  const CR: byte := 13
  const SPACE: byte := 32
  const COLON: byte := 58
  const MAX_HEADERS: nat := 32
  // "content-length", "transfer-encoding" and "chunked" in lower case.
  const CONTENT_LENGTH: seq<byte> :=
    [99, 111, 110, 116, 101, 110, 116, 45, 108, 101, 110, 103, 116, 104]
  const TRANSFER_ENCODING: seq<byte> :=
    [116, 114, 97, 110, 115, 102, 101, 114, 45, 101, 110, 99, 111, 100, 105, 110, 103]
  const CHUNKED: seq<byte> := [99, 104, 117, 110, 107, 101, 100]

  datatype State =
    | StatusLine
    | Headers
    | Body
    | ChunkSize
    | ChunkData
    | ChunkCrlf
    | ChunkTrailer
    | Done

  datatype Header = Header(name: seq<byte>, value: seq<byte>)

  // The framing fields populate_headers fills in.
  datatype Framing = Framing(headers: seq<Header>, hasLength: bool, length: nat, chunked: bool)

  datatype Response = Response(
    state: State,
    status: nat,
    framing: Framing,
    remaining: nat,
    unframed: bool,
    raw: seq<byte>,
    body: seq<byte>,
    line: seq<byte>)

  const INIT: Response := Response(StatusLine, 0, Framing([], false, 0, false), 0, false, [], [], [])

  // What one byte, or a whole feed, came to.
  datatype Outcome = More | Finished | Failed(error: Error)

  // ---- Numbers ----------------------------------------------------------------

  function HexDigit(c: byte): Option<nat> {
    if 48 <= c <= 57 then Some(c - 48)
    else if 97 <= c <= 102 then Some(c - 97 + 10)
    else if 65 <= c <= 70 then Some(c - 65 + 10)
    else None
  }

  // The value, without any bound, of the leading decimal digits of s after v.
  function Decimal(s: seq<byte>, i: nat, v: nat): (r: nat)
    requires i <= |s|
    ensures r >= v
    decreases |s| - i
  {
    if i == |s| || !IsDigit(s[i]) then v else Decimal(s, i + 1, v * 10 + (s[i] - 48))
  }

  function Hexadecimal(s: seq<byte>, i: nat, v: nat): (r: nat)
    requires i <= |s|
    ensures r >= v
    decreases |s| - i
  {
    if i == |s| || HexDigit(s[i]).None? then v
    else Hexadecimal(s, i + 1, v * 16 + HexDigit(s[i]).value)
  }

  // ---- Headers ------------------------------------------------------------------

  function Lower(c: byte): byte {
    if 65 <= c <= 90 then c + 32 else c
  }

  predicate NameEq(name: seq<byte>, literal: seq<byte>) {
    |name| == |literal| && forall i :: 0 <= i < |name| ==> Lower(name[i]) == Lower(literal[i])
  }

  predicate LiesAtCi(value: seq<byte>, i: nat, needle: seq<byte>) {
    i + |needle| <= |value| && NameEq(value[i..i + |needle|], needle)
  }

  predicate ContainsCi(value: seq<byte>, needle: seq<byte>) {
    |needle| > 0 && exists i: nat | i <= |value| :: LiesAtCi(value, i, needle)
  }

  // The first index from i on holding c, or `end`.
  function IndexOf(s: seq<byte>, c: byte, i: nat, end: nat): (r: nat)
    requires i <= end <= |s|
    ensures i <= r <= end
    ensures forall k :: i <= k < r ==> s[k] != c
    ensures r < end ==> s[r] == c
    decreases end - i
  {
    if i == end || s[i] == c then i else IndexOf(s, c, i + 1, end)
  }

  function SkipSpaces(s: seq<byte>, i: nat, end: nat): (r: nat)
    requires i <= end <= |s|
    ensures i <= r <= end
    decreases end - i
  {
    if i < end && s[i] == SPACE then SkipSpaces(s, i + 1, end) else i
  }

  function DigitsEnd(s: seq<byte>, i: nat): (r: nat)
    requires i <= |s|
    ensures i <= r <= |s|
    decreases |s| - i
  {
    if i < |s| && IsDigit(s[i]) then DigitsEnd(s, i + 1) else i
  }

  // Digits, then only spaces, and a value the platform can hold: what is stored in
  // the length field, and the error if any.
  function ContentLength(value: seq<byte>, sizeMax: nat): (Option<nat>, Option<Error>) {
    var d, v := DigitsEnd(value, 0), Decimal(value, 0, 0);
    if d == 0 || SkipSpaces(value, d, |value|) != |value| then (None, Some(Malformed))
    else if v >= U64 then (Some(0), Some(Malformed))
    else (Some(v), if v > sizeMax then Some(TooLong) else None)
  }

  // One header.
  function HeaderSays(name: seq<byte>, value: seq<byte>, f: Framing, sizeMax: nat): (Framing, Option<Error>) {
    var g := if |f.headers| < MAX_HEADERS then f.(headers := f.headers + [Header(name, value)]) else f;
    if NameEq(name, CONTENT_LENGTH) then
      var (len, err) := ContentLength(value, sizeMax);
      (g.(length := if len.Some? then len.value else g.length, hasLength := err.None? || g.hasLength), err)
    else if NameEq(name, TRANSFER_ENCODING) then
      (g.(chunked := g.chunked || ContainsCi(value, CHUNKED)), None)
    else (g, None)
  }

  // One header line raw[p..e], whose colon is at c.
  function OneHeader(raw: seq<byte>, p: nat, c: nat, e: nat, f: Framing, sizeMax: nat)
    : (Framing, Option<Error>)
    requires p <= c < e <= |raw|
  {
    HeaderSays(raw[p..c], raw[SkipSpaces(raw, c + 1, e)..e], f, sizeMax)
  }

  predicate Terminated(raw: seq<byte>) {
    raw == [] || raw[|raw| - 1] == 0
  }

  // The header block from p on, lines ended by a NUL each.
  function Populate(raw: seq<byte>, p: nat, f: Framing, sizeMax: nat): (Framing, Option<Error>)
    requires p <= |raw| && Terminated(raw)
    decreases |raw| - p
  {
    if p == |raw| then (f, None) else
    var e := IndexOf(raw, 0, p, |raw|);
    var c := IndexOf(raw, COLON, p, e);
    var (g, err) := if c == e then (f, None) else OneHeader(raw, p, c, e, f, sizeMax);
    if err.Some? then (g, err) else Populate(raw, e + 1, g, sizeMax)
  }

  // ---- One byte -------------------------------------------------------------------

  predicate LineState(s: State) {
    !s.Body? && !s.ChunkData? && !s.Done?
  }

  // In the two counted states some bytes are outstanding and no line is open; the
  // body is empty until the headers are over; header lines are NUL-terminated.
  predicate Valid(r: Response) {
    && (r.state.Body? ==> |r.body| < r.framing.length && r.line == [])
    && (r.state.ChunkData? ==> r.remaining > 0 && r.line == [])
    && (r.state.StatusLine? || r.state.Headers? ==> r.body == [])
    && Terminated(r.raw)
  }

  function StripCr(line: seq<byte>): seq<byte> {
    if |line| > 0 && line[|line| - 1] == CR then line[..|line| - 1] else line
  }

  // After the empty line that ends the headers.
  function EndOfHeaders(r: Response, sizeMax: nat): (p: (Response, Outcome))
    requires Valid(r) && r.state.Headers?
    ensures Valid(p.0)
  {
    var (f, err) := Populate(r.raw, 0, Framing([], false, r.framing.length, false), sizeMax);
    var s := r.(framing := f, line := []);
    if err.Some? then (s, Failed(err.value))
    else if f.chunked then (s.(state := ChunkSize), More)
    else if f.hasLength && f.length > 0 then (s.(state := Body), More)
    else (s.(state := Done, unframed := if f.hasLength then s.unframed else true), Finished)
  }

  // A complete line, without its line end, in r.line.
  function EndOfLine(r: Response, sizeMax: nat): (p: (Response, Outcome))
    requires LineState(r.state) && Valid(r)
    ensures Valid(p.0)
  {
    match r.state
    case StatusLine =>
      var i := IndexOf(r.line, SPACE, 0, |r.line|);
      if i == |r.line| || |r.line| - (i + 1) < 3 then (r, Failed(Malformed))
      else (r.(status := Decimal(r.line[i + 1..i + 4], 0, 0), line := [], state := Headers), More)
    case Headers =>
      if r.line == [] then EndOfHeaders(r, sizeMax)
      else (r.(raw := r.raw + r.line + [0], line := []), More)
    case ChunkSize =>
      var v := Hexadecimal(r.line, 0, 0);
      if v >= U64 then (r.(remaining := 0), Failed(Malformed))
      else (r.(remaining := v, line := [], state := if v == 0 then ChunkTrailer else ChunkData), More)
    case ChunkCrlf =>
      if r.line != [] then (r, Failed(Malformed)) else (r.(state := ChunkSize), More)
    case ChunkTrailer =>
      if r.line == [] then (r.(state := Done), Finished) else (r.(line := []), More)
  }

  function FeedByte(r: Response, b: byte, sizeMax: nat): (p: (Response, Outcome))
    requires Valid(r)
    ensures Valid(p.0)
  {
    match r.state
    case Done => (r, Failed(Malformed))
    case Body =>
      var s := r.(body := r.body + [b]);
      if |s.body| == r.framing.length then (s.(state := Done), Finished) else (s, More)
    case ChunkData =>
      var s := r.(body := r.body + [b], remaining := r.remaining - 1);
      (if s.remaining == 0 then s.(state := ChunkCrlf) else s, More)
    case _ =>
      if b == LF then EndOfLine(r.(line := StripCr(r.line)), sizeMax)
      else (r.(line := r.line + [b]), More)
  }

  // Byte after byte until the input ends, the response is complete, or it fails.
  function FeedFrom(r: Response, data: seq<byte>, i: nat, sizeMax: nat): (p: (Response, Outcome))
    requires i <= |data| && Valid(r)
    ensures Valid(p.0)
    decreases |data| - i
  {
    if i == |data| then (r, More) else
    var (s, o) := FeedByte(r, data[i], sizeMax);
    if o.More? then FeedFrom(s, data, i + 1, sizeMax) else (s, o)
  }

  // A whole feed; feeding a finished response is an error even with no bytes.
  function FeedAll(r: Response, data: seq<byte>, sizeMax: nat): (p: (Response, Outcome))
    requires Valid(r)
    ensures Valid(p.0)
  {
    if r.state.Done? then (r, Failed(Malformed)) else FeedFrom(r, data, 0, sizeMax)
  }
}
