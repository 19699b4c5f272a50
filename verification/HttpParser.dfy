// amisnap_http_response_feed: lines searched with memchr, bodies taken in bulk,
// proved to do exactly what the byte-at-a-time machine does.

module HttpParser {
  import opened Bytes
  import opened HttpSpec

  // ---- Cutting the input --------------------------------------------------------

  // Reading on from inside a ++ b is reading a, then b.
  lemma {:induction false} FeedFromSplit(r: Response, a: seq<byte>, b: seq<byte>, i: nat, sizeMax: nat)
    requires Valid(r) && i <= |a|
    ensures FeedFrom(r, a + b, i, sizeMax) ==
            var (s, o) := FeedFrom(r, a, i, sizeMax);
            if o.More? then FeedFrom(s, b, 0, sizeMax) else (s, o)
    decreases |a| - i
  {
    if i == |a| {
      FeedFromShift(r, a, b, 0, sizeMax);
    } else {
      assert (a + b)[i] == a[i];
      var (s, o) := FeedByte(r, a[i], sizeMax);
      if o.More? {
        FeedFromSplit(s, a, b, i + 1, sizeMax);
      }
    }
  }

  lemma {:induction false} FeedFromShift(r: Response, a: seq<byte>, b: seq<byte>, i: nat, sizeMax: nat)
    requires Valid(r) && i <= |b|
    ensures FeedFrom(r, a + b, |a| + i, sizeMax) == FeedFrom(r, b, i, sizeMax)
    decreases |b| - i
  {
    if i < |b| {
      assert (a + b)[|a| + i] == b[i];
      var (s, o) := FeedByte(r, b[i], sizeMax);
      if o.More? {
        FeedFromShift(s, a, b, i + 1, sizeMax);
      }
    }
  }

  // A machine that asks for more is not done.
  lemma {:induction false} MoreIsNotDone(r: Response, data: seq<byte>, i: nat, sizeMax: nat)
    requires Valid(r) && i <= |data| && !r.state.Done?
    ensures FeedFrom(r, data, i, sizeMax).1.More? ==> !FeedFrom(r, data, i, sizeMax).0.state.Done?
    decreases |data| - i
  {
    if i < |data| {
      var (s, o) := FeedByte(r, data[i], sizeMax);
      if o.More? {
        MoreIsNotDone(s, data, i + 1, sizeMax);
      }
    }
  }

  // Two feeds are one: status, headers, body, parser state and error are the same.
  lemma SplitInvariant(r: Response, a: seq<byte>, b: seq<byte>, sizeMax: nat)
    requires Valid(r) && FeedAll(r, a, sizeMax).1.More?
    ensures FeedAll(FeedAll(r, a, sizeMax).0, b, sizeMax) == FeedAll(r, a + b, sizeMax)
  {
    FeedFromSplit(r, a, b, 0, sizeMax);
    MoreIsNotDone(r, a, 0, sizeMax);
  }

  // Feeding pieces until one fails or finishes.
  function FeedPieces(r: Response, pieces: seq<seq<byte>>, sizeMax: nat): (p: (Response, Outcome))
    requires Valid(r)
    decreases |pieces|
  {
    if pieces == [] then (r, More) else
    var (s, o) := FeedAll(r, pieces[0], sizeMax);
    if o.More? then FeedPieces(s, pieces[1..], sizeMax) else (s, o)
  }

  // Any cutting equals the uncut feed.
  lemma {:induction false} AnyCuttingAgrees(r: Response, pieces: seq<seq<byte>>, sizeMax: nat)
    requires Valid(r) && !r.state.Done?
    ensures FeedPieces(r, pieces, sizeMax) == FeedAll(r, Concat(pieces), sizeMax)
    decreases |pieces|
  {
    if pieces != [] {
      FeedFromSplit(r, pieces[0], Concat(pieces[1..]), 0, sizeMax);
      MoreIsNotDone(r, pieces[0], 0, sizeMax);
      if FeedAll(r, pieces[0], sizeMax).1.More? {
        AnyCuttingAgrees(FeedAll(r, pieces[0], sizeMax).0, pieces[1..], sizeMax);
      }
    }
  }

  // ---- Bulk steps -----------------------------------------------------------------

  lemma FirstByte(a: seq<byte>, data: seq<byte>, i: nat, j: nat)
    requires i < j <= |data|
    ensures a + [data[i]] + data[i + 1..j] == a + data[i..j]
  {
  }

  lemma LastByte(a: seq<byte>, data: seq<byte>, i: nat, j: nat)
    requires i < j <= |data|
    ensures a + data[i..j - 1] + [data[j - 1]] == a + data[i..j]
  {
  }

  // A stretch without a line end only grows the open line.
  lemma {:induction false} LineRun(r: Response, data: seq<byte>, i: nat, j: nat, sizeMax: nat)
    requires Valid(r) && LineState(r.state) && i <= j <= |data|
    requires forall k :: i <= k < j ==> data[k] != LF
    ensures FeedFrom(r, data, i, sizeMax) == FeedFrom(r.(line := r.line + data[i..j]), data, j, sizeMax)
    decreases j - i
  {
    if i == j {
      assert r.line + data[i..j] == r.line;
    } else {
      LineRun(r.(line := r.line + [data[i]]), data, i + 1, j, sizeMax);
      FirstByte(r.line, data, i, j);
    }
  }

  // A line that ends where nl is.
  lemma LineTaken(r: Response, data: seq<byte>, i: nat, nl: nat, sizeMax: nat)
    requires Valid(r) && LineState(r.state) && i <= nl < |data| && data[nl] == LF
    requires forall k :: i <= k < nl ==> data[k] != LF
    ensures FeedFrom(r, data, i, sizeMax) ==
            var (s, o) := EndOfLine(r.(line := StripCr(r.line + data[i..nl])), sizeMax);
            if o.More? then FeedFrom(s, data, nl + 1, sizeMax) else (s, o)
  {
    LineRun(r, data, i, nl, sizeMax);
  }

  // A stretch of body that does not complete it.
  lemma {:induction false} BodyRun(r: Response, data: seq<byte>, i: nat, j: nat, sizeMax: nat)
    requires Valid(r) && r.state.Body? && i <= j <= |data| && |r.body| + (j - i) < r.framing.length
    ensures FeedFrom(r, data, i, sizeMax) == FeedFrom(r.(body := r.body + data[i..j]), data, j, sizeMax)
    decreases j - i
  {
    if i == j {
      assert r.body + data[i..j] == r.body;
    } else {
      BodyRun(r.(body := r.body + [data[i]]), data, i + 1, j, sizeMax);
      FirstByte(r.body, data, i, j);
    }
  }

  lemma ChunkByte(r: Response, data: seq<byte>, i: nat, s: Response, sizeMax: nat)
    requires Valid(r) && r.state.ChunkData? && i < |data| && r.remaining > 1
    requires s == r.(body := r.body + [data[i]], remaining := r.remaining - 1)
    ensures FeedFrom(r, data, i, sizeMax) == FeedFrom(s, data, i + 1, sizeMax)
  {
  }

  lemma {:induction false} ChunkRun(r: Response, data: seq<byte>, i: nat, j: nat, sizeMax: nat)
    requires Valid(r) && r.state.ChunkData? && i <= j <= |data| && j - i < r.remaining
    ensures FeedFrom(r, data, i, sizeMax)
            == FeedFrom(r.(body := r.body + data[i..j], remaining := r.remaining - (j - i)), data, j, sizeMax)
    decreases j - i
  {
    if i == j {
      assert r.body + data[i..j] == r.body;
    } else {
      var s := r.(body := r.body + [data[i]], remaining := r.remaining - 1);
      ChunkByte(r, data, i, s, sizeMax);
      ChunkRun(s, data, i + 1, j, sizeMax);
      FirstByte(r.body, data, i, j);
    }
  }

  // The last body byte finishes the response.
  lemma BodyEnd(r: Response, data: seq<byte>, i: nat, j: nat, sizeMax: nat)
    requires Valid(r) && r.state.Body? && i < j <= |data| && |r.body| + (j - i) == r.framing.length
    ensures FeedFrom(r, data, i, sizeMax)
            == (r.(body := r.body + data[i..j], state := Done), Finished)
  {
    BodyRun(r, data, i, j - 1, sizeMax);
    LastByte(r.body, data, i, j);
  }

  // The last byte of a chunk moves on to its line end.
  lemma ChunkEnd(r: Response, data: seq<byte>, i: nat, j: nat, sizeMax: nat)
    requires Valid(r) && r.state.ChunkData? && i < j <= |data| && j - i == r.remaining
    ensures FeedFrom(r, data, i, sizeMax)
            == FeedFrom(r.(body := r.body + data[i..j], remaining := 0, state := ChunkCrlf), data, j, sizeMax)
  {
    ChunkRun(r, data, i, j - 1, sizeMax);
    LastByte(r.body, data, i, j);
  }

  // ---- Numbers with an overflow check ------------------------------------------------

  lemma {:induction false} DecimalMonotone(s: seq<byte>, i: nat, v: nat, w: nat)
    requires i <= |s| && v <= w
    ensures Decimal(s, i, v) <= Decimal(s, i, w)
    decreases |s| - i
  {
    if i < |s| && IsDigit(s[i]) {
      DecimalMonotone(s, i + 1, v * 10 + (s[i] - 48), w * 10 + (s[i] - 48));
    }
  }

  // parse_u64: None when the value would not fit 64 bits.
  method ParseU64(s: seq<byte>) returns (r: Option<nat>)
    ensures r == if Decimal(s, 0, 0) < U64 then Some(Decimal(s, 0, 0)) else None
  {
    var v: nat, i := 0, 0;
    while i < |s|
      invariant i <= |s| && v < U64
      invariant Decimal(s, i, v) == Decimal(s, 0, 0)
    {
      if !IsDigit(s[i]) {
        break;
      }
      var d: nat := s[i] - 48;
      if v > (U64 - 1 - d) / 10 {
        return None;
      }
      v, i := v * 10 + d, i + 1;
    }
    return Some(v);
  }

  // parse_hex64
  method ParseHex64(s: seq<byte>) returns (r: Option<nat>)
    ensures r == if Hexadecimal(s, 0, 0) < U64 then Some(Hexadecimal(s, 0, 0)) else None
  {
    var v: nat, i := 0, 0;
    while i < |s|
      invariant i <= |s| && v < U64
      invariant Hexadecimal(s, i, v) == Hexadecimal(s, 0, 0)
    {
      if HexDigit(s[i]).None? {
        break;
      }
      var d := HexDigit(s[i]).value;
      if v > (U64 - 1 - d) / 16 {
        return None;
      }
      v, i := v * 16 + d, i + 1;
    }
    return Some(v);
  }

  // strlen / memchr over the header block.
  method Find(s: seq<byte>, c: byte, i: nat, end: nat) returns (r: nat)
    requires i <= end <= |s|
    ensures r == IndexOf(s, c, i, end)
  {
    r := i;
    while r < end && s[r] != c
      invariant i <= r <= end && IndexOf(s, c, r, end) == IndexOf(s, c, i, end)
    {
      r := r + 1;
    }
  }

  // The checks on a Content-Length value.
  method ParseContentLength(value: seq<byte>, sizeMax: nat) returns (len: Option<nat>, err: Option<Error>)
    ensures (len, err) == ContentLength(value, sizeMax)
  {
    var d := 0;
    while d < |value| && IsDigit(value[d])
      invariant d <= |value| && DigitsEnd(value, d) == DigitsEnd(value, 0)
    {
      d := d + 1;
    }
    if d == 0 {
      return None, Some(Malformed);
    }
    var t := d;
    while t < |value|
      invariant d <= t <= |value| && SkipSpaces(value, t, |value|) == SkipSpaces(value, d, |value|)
    {
      if value[t] != SPACE {
        return None, Some(Malformed);
      }
      t := t + 1;
    }
    var v := ParseU64(value);
    if v.None? {
      return Some(0), Some(Malformed);
    }
    return v, if v.value > sizeMax then Some(TooLong) else None;
  }

  // One response as it arrives.
  class HttpResponse {
    const sizeMax: nat
    var state: State
    var status: nat
    var headers: seq<Header>
    var hasContentLength: bool
    var contentLength: nat
    var chunked: bool
    var remaining: nat
    var unframed: bool
    var raw: seq<byte>
    var body: seq<byte>
    var line: seq<byte>

    ghost function FramingView(): Framing
      reads this
    {
      Framing(headers, hasContentLength, contentLength, chunked)
    }

    ghost function View(): Response
      reads this
    {
      Response(state, status, FramingView(), remaining, unframed, raw, body, line)
    }

    constructor (sizeMax: nat)
      ensures this.sizeMax == sizeMax && View() == INIT && Valid(View())
    {
      this.sizeMax := sizeMax;
      state, status, remaining, unframed := StatusLine, 0, 0, false;
      headers, hasContentLength, contentLength, chunked := [], false, 0, false;
      raw, body, line := [], [], [];
    }

    // One header line of the block.
    method IndexHeader(p: nat, c: nat, e: nat) returns (err: Option<Error>)
      requires p <= c < e <= |raw|
      modifies `headers, `hasContentLength, `contentLength, `chunked
      ensures (FramingView(), err) == OneHeader(raw, p, c, e, old(FramingView()), sizeMax)
    {
      var v := c + 1;
      while v < e && raw[v] == SPACE
        invariant c < v <= e && SkipSpaces(raw, v, e) == SkipSpaces(raw, c + 1, e)
      {
        v := v + 1;
      }
      var name, value := raw[p..c], raw[v..e];
      if |headers| < MAX_HEADERS {
        headers := headers + [Header(name, value)];
      }
      err := None;
      if NameEq(name, CONTENT_LENGTH) {
        var len;
        len, err := ParseContentLength(value, sizeMax);
        if len.Some? {
          contentLength := len.value;
        }
        if err.None? {
          hasContentLength := true;
        }
      } else if NameEq(name, TRANSFER_ENCODING) {
        if ContainsCi(value, CHUNKED) {
          chunked := true;
        }
      }
    }

    // One NUL-terminated line of the block; the next starts at p'.
    method IndexLine(p: nat) returns (err: Option<Error>, p': nat)
      requires Terminated(raw) && p < |raw|
      modifies `headers, `hasContentLength, `contentLength, `chunked
      ensures p < p' <= |raw|
      ensures Populate(raw, p, old(FramingView()), sizeMax)
              == if err.Some? then (FramingView(), err) else Populate(raw, p', FramingView(), sizeMax)
    {
      var e := Find(raw, 0, p, |raw|);
      var c := Find(raw, COLON, p, e);
      err, p' := None, e + 1;
      if c < e {
        err := IndexHeader(p, c, e);
      }
    }

    // populate_headers
    method PopulateHeaders() returns (err: Option<Error>)
      requires Terminated(raw)
      modifies `headers, `hasContentLength, `contentLength, `chunked
      ensures (FramingView(), err) == Populate(raw, 0, Framing([], false, old(contentLength), false), sizeMax)
    {
      headers, hasContentLength, chunked := [], false, false;
      ghost var f0 := FramingView();
      var p := 0;
      err := None;
      while p < |raw|
        invariant p <= |raw| && err.None?
        invariant Populate(raw, p, FramingView(), sizeMax) == Populate(raw, 0, f0, sizeMax)
        decreases |raw| - p
      {
        err, p := IndexLine(p);
        if err.Some? {
          return;
        }
      }
    }

    // take_line: true when a whole line, without its line end, is in `line`.
    method TakeLine(data: seq<byte>, pos: nat) returns (found: bool, pos': nat)
      requires Valid(View()) && LineState(state) && pos < |data|
      modifies `line
      ensures pos < pos' <= |data| && Valid(View())
      ensures !found ==> FeedFrom(old(View()), data, pos, sizeMax) == FeedFrom(View(), data, pos', sizeMax)
      ensures found ==> FeedFrom(old(View()), data, pos, sizeMax) ==
                        var (s, o) := EndOfLine(View(), sizeMax);
                        if o.More? then FeedFrom(s, data, pos', sizeMax) else (s, o)
    {
      var nl := Find(data, LF, pos, |data|);
      if nl == |data| {
        LineRun(View(), data, pos, nl, sizeMax);
        line := line + data[pos..nl];
        return false, |data|;
      }
      LineTaken(View(), data, pos, nl, sizeMax);
      line := line + data[pos..nl];
      if |line| > 0 && line[|line| - 1] == CR {
        line := line[..|line| - 1];
      }
      return true, nl + 1;
    }

    // What a complete line does in each line state.
    method HandleLine() returns (o: Outcome)
      requires Valid(View()) && LineState(state)
      modifies this
      ensures (View(), o) == EndOfLine(old(View()), sizeMax)
    {
      o := More;
      match state {
        case StatusLine =>
          var i := Find(line, SPACE, 0, |line|);
          if i == |line| || |line| - (i + 1) < 3 {
            return Failed(Malformed);
          }
          var code := ParseU64(line[i + 1..i + 4]);
          ThreeDigits(line[i + 1..i + 4]);
          status, line, state := code.value, [], Headers;
        case Headers =>
          if line == [] {
            o := HandleEndOfHeaders();
          } else {
            raw, line := raw + line + [0], [];
          }
        case ChunkSize =>
          var v := ParseHex64(line);
          if v.None? {
            remaining := 0;
            return Failed(Malformed);
          }
          remaining, line := v.value, [];
          state := if remaining == 0 then ChunkTrailer else ChunkData;
        case ChunkCrlf =>
          if line != [] {
            return Failed(Malformed);
          }
          state := ChunkSize;
        case ChunkTrailer =>
          if line == [] {
            state, o := Done, Finished;
          } else {
            line := [];
          }
      }
    }

    method HandleEndOfHeaders() returns (o: Outcome)
      requires Valid(View()) && state.Headers?
      modifies this
      ensures (View(), o) == EndOfHeaders(old(View()), sizeMax)
    {
      var err := PopulateHeaders();
      line := [];
      if err.Some? {
        return Failed(err.value);
      }
      if chunked {
        state := ChunkSize;
      } else if hasContentLength && contentLength > 0 {
        state := Body;
      } else {
        if !hasContentLength {
          unframed := true;
        }
        state := Done;
        return Finished;
      }
      o := More;
    }

    // PARSE_BODY
    method BodyTurn(data: seq<byte>, pos: nat) returns (o: Outcome, pos': nat)
      requires Valid(View()) && state.Body? && pos < |data|
      modifies `state, `body
      ensures Valid(View()) && pos < pos' <= |data| && (o.More? ==> !state.Done?)
      ensures FeedFrom(old(View()), data, pos, sizeMax)
              == if o.More? then FeedFrom(View(), data, pos', sizeMax) else (View(), o)
    {
      var want, avail := contentLength - |body|, |data| - pos;
      var take := if want < avail then want else avail;
      if take == want {
        BodyEnd(View(), data, pos, pos + take, sizeMax);
      } else {
        BodyRun(View(), data, pos, pos + take, sizeMax);
      }
      body := body + data[pos..pos + take];
      o, pos' := More, pos + take;
      if |body| == contentLength {
        state, o := Done, Finished;
      }
    }

    // PARSE_CHUNK_DATA
    method ChunkTurn(data: seq<byte>, pos: nat) returns (pos': nat)
      requires Valid(View()) && state.ChunkData? && pos < |data|
      modifies `state, `body, `remaining
      ensures Valid(View()) && pos < pos' <= |data| && !state.Done?
      ensures FeedFrom(old(View()), data, pos, sizeMax) == FeedFrom(View(), data, pos', sizeMax)
    {
      var avail := |data| - pos;
      var take := if remaining < avail then remaining else avail;
      if take == remaining {
        ChunkEnd(View(), data, pos, pos + take, sizeMax);
      } else {
        ChunkRun(View(), data, pos, pos + take, sizeMax);
      }
      body := body + data[pos..pos + take];
      remaining := remaining - take;
      if remaining == 0 {
        state := ChunkCrlf;
      }
      pos' := pos + take;
    }

    // The states that read lines.
    method LineTurn(data: seq<byte>, pos: nat) returns (o: Outcome, pos': nat)
      requires Valid(View()) && LineState(state) && pos < |data|
      modifies this
      ensures Valid(View()) && pos < pos' <= |data| && (o.More? ==> !state.Done?)
      ensures FeedFrom(old(View()), data, pos, sizeMax)
              == if o.More? then FeedFrom(View(), data, pos', sizeMax) else (View(), o)
    {
      var found;
      found, pos' := TakeLine(data, pos);
      o := More;
      if found {
        o := HandleLine();
      }
    }

    // One turn of the loop: it consumes at least one byte.
    method Turn(data: seq<byte>, pos: nat) returns (o: Outcome, pos': nat)
      requires Valid(View()) && !state.Done? && pos < |data|
      modifies this
      ensures Valid(View()) && pos < pos' <= |data| && (o.More? ==> !state.Done?)
      ensures FeedFrom(old(View()), data, pos, sizeMax)
              == if o.More? then FeedFrom(View(), data, pos', sizeMax) else (View(), o)
    {
      if state.Body? {
        o, pos' := BodyTurn(data, pos);
      } else if state.ChunkData? {
        o := More;
        pos' := ChunkTurn(data, pos);
      } else {
        o, pos' := LineTurn(data, pos);
      }
    }

    // amisnap_http_response_feed: Finished is `*done = 1`, Failed a negative code.
    method Feed(data: seq<byte>) returns (o: Outcome)
      requires Valid(View())
      modifies this
      ensures Valid(View())
      ensures (View(), o) == FeedAll(old(View()), data, sizeMax)
    {
      if state.Done? {
        return Failed(Malformed);
      }
      ghost var r0 := View();
      var pos := 0;
      o := More;
      while pos < |data|
        invariant pos <= |data| && o.More? && Valid(View()) && !state.Done?
        invariant FeedFrom(r0, data, 0, sizeMax) == FeedFrom(View(), data, pos, sizeMax)
        decreases |data| - pos
      {
        o, pos := Turn(data, pos);
        if !o.More? {
          return;
        }
      }
    }
  }

  lemma ThreeDigits(s: seq<byte>)
    requires |s| == 3
    ensures Decimal(s, 0, 0) < 1000
  {
    if IsDigit(s[0]) {
      var v1: nat := s[0] - 48;
      assert Decimal(s, 0, 0) == Decimal(s, 1, v1);
      if IsDigit(s[1]) {
        var v2: nat := v1 * 10 + (s[1] - 48);
        assert Decimal(s, 1, v1) == Decimal(s, 2, v2);
        assert Decimal(s, 2, v2) == if IsDigit(s[2]) then v2 * 10 + (s[2] - 48) else v2;
      }
    }
  }
}
