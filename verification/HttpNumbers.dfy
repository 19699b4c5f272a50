// What the numbers of a response say, from how they are written: sizes in hexadecimal with
// digits of either case, lengths in decimal.

module HttpNumbers {
  import opened Bytes
  import opened HttpSpec

  // ---- Hexadecimal --------------------------------------------------------------------------

  // 0 to 9, then a to f or A to F.
  predicate ShowsHexDigit(c: byte, d: nat) {
    if d < 10 then c == 48 + d else d < 16 && (c == 97 + (d - 10) || c == 65 + (d - 10))
  }

  // These digits, each in either case and with any number of zeros in front, are n.
  predicate ShowsHex(s: seq<byte>, n: nat) {
    if s == [] then n == 0 else ShowsHexDigit(s[|s| - 1], n % 16) && ShowsHex(s[..|s| - 1], n / 16)
  }

  predicate IsHexByte(c: byte) {
    48 <= c <= 57 || 65 <= c <= 70 || 97 <= c <= 102
  }

  // A chunk's size line: the size, and after it anything that does not begin with a digit,
  // such as a chunk extension.
  ghost predicate SizeLine(s: seq<byte>, n: nat) {
    exists k: nat :: SizeUpTo(s, n, k)
  }

  predicate SizeUpTo(s: seq<byte>, n: nat, k: nat) {
    k <= |s| && ShowsHex(s[..k], n) && (k == |s| || !IsHexByte(s[k]))
  }

  lemma OneHexDigit(c: byte, d: nat)
    requires ShowsHexDigit(c, d)
    ensures HexDigit(c) == Some(d) && IsHexByte(c)
  {
  }

  lemma HexBytesAreDigits(c: byte)
    ensures HexDigit(c).Some? <==> IsHexByte(c)
    ensures HexDigit(c).Some? ==> ShowsHexDigit(c, HexDigit(c).value)
  {
  }

  // How far the digits go.
  function HexEnd(s: seq<byte>, i: nat): (r: nat)
    requires i <= |s|
    ensures i <= r <= |s| && (r < |s| ==> !IsHexByte(s[r]))
    ensures forall k :: i <= k < r ==> IsHexByte(s[k])
    decreases |s| - i
  {
    if i < |s| && IsHexByte(s[i]) then HexEnd(s, i + 1) else i
  }

  lemma {:induction false} HexStops(s: seq<byte>, i: nat, k: nat, v: nat)
    requires i <= k <= |s| && (k == |s| || !IsHexByte(s[k]))
    ensures Hexadecimal(s, i, v) == Hexadecimal(s[..k], i, v)
    decreases k - i
  {
    if i < k {
      if HexDigit(s[i]).Some? {
        HexStops(s, i + 1, k, v * 16 + HexDigit(s[i]).value);
      }
    } else if k < |s| {
      HexBytesAreDigits(s[k]);
    }
  }

  lemma {:induction false} HexSnoc(s: seq<byte>, c: byte, i: nat, v: nat)
    requires i <= |s| && HexDigit(c).Some? && forall k :: 0 <= k < |s| ==> IsHexByte(s[k])
    ensures Hexadecimal(s + [c], i, v) == Hexadecimal(s, i, v) * 16 + HexDigit(c).value
    decreases |s| - i
  {
    if i < |s| {
      HexBytesAreDigits(s[i]);
      HexSnoc(s, c, i + 1, v * 16 + HexDigit(s[i]).value);
    } else {
      assert Hexadecimal(s + [c], |s| + 1, v * 16 + HexDigit(c).value) == v * 16 + HexDigit(c).value;
    }
  }

  lemma {:induction false} HexIsRead(s: seq<byte>, n: nat)
    requires ShowsHex(s, n)
    ensures Hexadecimal(s, 0, 0) == n && forall k :: 0 <= k < |s| ==> IsHexByte(s[k])
    decreases |s|
  {
    if s != [] {
      var init, c := s[..|s| - 1], s[|s| - 1];
      HexIsRead(init, n / 16);
      OneHexDigit(c, n % 16);
      HexSnoc(init, c, 0, 0);
      assert s == init + [c];
    }
  }

  lemma {:induction false} HexIsShown(s: seq<byte>)
    requires forall k :: 0 <= k < |s| ==> IsHexByte(s[k])
    ensures ShowsHex(s, Hexadecimal(s, 0, 0))
    decreases |s|
  {
    if s != [] {
      var init, c := s[..|s| - 1], s[|s| - 1];
      HexIsShown(init);
      HexBytesAreDigits(c);
      HexSnoc(init, c, 0, 0);
      assert s == init + [c];
      LastDigit(Hexadecimal(init, 0, 0), HexDigit(c).value);
    }
  }

  lemma LastDigit(v: nat, d: nat)
    requires d < 16
    ensures (v * 16 + d) / 16 == v && (v * 16 + d) % 16 == d
  {
  }

  // A size line is read as the size it shows, and no other.
  lemma SizeIsRead(s: seq<byte>, n: nat)
    ensures SizeLine(s, n) <==> Hexadecimal(s, 0, 0) == n
  {
    var e := HexEnd(s, 0);
    HexStops(s, 0, e, 0);
    HexIsShown(s[..e]);
    assert SizeUpTo(s, Hexadecimal(s, 0, 0), e);
    if SizeLine(s, n) {
      var k: nat :| SizeUpTo(s, n, k);
      HexStops(s, 0, k, 0);
      HexIsRead(s[..k], n);
    }
  }

  // Every size can be written so, by digits of whatever case is asked for.
  function HexChar(d: nat, upper: bool): byte
    requires d < 16
  {
    if d < 10 then 48 + d else if upper then 65 + (d - 10) else 97 + (d - 10)
  }

  // The size in hexadecimal, the case of its k-th digit from the right chosen by `upper`.
  function Hex(n: nat, upper: nat -> bool, k: nat): (r: seq<byte>)
    ensures |r| > 0
    decreases n
  {
    if n < 16 then [HexChar(n, upper(k))] else Hex(n / 16, upper, k + 1) + [HexChar(n % 16, upper(k))]
  }

  lemma {:induction false} HexShows(n: nat, upper: nat -> bool, k: nat)
    ensures ShowsHex(Hex(n, upper, k), n)
    decreases n
  {
    if n < 16 {
      assert ShowsHex([], 0);
    } else {
      HexShows(n / 16, upper, k + 1);
      var init := Hex(n / 16, upper, k + 1);
      assert (init + [HexChar(n % 16, upper(k))])[..|init|] == init;
    }
  }

  // Whatever case each digit is written in, the digits read back as the size.
  lemma HexRoundTrip(n: nat, upper: nat -> bool)
    ensures Hexadecimal(Hex(n, upper, 0), 0, 0) == n
  {
    HexShows(n, upper, 0);
    HexIsRead(Hex(n, upper, 0), n);
  }

  // ---- Decimal --------------------------------------------------------------------------------

  // Decimal digits, with any number of zeros in front, that are n.
  predicate ShowsDecimal(s: seq<byte>, n: nat) {
    if s == [] then n == 0 else s[|s| - 1] == 48 + n % 10 && ShowsDecimal(s[..|s| - 1], n / 10)
  }

  predicate DigitsOnly(s: seq<byte>) {
    forall k :: 0 <= k < |s| ==> 48 <= s[k] <= 57
  }

  lemma {:induction false} DecimalSnoc(s: seq<byte>, c: byte, i: nat, v: nat)
    requires i <= |s| && IsDigit(c) && DigitsOnly(s)
    ensures Decimal(s + [c], i, v) == Decimal(s, i, v) * 10 + (c - 48)
    decreases |s| - i
  {
    if i < |s| {
      DecimalSnoc(s, c, i + 1, v * 10 + (s[i] - 48));
    } else {
      assert Decimal(s + [c], |s| + 1, v * 10 + (c - 48)) == v * 10 + (c - 48);
    }
  }

  lemma {:induction false} DecimalIsRead(s: seq<byte>, n: nat)
    requires ShowsDecimal(s, n)
    ensures Decimal(s, 0, 0) == n && DigitsOnly(s)
    decreases |s|
  {
    if s != [] {
      var init, c := s[..|s| - 1], s[|s| - 1];
      DecimalIsRead(init, n / 10);
      DecimalSnoc(init, c, 0, 0);
      assert s == init + [c];
    }
  }

  lemma {:induction false} DecimalIsShown(s: seq<byte>)
    requires DigitsOnly(s)
    ensures ShowsDecimal(s, Decimal(s, 0, 0))
    decreases |s|
  {
    if s != [] {
      var init, c := s[..|s| - 1], s[|s| - 1];
      DecimalIsShown(init);
      DecimalSnoc(init, c, 0, 0);
      assert s == init + [c];
    }
  }

  // A number in decimal.
  function Digits(n: nat): (r: seq<byte>)
    ensures |r| > 0
  {
    if n < 10 then [48 + n] else Digits(n / 10) + [48 + n % 10]
  }

  lemma {:induction false} DigitsShow(n: nat)
    ensures ShowsDecimal(Digits(n), n)
    decreases n
  {
    if n < 10 {
      assert ShowsDecimal([], 0);
    } else {
      DigitsShow(n / 10);
      var init := Digits(n / 10);
      assert (init + [48 + n % 10])[..|init|] == init;
    }
  }

  // A number in decimal reads back as the number.
  lemma DigitsRoundTrip(n: nat)
    ensures Decimal(Digits(n), 0, 0) == n && DigitsOnly(Digits(n))
  {
    DigitsShow(n);
    DecimalIsRead(Digits(n), n);
  }

  lemma AllDigits(s: seq<byte>, i: nat, k: nat)
    requires i <= k <= |s| && DigitsOnly(s[..k]) && (k == |s| || !IsDigit(s[k]))
    ensures DigitsEnd(s, i) == k && Decimal(s, i, 0) == Decimal(s[..k], i, 0)
  {
    DigitsTo(s, i, k);
    DecimalStops(s, i, k, 0);
  }

  lemma {:induction false} DigitsTo(s: seq<byte>, i: nat, k: nat)
    requires i <= k <= |s| && DigitsOnly(s[..k]) && (k == |s| || !IsDigit(s[k]))
    ensures DigitsEnd(s, i) == k
    decreases k - i
  {
    if i < k {
      assert s[i] == s[..k][i];
      DigitsTo(s, i + 1, k);
    }
  }

  lemma {:induction false} DecimalStops(s: seq<byte>, i: nat, k: nat, v: nat)
    requires i <= k <= |s| && (k == |s| || !IsDigit(s[k]))
    ensures Decimal(s, i, v) == Decimal(s[..k], i, v)
    decreases k - i
  {
    if i < k && IsDigit(s[i]) {
      DecimalStops(s, i + 1, k, v * 10 + (s[i] - 48));
    }
  }

  // ---- Content-Length values --------------------------------------------------------------------

  // Digits that are n, then only spaces.
  ghost predicate LengthValue(value: seq<byte>, n: nat) {
    exists k: nat :: LengthUpTo(value, n, k)
  }

  predicate LengthUpTo(value: seq<byte>, n: nat, k: nat) {
    0 < k <= |value| && ShowsDecimal(value[..k], n) && forall i :: k <= i < |value| ==> value[i] == 32
  }

  lemma {:induction false} SpacesToTheEnd(s: seq<byte>, i: nat)
    requires i <= |s|
    ensures SkipSpaces(s, i, |s|) == |s| <==> forall k :: i <= k < |s| ==> s[k] == 32
    decreases |s| - i
  {
    if i < |s| {
      SpacesToTheEnd(s, i + 1);
    }
  }

  lemma {:induction false} DigitsEndIs(s: seq<byte>, i: nat)
    requires i <= |s|
    ensures var d := DigitsEnd(s, i); d < |s| ==> !IsDigit(s[d])
    ensures forall k :: i <= k < DigitsEnd(s, i) ==> IsDigit(s[k])
    decreases |s| - i
  {
    if i < |s| && IsDigit(s[i]) {
      DigitsEndIs(s, i + 1);
    }
  }

  // A Content-Length is taken, and as n, exactly when it is digits that are n, then spaces,
  // and n fits both 64 bits and the platform; otherwise the response is refused.
  lemma ContentLengthExact(value: seq<byte>, sizeMax: nat)
    ensures ContentLength(value, sizeMax).1.None? <==>
              exists n: nat :: LengthValue(value, n) && n < 0x1_0000_0000_0000_0000 && n <= sizeMax
    ensures forall n: nat :: LengthValue(value, n) && n < 0x1_0000_0000_0000_0000 && n <= sizeMax ==>
              ContentLength(value, sizeMax) == (Some(n), None)
  {
    LengthIfTaken(value, sizeMax);
    forall n: nat | LengthValue(value, n) && n < 0x1_0000_0000_0000_0000 && n <= sizeMax
      ensures ContentLength(value, sizeMax) == (Some(n), None)
    {
      LengthTaken(value, n, sizeMax);
    }
  }

  // And how: a number the platform cannot hold is too long, anything else is malformed.
  lemma LengthRefused(value: seq<byte>, sizeMax: nat)
    requires ContentLength(value, sizeMax).1.Some?
    ensures ContentLength(value, sizeMax).1 == Some(TooLong) <==>
              exists n: nat :: LengthValue(value, n) && n < 0x1_0000_0000_0000_0000
    ensures ContentLength(value, sizeMax).1.value in {TooLong, Malformed}
  {
    var d := DigitsEnd(value, 0);
    DigitsEndIs(value, 0);
    DecimalStops(value, 0, d, 0);
    DecimalIsShown(value[..d]);
    SpacesToTheEnd(value, d);
    if d > 0 && SkipSpaces(value, d, |value|) == |value| {
      assert LengthUpTo(value, Decimal(value, 0, 0), d);
      assert LengthValue(value, Decimal(value, 0, 0));
    }
    forall n: nat | LengthValue(value, n) && n < 0x1_0000_0000_0000_0000
      ensures ContentLength(value, sizeMax).1 == Some(TooLong)
    {
      LengthRead(value, n);
    }
  }

  lemma LengthRead(value: seq<byte>, n: nat)
    requires LengthValue(value, n)
    ensures var d := DigitsEnd(value, 0); d > 0 && SkipSpaces(value, d, |value|) == |value| && Decimal(value, 0, 0) == n
  {
    var k: nat :| LengthUpTo(value, n, k);
    DecimalIsRead(value[..k], n);
    AllDigits(value, 0, k);
    SpacesToTheEnd(value, k);
    assert DigitsEnd(value, 0) == k && SkipSpaces(value, k, |value|) == |value|;
  }

  lemma LengthTaken(value: seq<byte>, n: nat, sizeMax: nat)
    requires LengthValue(value, n) && n < 0x1_0000_0000_0000_0000 && n <= sizeMax
    ensures ContentLength(value, sizeMax) == (Some(n), None)
  {
    var k: nat :| LengthUpTo(value, n, k);
    DecimalIsRead(value[..k], n);
    AllDigits(value, 0, k);
    SpacesToTheEnd(value, k);
  }

  lemma LengthIfTaken(value: seq<byte>, sizeMax: nat)
    ensures ContentLength(value, sizeMax).1.None? ==>
              var n := Decimal(value, 0, 0); LengthValue(value, n) && n < 0x1_0000_0000_0000_0000 && n <= sizeMax
  {
    var d := DigitsEnd(value, 0);
    DigitsEndIs(value, 0);
    DecimalStops(value, 0, d, 0);
    DecimalIsShown(value[..d]);
    SpacesToTheEnd(value, d);
    if ContentLength(value, sizeMax).1.None? {
      assert LengthUpTo(value, Decimal(value, 0, 0), d);
    }
  }
}
