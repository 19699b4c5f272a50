// Text as bytes, and text that differs only in the case of its letters.

module Letters {
  import opened Bytes

  function Ascii(s: string): seq<byte> {
    seq(|s|, i requires 0 <= i < |s| => s[i] as int % 256)
  }

  // The same byte, or the two cases of one of the 26 letters, 32 apart.
  predicate SameLetter(a: byte, b: byte) {
    a == b || (65 <= a <= 90 && b == a + 32) || (65 <= b <= 90 && a == b + 32)
  }

  // The same text, any letters of it in the other case.
  predicate Recased(p: seq<byte>, q: seq<byte>) {
    |p| == |q| && forall i :: 0 <= i < |p| ==> SameLetter(p[i], q[i])
  }
}
