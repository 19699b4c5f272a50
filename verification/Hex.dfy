// Names in lower-case hex, and the order strcmp gives them.

module HexNames {
  import opened Bytes
  import opened Tlv

  const DIGITS: string := "0123456789abcdef"

  function Digit(n: nat): char
    requires n < 16
  {
    DIGITS[n]
  }

  // The most significant half of a byte first.
  function HexOf(s: seq<byte>): (r: string)
    ensures |r| == 2 * |s|
  {
    if s == [] then "" else var b: nat := s[0]; [Digit(b / 16), Digit(b % 16)] + HexOf(s[1..])
  }

  // Digits 0 to 9, then a to f.
  lemma DigitText(n: nat)
    requires n < 16
    ensures Digit(n) as int == if n < 10 then 48 + n else 97 + (n - 10)
  {
  }

  // Two digits a byte, the upper half first.
  lemma {:induction false} HexText(s: seq<byte>, i: nat)
    requires i < |s|
    ensures var b: nat, h := s[i], HexOf(s);
      && h[2 * i] as int == (if b / 16 < 10 then 48 + b / 16 else 97 + (b / 16 - 10))
      && h[2 * i + 1] as int == (if b % 16 < 10 then 48 + b % 16 else 97 + (b % 16 - 10))
    decreases i
  {
    HexStep(s);
    if i == 0 {
      DigitText(s[0] / 16);
      DigitText(s[0] % 16);
    } else {
      HexText(s[1..], i - 1);
    }
  }

  lemma DigitOrder(m: nat, n: nat)
    requires m < 16 && n < 16
    ensures Digit(m) < Digit(n) <==> m < n
    ensures Digit(m) == Digit(n) <==> m == n
  {
  }

  // strcmp(a, b) < 0
  predicate StrLess(a: string, b: string) {
    b != [] && (a == [] || a[0] < b[0] || (a[0] == b[0] && StrLess(a[1..], b[1..])))
  }

  predicate ByteLess(a: seq<byte>, b: seq<byte>) {
    b != [] && (a == [] || a[0] < b[0] || (a[0] == b[0] && ByteLess(a[1..], b[1..])))
  }

  lemma HexStep(s: seq<byte>)
    requires s != []
    ensures var b: nat := s[0];
      |HexOf(s)| >= 2 && HexOf(s)[0] == Digit(b / 16) && HexOf(s)[1] == Digit(b % 16)
      && HexOf(s)[1..][1..] == HexOf(s)[2..] == HexOf(s[1..])
  {
  }

  lemma {:induction false} HexKeepsOrder(a: seq<byte>, b: seq<byte>)
    requires |a| == |b|
    ensures StrLess(HexOf(a), HexOf(b)) <==> ByteLess(a, b)
    decreases |a|
  {
    if a != [] {
      var x: nat, y: nat := a[0], b[0];
      HexStep(a);
      HexStep(b);
      DigitOrder(x / 16, y / 16);
      DigitOrder(x % 16, y % 16);
      HexKeepsOrder(a[1..], b[1..]);
      assert StrLess(HexOf(a)[1..], HexOf(b)[1..]) <==>
             x % 16 < y % 16 || (x % 16 == y % 16 && StrLess(HexOf(a[1..]), HexOf(b[1..])));
    }
  }

  lemma {:induction false} HexIsInjective(a: seq<byte>, b: seq<byte>)
    requires HexOf(a) == HexOf(b)
    ensures a == b
    decreases |a|
  {
    if a != [] {
      var x: nat, y: nat := a[0], b[0];
      HexStep(a);
      HexStep(b);
      DigitOrder(x / 16, y / 16);
      DigitOrder(x % 16, y % 16);
      HexIsInjective(a[1..], b[1..]);
    }
  }

  // ---- Order of numbers and of their bytes ---------------------------------------------

  lemma {:induction false} GetBeCons(x: byte, s: seq<byte>)
    ensures GetBe([x] + s) == x * Pow256(|s|) + GetBe(s)
    decreases |s|
  {
    if s == [] {
      assert GetBe([x]) == 256 * GetBe([x][..0]) + x;
    } else {
      var init, last := s[..|s| - 1], s[|s| - 1];
      GetBeCons(x, init);
      assert ([x] + s)[..|s|] == [x] + init;
      assert 256 * (x * Pow256(|init|)) == x * Pow256(|s|);
    }
  }

  lemma Ordered2(x: nat, y: nat, p: nat, a: nat, b: nat)
    requires a < p && b < p
    ensures x * p + a < y * p + b <==> x < y || (x == y && a < b)
  {
    if x < y {
      assert (x + 1) * p <= y * p;
    } else if y < x {
      assert (y + 1) * p <= x * p;
    }
  }

  // Byte strings of one length are ordered like the numbers they hold.
  lemma {:induction false} BytesKeepOrder(a: seq<byte>, b: seq<byte>)
    requires |a| == |b|
    ensures ByteLess(a, b) <==> GetBe(a) < GetBe(b)
    decreases |a|
  {
    if a != [] {
      var s, t := a[1..], b[1..];
      BytesKeepOrder(s, t);
      assert a == [a[0]] + s && b == [b[0]] + t;
      GetBeCons(a[0], s);
      GetBeCons(b[0], t);
      GetBeBound(s);
      GetBeBound(t);
      Ordered2(a[0], b[0], Pow256(|s|), GetBe(s), GetBe(t));
    }
  }

  // ---- strcmp is a total order ------------------------------------------------------------

  lemma {:induction false} StrLessTotal(a: string, b: string)
    ensures StrLess(a, b) || StrLess(b, a) || a == b
    ensures !(StrLess(a, b) && StrLess(b, a))
    ensures a == b ==> !StrLess(a, b)
    decreases |a|
  {
    if a != [] && b != [] {
      StrLessTotal(a[1..], b[1..]);
      assert a == [a[0]] + a[1..] && b == [b[0]] + b[1..];
    }
  }

  lemma {:induction false} StrLessTransitive(a: string, b: string, c: string)
    requires StrLess(a, b) && StrLess(b, c)
    ensures StrLess(a, c)
    decreases |a|
  {
    if a != [] && a[0] == b[0] == c[0] {
      StrLessTransitive(a[1..], b[1..], c[1..]);
    }
  }
}
