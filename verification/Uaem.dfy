// The .uaem sidecar line: the host reader writes it, the Amiga side parses it.

module Uaem {
  import opened Bytes
  import opened Calendar

  const DASH: byte := 45
  const SPACE: byte := 32
  const COLON: byte := 58
  const DOT: byte := 46
  const ZERO: byte := 48

  // ---- Protection flags --------------------------------------------------------------------

  // hspa show when their bit is set, rwed when it is clear.
  const LETTERS: seq<byte> := [104, 115, 112, 97, 114, 119, 101, 100]

  function Mask(i: nat): nat
    requires i < 8
  {
    [0x80, 0x40, 0x20, 0x10, 0x08, 0x04, 0x02, 0x01][i]
  }

  predicate ActiveHigh(i: nat) {
    i < 4
  }

  predicate BitSet(prot: nat, i: nat)
    requires i < 8
  {
    prot / Mask(i) % 2 == 1
  }

  // prot_to_uaem_flags
  function Flags(prot: nat): (r: seq<byte>)
    ensures |r| == 8
  {
    seq(8, i requires 0 <= i < 8 => if BitSet(prot, i) == ActiveHigh(i) then LETTERS[i] else DASH)
  }

  // "hsparwed": the first four letters show where their bit is set, the others where it is
  // clear, as the shell's List has them; a dash stands for a letter that does not show.
  lemma FlagsMean(prot: nat)
    ensures Flags(prot) ==
            [if prot / 128 % 2 == 1 then 104 else 45, if prot / 64 % 2 == 1 then 115 else 45,
             if prot / 32 % 2 == 1 then 112 else 45, if prot / 16 % 2 == 1 then 97 else 45,
             if prot / 8 % 2 == 1 then 45 else 114, if prot / 4 % 2 == 1 then 45 else 119,
             if prot / 2 % 2 == 1 then 45 else 101, if prot % 2 == 1 then 45 else 100]
  {
    forall i | 0 <= i < 8
      ensures Flags(prot)[i] == if BitSet(prot, i) == (i < 4) then LETTERS[i] else 45
    {
    }
    assert BitSet(prot, 0) <==> prot / 128 % 2 == 1;
    assert BitSet(prot, 1) <==> prot / 64 % 2 == 1;
    assert BitSet(prot, 2) <==> prot / 32 % 2 == 1;
    assert BitSet(prot, 3) <==> prot / 16 % 2 == 1;
    assert BitSet(prot, 4) <==> prot / 8 % 2 == 1;
    assert BitSet(prot, 5) <==> prot / 4 % 2 == 1;
    assert BitSet(prot, 6) <==> prot / 2 % 2 == 1;
    assert BitSet(prot, 7) <==> prot / 1 % 2 == 1;
  }

  function ProtOf(flags: seq<byte>, i: nat): nat
    requires |flags| == 8 && i <= 8
    decreases 8 - i
  {
    if i == 8 then 0
    else (if (flags[i] == LETTERS[i]) == ActiveHigh(i) then Mask(i) else 0) + ProtOf(flags, i + 1)
  }

  // uaem_flags_to_prot
  method FlagsToProt(flags: seq<byte>) returns (prot: nat)
    requires |flags| == 8
    ensures prot == ProtOf(flags, 0)
  {
    prot := 0;
    for i := 0 to 8
      invariant prot + ProtOf(flags, i) == ProtOf(flags, 0)
    {
      var present := flags[i] == LETTERS[i];
      var bitSet := if ActiveHigh(i) then present else !present;
      if bitSet {
        prot := prot + Mask(i);
      }
    }
  }

  lemma FlagShowsBit(prot: nat, i: nat)
    requires i < 8
    ensures (Flags(prot)[i] == LETTERS[i]) == ActiveHigh(i) <==> BitSet(prot, i)
  {
  }

  lemma OneFlag(prot: nat, i: nat)
    requires i < 8
    ensures ProtOf(Flags(prot), i) == (if BitSet(prot, i) then Mask(i) else 0) + ProtOf(Flags(prot), i + 1)
  {
    FlagShowsBit(prot, i);
  }

  // The highest of the low bits, one mask at a time.
  lemma Top1(p: nat)
    ensures p % 2 == if p / 1 % 2 == 1 then 1 else 0
  {
  }

  lemma Top2(p: nat)
    ensures p % 4 == (if p / 2 % 2 == 1 then 2 else 0) + p % 2
  {
  }

  lemma Top4(p: nat)
    ensures p % 8 == (if p / 4 % 2 == 1 then 4 else 0) + p % 4
  {
  }

  lemma Top8(p: nat)
    ensures p % 16 == (if p / 8 % 2 == 1 then 8 else 0) + p % 8
  {
  }

  lemma Top16(p: nat)
    ensures p % 32 == (if p / 16 % 2 == 1 then 16 else 0) + p % 16
  {
  }

  lemma Top32(p: nat)
    ensures p % 64 == (if p / 32 % 2 == 1 then 32 else 0) + p % 32
  {
  }

  lemma Top64(p: nat)
    ensures p % 128 == (if p / 64 % 2 == 1 then 64 else 0) + p % 64
  {
  }

  lemma Top128(p: nat)
    ensures p % 256 == (if p / 128 % 2 == 1 then 128 else 0) + p % 128
  {
  }

  lemma LowBitsBack(prot: nat)
    ensures ProtOf(Flags(prot), 4) == prot % 16
  {
    OneFlag(prot, 7);
    OneFlag(prot, 6);
    OneFlag(prot, 5);
    OneFlag(prot, 4);
    Top1(prot);
    Top2(prot);
    Top4(prot);
    Top8(prot);
  }

  // The low eight protection bits, back from the flags.
  lemma BitsBack(prot: nat)
    ensures ProtOf(Flags(prot), 0) == prot % 256
  {
    LowBitsBack(prot);
    OneFlag(prot, 3);
    OneFlag(prot, 2);
    OneFlag(prot, 1);
    OneFlag(prot, 0);
    Top16(prot);
    Top32(prot);
    Top64(prot);
    Top128(prot);
  }

  // ---- Writing -------------------------------------------------------------------------------

  function Digit(n: nat): byte {
    ZERO + n % 10
  }

  // "YYYY-MM-DD HH:MM:SS.CC" behind a space.
  function Timestamp(x: Date, mins: nat, ticks: nat): (r: seq<byte>)
    requires 0 <= x.year && 0 <= x.month && 0 <= x.day
    ensures |r| == 23
  {
    var (century, year) := (x.year / 100, x.year % 100);
    var (hh, mm, ss, cc) := (mins / 60, mins % 60, ticks / 50, ticks % 50 * 2);
    [SPACE, Digit(century / 10), Digit(century), Digit(year / 10), Digit(year),
     DASH, Digit(x.month / 10), Digit(x.month), DASH, Digit(x.day / 10), Digit(x.day),
     SPACE, Digit(hh / 10), Digit(hh), COLON, Digit(mm / 10), Digit(mm), COLON, Digit(ss / 10), Digit(ss),
     DOT, Digit(cc / 10), Digit(cc)]
  }

  function Sidecar(prot: nat, days: nat, mins: nat, ticks: nat, comment: Option<seq<byte>>): seq<byte>
    requires CivilAt(days).year >= 0
  {
    Flags(prot) + Timestamp(CivilAt(days), mins, ticks) + if comment.Some? then [SPACE] + comment.value else []
  }

  // ---- Parsing -------------------------------------------------------------------------------

  datatype Line = Line(prot: nat, days: int, mins: int, ticks: int, comment: Option<seq<byte>>)

  predicate IsFlag(b: byte) {
    b == DASH || 97 <= b <= 122
  }

  predicate Separators(s: seq<byte>)
    requires |s| >= 31
  {
    && s[8] == SPACE && s[13] == DASH && s[16] == DASH && s[19] == SPACE
    && s[22] == COLON && s[25] == COLON && s[28] == DOT
  }

  // Where the digits are.
  predicate AtDigit(i: nat) {
    9 <= i < 31 && i != 13 && i != 16 && i != 19 && i != 22 && i != 25 && i != 28
  }

  predicate WellFormed(s: seq<byte>) {
    && |s| >= 31 && (forall i :: 0 <= i < 8 ==> IsFlag(s[i])) && Separators(s)
    && forall i :: 0 <= i < 31 && AtDigit(i) ==> IsDigit(s[i])
  }

  function Two(s: seq<byte>, i: nat): int
    requires i + 1 < |s|
  {
    (s[i] as int - 48) * 10 + (s[i + 1] as int - 48)
  }

  // parse_uaem_line
  function Parse(s: seq<byte>): Option<Line> {
    if !WellFormed(s) then None
    else
      Some(Line(ProtOf(s[..8], 0),
                AmigaDays(Date(Two(s, 9) * 100 + Two(s, 11), Two(s, 14), Two(s, 17))),
                Two(s, 20) * 60 + Two(s, 23),
                Two(s, 26) * 50 + Two(s, 29) / 2,
                if |s| > 31 && s[31] == SPACE then Some(s[32..]) else None))
  }

  method ParseLine(s: seq<byte>) returns (r: Option<Line>)
    ensures r == Parse(s)
  {
    if |s| < 31 {
      return None;
    }
    for i := 0 to 8
      invariant forall j :: 0 <= j < i ==> IsFlag(s[j])
    {
      if s[i] != DASH && (s[i] < 97 || s[i] > 122) {
        return None;
      }
    }
    if !Separators(s) {
      return None;
    }
    for i := 9 to 31
      invariant forall j :: 0 <= j < i && AtDigit(j) ==> IsDigit(s[j])
    {
      if i == 13 || i == 16 || i == 19 || i == 22 || i == 25 || i == 28 {
        continue;
      }
      if s[i] < 48 || s[i] > 57 {
        return None;
      }
    }
    var prot := FlagsToProt(s[..8]);
    var year := Two(s, 9) * 100 + Two(s, 11);
    return Some(Line(prot, AmigaDays(Date(year, Two(s, 14), Two(s, 17))),
                     Two(s, 20) * 60 + Two(s, 23), Two(s, 26) * 50 + Two(s, 29) / 2,
                     if |s| > 31 && s[31] == SPACE then Some(s[32..]) else None));
  }

  // ---- Round trip ------------------------------------------------------------------------------

  // A number below 100 stands at i.
  predicate HasTwo(s: seq<byte>, i: nat, n: nat) {
    i + 1 < |s| && n < 100 && s[i] == Digit(n / 10) && s[i + 1] == Digit(n)
  }

  lemma TwoBack(s: seq<byte>, i: nat, n: nat)
    requires HasTwo(s, i, n)
    ensures IsDigit(s[i]) && IsDigit(s[i + 1]) && Two(s, i) == n
  {
  }

  lemma FlagsAreFlags(prot: nat)
    ensures forall i :: 0 <= i < 8 ==> IsFlag(Flags(prot)[i])
  {
  }

  lemma TicksBack(ticks: nat)
    requires ticks < 3000
    ensures ticks / 50 < 100 && ticks % 50 * 2 < 100 && ticks / 50 * 50 + ticks % 50 * 2 / 2 == ticks
  {
  }

  // Where a written line has its numbers and separators.
  lemma Layout(s: seq<byte>, x: Date, mins: nat, ticks: nat)
    requires |s| >= 31 && 0 <= x.year <= 9999 && 0 <= x.month < 100 && 0 <= x.day < 100 && mins < 1440 && ticks < 3000
    requires s[8..31] == Timestamp(x, mins, ticks)
    ensures Separators(s)
    ensures HasTwo(s, 9, x.year / 100) && HasTwo(s, 11, x.year % 100) && HasTwo(s, 14, x.month) && HasTwo(s, 17, x.day)
    ensures HasTwo(s, 20, mins / 60) && HasTwo(s, 23, mins % 60) && HasTwo(s, 26, ticks / 50)
    ensures HasTwo(s, 29, ticks % 50 * 2)
  {
    var t := s[8..31];
    assert s[8] == t[0] && s[9] == t[1] && s[10] == t[2] && s[11] == t[3] && s[12] == t[4] && s[13] == t[5];
    assert s[14] == t[6] && s[15] == t[7] && s[16] == t[8] && s[17] == t[9] && s[18] == t[10] && s[19] == t[11];
    assert s[20] == t[12] && s[21] == t[13] && s[22] == t[14] && s[23] == t[15] && s[24] == t[16] && s[25] == t[17];
    assert s[26] == t[18] && s[27] == t[19] && s[28] == t[20] && s[29] == t[21] && s[30] == t[22];
    TicksBack(ticks);
  }

  // The digits of a written line are where they are looked for.
  lemma DigitsBack(s: seq<byte>, x: Date, mins: nat, ticks: nat)
    requires |s| >= 31 && 0 <= x.year <= 9999 && 0 <= x.month < 100 && 0 <= x.day < 100 && mins < 1440 && ticks < 3000
    requires s[8..31] == Timestamp(x, mins, ticks)
    ensures Separators(s) && forall i :: 0 <= i < 31 && AtDigit(i) ==> IsDigit(s[i])
    ensures Two(s, 9) * 100 + Two(s, 11) == x.year && Two(s, 14) == x.month && Two(s, 17) == x.day
    ensures Two(s, 20) * 60 + Two(s, 23) == mins && Two(s, 26) * 50 + Two(s, 29) / 2 == ticks
  {
    Layout(s, x, mins, ticks);
    TicksBack(ticks);
    TwoBack(s, 9, x.year / 100);
    TwoBack(s, 11, x.year % 100);
    TwoBack(s, 14, x.month);
    TwoBack(s, 17, x.day);
    TwoBack(s, 20, mins / 60);
    TwoBack(s, 23, mins % 60);
    TwoBack(s, 26, ticks / 50);
    TwoBack(s, 29, ticks % 50 * 2);
  }

  lemma LineParts(flags: seq<byte>, t: seq<byte>, rest: seq<byte>)
    requires |flags| == 8 && |t| == 23
    ensures var s := flags + t + rest;
      |s| >= 31 && s[..8] == flags && s[8..31] == t && s[31..] == rest && forall j :: 0 <= j < 8 ==> s[j] == flags[j]
  {
  }

  // Up to the year 9999, what is written is what is parsed; of the protection bits the low
  // eight come back.
  lemma SidecarRoundTrip(prot: nat, days: nat, mins: nat, ticks: nat, comment: Option<seq<byte>>)
    requires CivilAt(days).year <= 9999 && mins < 1440 && ticks < 3000
    ensures CivilAt(days).year >= 0
    ensures Parse(Sidecar(prot, days, mins, ticks, comment)) == Some(Line(prot % 256, days, mins, ticks, comment))
  {
    NoYearsBefore1978(days);
    var rest := if comment.Some? then [SPACE] + comment.value else [];
    LineParts(Flags(prot), Timestamp(CivilAt(days), mins, ticks), rest);
    ParseParts(Sidecar(prot, days, mins, ticks, comment), prot, CivilAt(days), mins, ticks, comment);
    BitsBack(prot);
    AmigaDaysInvertsCalendar(days);
  }

  lemma ParseParts(s: seq<byte>, prot: nat, x: Date, mins: nat, ticks: nat, comment: Option<seq<byte>>)
    requires |s| >= 31 && 0 <= x.year <= 9999 && 0 <= x.month < 100 && 0 <= x.day < 100 && mins < 1440 && ticks < 3000
    requires s[..8] == Flags(prot) && s[8..31] == Timestamp(x, mins, ticks)
    requires s[31..] == if comment.Some? then [SPACE] + comment.value else []
    ensures Parse(s) == Some(Line(ProtOf(Flags(prot), 0), AmigaDays(x), mins, ticks, comment))
  {
    FlagsAreFlags(prot);
    assert forall j :: 0 <= j < 8 ==> s[j] == s[..8][j];
    DigitsBack(s, x, mins, ticks);
    CommentBack(s, comment);
  }

  lemma CommentBack(s: seq<byte>, comment: Option<seq<byte>>)
    requires |s| >= 31 && s[31..] == if comment.Some? then [SPACE] + comment.value else []
    ensures (if |s| > 31 && s[31] == SPACE then Some(s[32..]) else None) == comment
  {
    var rest := s[31..];
    if comment.Some? {
      assert s[31] == rest[0] && s[32..] == rest[1..] == comment.value;
    }
  }
}
