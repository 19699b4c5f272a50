// What the lines of an exclude list say, from how they are written.

module ExcludeLines {
  import opened Bytes
  import opened Exclude

  predicate Blanks(s: seq<byte>) {
    forall i :: 0 <= i < |s| ==> s[i] == 32 || s[i] == 9
  }

  // A text that begins and ends with something to see, and is not taken for a comment or
  // the marks around it.
  predicate Body(b: seq<byte>) {
    && b != [] && b[0] !in {32, 9, 35, 47} && b[|b| - 1] !in {32, 9, 13, 47} && !HasToken(b)
  }

  function Slash(there: bool): seq<byte> {
    if there then [47] else []
  }

  function Line(left: seq<byte>, lead: bool, body: seq<byte>, trail: bool, right: seq<byte>, cr: bool): seq<byte> {
    left + (Slash(lead) + body + Slash(trail)) + right + if cr then [13] else []
  }

  lemma {:induction false} TrimLeftBlanks(left: seq<byte>, t: seq<byte>)
    requires Blanks(left) && (t == [] || t[0] !in {32, 9})
    ensures TrimLeft(left + t) == t
    decreases |left|
  {
    if left == [] {
      assert left + t == t;
    } else {
      assert (left + t)[1..] == left[1..] + t;
      TrimLeftBlanks(left[1..], t);
    }
  }

  lemma {:induction false} TrimRightBlanks(t: seq<byte>, right: seq<byte>)
    requires Blanks(right) && t != [] && t[|t| - 1] !in {32, 9}
    ensures TrimRight(t + right) == t
    decreases |right|
  {
    if right == [] {
      assert t + right == t;
    } else {
      assert (t + right)[..|t + right| - 1] == t + right[..|right| - 1];
      TrimRightBlanks(t, right[..|right| - 1]);
    }
  }

  lemma Trimmed(left: seq<byte>, t: seq<byte>, right: seq<byte>, cr: bool)
    requires Blanks(left) && Blanks(right) && t != [] && t[0] !in {32, 9} && t[|t| - 1] !in {32, 9, 13}
    ensures TrimRight(TrimLeft(DropReturn(left + t + right + if cr then [13] else []))) == t
  {
    var s := left + t + right;
    if cr {
      assert (s + [13])[..|s|] == s;
    } else {
      assert s + [] == s;
      assert s[|s| - 1] == if right == [] then t[|t| - 1] else right[|right| - 1];
    }
    assert left + t + right == left + (t + right);
    TrimLeftBlanks(left, t + right);
    TrimRightBlanks(t, right);
  }

  lemma NoTokenAround(lead: bool, body: seq<byte>, trail: bool)
    requires Body(body)
    ensures !HasToken(Slash(lead) + body + Slash(trail))
  {
    var s := Slash(lead) + body + Slash(trail);
    var k := if lead then 1 else 0;
    forall i | 0 <= i < |s| - 1
      ensures !(s[i] == HASH && s[i + 1] == 63)
    {
      if k <= i < k + |body| - 1 {
        assert s[i] == body[i - k] && s[i + 1] == body[i - k + 1];
      }
    }
  }

  // Blanks around it and a carriage return do not count; a slash behind asks for a
  // directory; a slash in front or inside ties the pattern to the root.
  lemma LineMeans(left: seq<byte>, lead: bool, body: seq<byte>, trail: bool, right: seq<byte>, cr: bool)
    requires Blanks(left) && Blanks(right) && Body(body)
    ensures ParseLine(Line(left, lead, body, trail, right, cr)) == Some(Pattern(body, trail, lead || 47 in body))
  {
    var t := Slash(lead) + body + Slash(trail);
    Trimmed(left, t, right, cr);
    NoTokenAround(lead, body, trail);
    NormalizeRemovesTokens(t);
    ClassifiedMeans(lead, body, trail);
  }

  lemma ClassifiedMeans(lead: bool, body: seq<byte>, trail: bool)
    requires Body(body)
    ensures Classified(Slash(lead) + body + Slash(trail)) == Some(Pattern(body, trail, lead || 47 in body))
  {
    var n := Slash(lead) + body + Slash(trail);
    var d := Slash(lead) + body;
    assert trail ==> n[..|n| - 1] == d;
    assert !trail ==> n == d;
    assert lead ==> d[1..] == body;
    assert !lead ==> d == body;
  }

  // "#?" is another way to write '*', wherever it stands.
  lemma {:induction false} TokenIsStar(a: seq<byte>, b: seq<byte>)
    ensures Normalize(a + [35, 63] + b) == Normalize(a) + [42] + Normalize(b)
    ensures Normalize(a + [42] + b) == Normalize(a) + [42] + Normalize(b)
    decreases |a|
  {
    var s, t := a + [35, 63] + b, a + [42] + b;
    if a == [] {
      assert s[2..] == b && t[1..] == b;
    } else if |a| >= 2 && a[0] == HASH && a[1] == 63 {
      assert s[2..] == a[2..] + [35, 63] + b && t[2..] == a[2..] + [42] + b;
      TokenIsStar(a[2..], b);
      Regroup(Normalize(a[2..]), Normalize(b), 42);
    } else {
      assert s[1..] == a[1..] + [35, 63] + b && t[1..] == a[1..] + [42] + b;
      TokenIsStar(a[1..], b);
      Regroup(Normalize(a[1..]), Normalize(b), a[0]);
    }
  }

  lemma Regroup(x: seq<byte>, y: seq<byte>, c: byte)
    ensures [c] + (x + [42] + y) == [c] + x + [42] + y
  {
  }

  // A line of blanks says nothing, nor does a comment.
  lemma BlankMeansNothing(line: seq<byte>)
    requires Blanks(line)
    ensures ParseLine(line).None?
  {
    assert DropReturn(line) == line;
    TrimLeftBlanks(line, []);
    assert line + [] == line;
  }

  lemma {:induction false} TrimRightKeepsFirst(s: seq<byte>, c: byte)
    requires s != [] && s[0] == c && c !in {32, 9}
    ensures TrimRight(s) != [] && TrimRight(s) <= s
    decreases |s|
  {
    if s[|s| - 1] in {32, 9} {
      TrimRightKeepsFirst(s[..|s| - 1], c);
    }
  }

  lemma CommentMeansNothing(left: seq<byte>, text: seq<byte>)
    requires Blanks(left) && (text == [] || text[0] != 63)
    ensures ParseLine(left + [35] + text).None?
  {
    var line := left + [35] + text;
    var s := DropReturn(line);
    var u := s[|left| + 1..];
    assert s == left + ([35] + u) && (u == [] || u[0] == text[0]);
    TrimLeftBlanks(left, [35] + u);
    TrimRightKeepsFirst([35] + u, 35);
  }

  // ---- Lines one after the other ------------------------------------------------------------------

  function Lines(lines: seq<seq<byte>>): seq<byte> {
    if lines == [] then [] else lines[0] + [10] + Lines(lines[1..])
  }

  // What the lines say, one after the other.
  function Meant(lines: seq<seq<byte>>, parse: seq<byte> -> Option<Pattern>): seq<Pattern> {
    if lines == [] then []
    else (if parse(lines[0]).Some? then [parse(lines[0]).value] else []) + Meant(lines[1..], parse)
  }

  lemma {:induction false} EndOfLine(text: seq<byte>, pos: nat, e: nat)
    requires pos <= e <= |text| && 10 !in text[pos..e] && (e == |text| || text[e] == 10)
    ensures LineEnd(text, pos) == e
    decreases e - pos
  {
    if pos < e {
      assert text[pos] in text[pos..e];
      assert text[pos + 1..e] == text[pos..e][1..];
      EndOfLine(text, pos + 1, e);
    }
  }

  lemma {:induction false} LinesMean(text: seq<byte>, pos: nat, lines: seq<seq<byte>>, last: seq<byte>,
                                     parse: seq<byte> -> Option<Pattern>)
    requires (forall l :: l in lines ==> 10 !in l) && 10 !in last && pos <= |text| && text[pos..] == Lines(lines) + last
    ensures LinesFrom(text, pos, parse) == Meant(lines, parse) + LastMeant(last, parse)
    decreases |lines|
  {
    if lines == [] {
      LastLine(text, pos, last, parse);
    } else {
      var e := pos + |lines[0]|;
      assert lines[0] in lines;
      NextLine(text, pos, lines, last);
      OneLineMore(text, pos, e, lines[0], parse);
      LinesMean(text, e + 1, lines[1..], last, parse);
      Join3(Listed(parse(lines[0])), Meant(lines[1..], parse), LastMeant(last, parse));
    }
  }

  lemma Join3(a: seq<Pattern>, b: seq<Pattern>, c: seq<Pattern>)
    ensures a + (b + c) == a + b + c
  {
  }

  lemma OneLineMore(text: seq<byte>, pos: nat, e: nat, line: seq<byte>, parse: seq<byte> -> Option<Pattern>)
    requires pos <= e < |text| && 10 !in line && text[pos..e] == line && text[e] == 10
    ensures LinesFrom(text, pos, parse) == Listed(parse(line)) + LinesFrom(text, e + 1, parse)
  {
    EndOfLine(text, pos, e);
  }

  function LastMeant(last: seq<byte>, parse: seq<byte> -> Option<Pattern>): seq<Pattern> {
    if last == [] || parse(last).None? then [] else [parse(last).value]
  }

  lemma LastLine(text: seq<byte>, pos: nat, last: seq<byte>, parse: seq<byte> -> Option<Pattern>)
    requires 10 !in last && pos <= |text| && text[pos..] == Lines([]) + last
    ensures LinesFrom(text, pos, parse) == LastMeant(last, parse)
  {
    assert text[pos..] == last;
    if last != [] {
      assert text[pos..|text|] == last;
      EndOfLine(text, pos, |text|);
    }
  }

  // Lines ended by line feeds, the last one perhaps not, give their patterns in order.
  lemma ListMeans(lines: seq<seq<byte>>, last: seq<byte>)
    requires (forall l :: l in lines ==> 10 !in l) && 10 !in last
    ensures ParseFrom(Lines(lines) + last, 0) == Meant(lines, line => ParseLine(line)) + LastMeant(last, line => ParseLine(line))
  {
    var text := Lines(lines) + last;
    assert text[0..] == text;
    LinesMean(text, 0, lines, last, line => ParseLine(line));
  }

  lemma NextLine(text: seq<byte>, pos: nat, lines: seq<seq<byte>>, last: seq<byte>)
    requires lines != [] && pos <= |text| && text[pos..] == Lines(lines) + last
    ensures var e := pos + |lines[0]|;
      e < |text| && text[pos..e] == lines[0] && text[e] == 10 && text[e + 1..] == Lines(lines[1..]) + last
  {
    var e := pos + |lines[0]|;
    assert text[pos..] == lines[0] + ([10] + (Lines(lines[1..]) + last));
    assert text[pos..e] == text[pos..][..|lines[0]|];
    assert text[e] == text[pos..][|lines[0]|];
    assert text[e + 1..] == text[pos..][|lines[0]| + 1..];
  }
}
