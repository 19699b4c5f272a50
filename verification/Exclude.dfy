// The exclude list: parsing its lines and matching paths against it.

module Exclude {
  import opened Bytes
  import opened Glob
  import opened Paths

  const HASH: byte := 35
  const NEWLINE: byte := 10
  const RETURN: byte := 13
  const BLANK: byte := 32
  const TAB: byte := 9

  datatype Pattern = Pattern(text: seq<byte>, dirOnly: bool, anchored: bool)

  // ---- Parsing ---------------------------------------------------------------------------

  // Every "#?" reads as '*'.
  function Normalize(s: seq<byte>): (r: seq<byte>)
    ensures |r| <= |s|
  {
    if s == [] then []
    else if |s| >= 2 && s[0] == HASH && s[1] == ANY then [STAR] + Normalize(s[2..])
    else [s[0]] + Normalize(s[1..])
  }

  predicate HasToken(s: seq<byte>) {
    exists i :: 0 <= i < |s| - 1 && s[i] == HASH && s[i + 1] == ANY
  }

  // No token is left, and a text without one is not touched.
  lemma {:induction false} NormalizeRemovesTokens(s: seq<byte>)
    ensures !HasToken(Normalize(s))
    ensures !HasToken(s) ==> Normalize(s) == s
    ensures s != [] && (s[0] != HASH || |s| < 2 || s[1] != ANY) ==> Normalize(s) != [] && Normalize(s)[0] == s[0]
    decreases |s|
  {
    if s != [] {
      if |s| >= 2 && s[0] == HASH && s[1] == ANY {
        NormalizeRemovesTokens(s[2..]);
        NoTokenCons(STAR, Normalize(s[2..]));
      } else {
        var t := Normalize(s[1..]);
        NormalizeRemovesTokens(s[1..]);
        if s[0] == HASH && |s| >= 2 {
          assert t == [] || t[0] == STAR || t[0] == s[1];
        }
        NoTokenCons(s[0], t);
        if !HasToken(s) {
          NoTokenTail(s);
          assert s == [s[0]] + s[1..];
        }
      }
    }
  }

  lemma NoTokenCons(b: byte, t: seq<byte>)
    requires !HasToken(t) && !(b == HASH && t != [] && t[0] == ANY)
    ensures !HasToken([b] + t)
  {
    var s := [b] + t;
    forall i | 0 <= i < |s| - 1
      ensures !(s[i] == HASH && s[i + 1] == ANY)
    {
      if i > 0 {
        assert s[i] == t[i - 1] && s[i + 1] == t[i];
      }
    }
  }

  lemma NoTokenTail(s: seq<byte>)
    requires s != [] && !HasToken(s)
    ensures !HasToken(s[1..])
  {
    forall i | 0 <= i < |s[1..]| - 1
      ensures !(s[1..][i] == HASH && s[1..][i + 1] == ANY)
    {
      assert s[1..][i] == s[i + 1] && s[1..][i + 1] == s[i + 2];
    }
  }

  predicate IsBlank(b: byte) {
    b == BLANK || b == TAB
  }

  function TrimLeft(s: seq<byte>): seq<byte> {
    if s != [] && IsBlank(s[0]) then TrimLeft(s[1..]) else s
  }

  function TrimRight(s: seq<byte>): seq<byte> {
    if s != [] && IsBlank(s[|s| - 1]) then TrimRight(s[..|s| - 1]) else s
  }

  function DropReturn(s: seq<byte>): seq<byte> {
    if s != [] && s[|s| - 1] == RETURN then s[..|s| - 1] else s
  }

  // The slashes of a rewritten line.
  function Classified(n: seq<byte>): Option<Pattern> {
    var dirOnly := n != [] && n[|n| - 1] == SLASH;
    var d := if dirOnly then n[..|n| - 1] else n;
    if d == [] then None
    else
      var t := if d[0] == SLASH then d[1..] else d;
      if t == [] then None else Some(Pattern(t, dirOnly, d[0] == SLASH || SLASH in t))
  }

  // What a line means: nothing, when blank or a comment; a trailing slash asks for a
  // directory; any other slash ties the pattern to the root.
  function ParseLine(line: seq<byte>): Option<Pattern> {
    var s := TrimRight(TrimLeft(DropReturn(line)));
    if s == [] || (s[0] == HASH && (|s| < 2 || s[1] != ANY)) then None
    else
      Classified(Normalize(s))
  }

  function LineEnd(text: seq<byte>, pos: nat): (r: nat)
    requires pos <= |text|
    ensures pos <= r <= |text| && (r < |text| ==> text[r] == NEWLINE)
    decreases |text| - pos
  {
    if pos == |text| || text[pos] == NEWLINE then pos else LineEnd(text, pos + 1)
  }

  function Listed(x: Option<Pattern>): seq<Pattern> {
    if x.Some? then [x.value] else []
  }

  // Every line from `pos` on, by what `parse` makes of it.
  function LinesFrom(text: seq<byte>, pos: nat, parse: seq<byte> -> Option<Pattern>): seq<Pattern>
    requires pos <= |text|
    decreases |text| - pos
  {
    if pos == |text| then []
    else
      var e := LineEnd(text, pos);
      Listed(parse(text[pos..e])) + if e == |text| then [] else LinesFrom(text, e + 1, parse)
  }

  function ParseFrom(text: seq<byte>, pos: nat): seq<Pattern>
    requires pos <= |text|
  {
    LinesFrom(text, pos, line => ParseLine(line))
  }

  // The first k bytes of s were rewritten to `done`.
  ghost predicate Rewritten(s: seq<byte>, k: nat, done: seq<byte>) {
    k <= |s| && Normalize(s) == done + Normalize(s[k..])
  }

  lemma NormalizeStart(s: seq<byte>)
    ensures Rewritten(s, 0, [])
  {
    assert s[0..] == s;
  }

  lemma NormalizeEnd(s: seq<byte>, done: seq<byte>)
    requires Rewritten(s, |s|, done)
    ensures Normalize(s) == done
  {
  }

  lemma NormalizeStep(s: seq<byte>, k: nat, done: seq<byte>) returns (b: byte, next: nat)
    requires k < |s| && Rewritten(s, k, done)
    ensures var token := k + 1 < |s| && s[k] == HASH && s[k + 1] == ANY;
      b == (if token then STAR else s[k]) && next == k + if token then 2 else 1
    ensures next <= |s| && Rewritten(s, next, done + [b])
  {
    var t := s[k..];
    if k + 1 < |s| && s[k] == HASH && s[k + 1] == ANY {
      b, next := STAR, k + 2;
      assert t[1] == s[k + 1] && t[2..] == s[next..];
    } else {
      b, next := s[k], k + 1;
      assert |t| >= 2 ==> t[1] == s[k + 1];
      assert t[1..] == s[next..];
    }
  }

  // The bytes from `at` on are `part`.
  predicate Holds(raw: array<byte>, at: nat, part: seq<byte>)
    reads raw
  {
    at + |part| <= raw.Length && forall j :: at <= j < at + |part| ==> raw[j] == part[j - at]
  }

  // The rewriting of "#?" inside the copied text, in place: never longer, and nothing else
  // of the text is touched.
  method RewriteTokens(raw: array<byte>, ls: nat, le: nat, ghost text: seq<byte>) returns (w: nat)
    requires ls <= le && le == ls + |text| && Holds(raw, ls, text)
    modifies raw
    ensures ls <= w <= le && w == ls + |Normalize(text)| && Holds(raw, ls, Normalize(text))
    ensures forall j :: 0 <= j < ls || le <= j < raw.Length ==> raw[j] == old(raw[j])
  {
    w := ls;
    var r := ls;
    ghost var done: seq<byte> := [];
    NormalizeStart(text);
    while r < le
      invariant ls <= w <= r <= le && w == ls + |done| && Holds(raw, ls, done)
      invariant forall j :: r <= j < le ==> raw[j] == text[j - ls]
      invariant Rewritten(text, r - ls, done)
      invariant forall j :: 0 <= j < ls || le <= j < raw.Length ==> raw[j] == old(raw[j])
    {
      ghost var b, next := NormalizeStep(text, r - ls, done);
      if r + 1 < le && raw[r] == HASH && raw[r + 1] == ANY {
        raw[w] := STAR;
        r := r + 2;
      } else {
        raw[w] := raw[r];
        r := r + 1;
      }
      done := done + [b];
      w := w + 1;
    }
    NormalizeEnd(text, done);
  }

  // One line of the text, trimmed by moving its ends and rewritten where it stands.
  method ParseLineInPlace(raw: array<byte>, start: nat, end: nat, ghost line: seq<byte>) returns (r: Option<Pattern>)
    requires start <= end && end == start + |line| && Holds(raw, start, line)
    modifies raw
    ensures r == ParseLine(line)
    ensures forall j :: 0 <= j < start || end <= j < raw.Length ==> raw[j] == old(raw[j])
  {
    var ls, le;
    ghost var s;
    ls, le, s := Trim(raw, start, end, line);
    if ls >= le || (raw[ls] == HASH && (ls + 1 >= le || raw[ls + 1] != ANY)) {
      return None;
    }
    le := RewriteTokens(raw, ls, le, s);
    var text := raw[ls..le];
    assert text == Normalize(s);
    r := Classify(text);
  }

  method Classify(n: seq<byte>) returns (r: Option<Pattern>)
    ensures r == Classified(n)
  {
    var ls, le := 0, |n|;
    var dirOnly, anchored := false, false;
    if le > ls && n[le - 1] == SLASH {
      dirOnly := true;
      le := le - 1;
    }
    if ls >= le {
      return None;
    }
    if n[ls] == SLASH {
      anchored := true;
      ls := ls + 1;
    }
    var leading := anchored;
    var scan := ls;
    while scan < le && !(n[scan] == SLASH)
      invariant ls <= scan <= le && SLASH !in n[ls..scan]
    {
      scan := scan + 1;
    }
    if scan < le {
      anchored := true;
    }
    if ls >= le {
      return None;
    }
    var t := n[ls..le];
    assert n[..|n|] == n;
    assert scan < le ==> t[scan - ls] == SLASH;
    assert n[..le][..] == n[..le] && (leading ==> n[..le][1..] == t) && (!leading ==> n[..le] == t);
    return Some(Pattern(t, dirOnly, anchored));
  }

  // A trailing carriage return, then blanks on both sides.
  method Trim(raw: array<byte>, start: nat, end: nat, ghost line: seq<byte>) returns (ls: nat, le: nat, ghost s: seq<byte>)
    requires start <= end && end == start + |line| && Holds(raw, start, line)
    ensures start <= ls <= le <= end && le == ls + |s| && Holds(raw, ls, s)
    ensures s == TrimRight(TrimLeft(DropReturn(line)))
  {
    ls, le := start, end;
    if le > ls && raw[le - 1] == RETURN {
      le := le - 1;
    }
    s := DropReturn(line);
    while ls < le && IsBlank(raw[ls])
      invariant start <= ls <= le && le == ls + |s| && Holds(raw, ls, s)
      invariant TrimLeft(s) == TrimLeft(DropReturn(line))
    {
      ls := ls + 1;
      s := s[1..];
    }
    while le > ls && IsBlank(raw[le - 1])
      invariant ls <= le <= end && le == ls + |s| && Holds(raw, ls, s)
      invariant TrimRight(s) == TrimRight(TrimLeft(DropReturn(line)))
    {
      le := le - 1;
      s := s[..|s| - 1];
    }
  }

  // amisnap_exclude_parse: the text is copied once and its lines rewritten in the copy.
  method Parse(text: seq<byte>) returns (list: seq<Pattern>)
    ensures list == ParseFrom(text, 0)
  {
    list := [];
    ghost var parse := line => ParseLine(line);
    var raw := new byte[|text|](i requires 0 <= i < |text| => text[i]);
    var p := 0;
    while p < |text|
      invariant 0 <= p <= |text| && list + LinesFrom(text, p, parse) == LinesFrom(text, 0, parse)
      invariant forall j :: p <= j < |text| ==> raw[j] == text[j]
    {
      var e := FindLineEnd(raw, p, text);
      var line := ParseLineInPlace(raw, p, e, text[p..e]);
      OneLine(text, p, e, parse, list);
      if line.Some? {
        list := list + [line.value];
      } else {
        assert list + [] == list;
      }
      p := if e < |text| then e + 1 else e;
    }
    assert list + [] == list;
  }

  method FindLineEnd(raw: array<byte>, pos: nat, ghost text: seq<byte>) returns (e: nat)
    requires pos <= raw.Length == |text| && forall j :: pos <= j < |text| ==> raw[j] == text[j]
    ensures e == LineEnd(text, pos)
  {
    e := pos;
    while e < raw.Length && raw[e] != NEWLINE
      invariant pos <= e <= raw.Length && LineEnd(text, e) == LineEnd(text, pos)
    {
      e := e + 1;
    }
  }

  lemma OneLine(text: seq<byte>, p: nat, e: nat, parse: seq<byte> -> Option<Pattern>, list: seq<Pattern>)
    requires p < |text| && e == LineEnd(text, p)
    ensures list + LinesFrom(text, p, parse)
            == list + Listed(parse(text[p..e])) + LinesFrom(text, if e < |text| then e + 1 else e, parse)
  {
    var rest := LinesFrom(text, if e < |text| then e + 1 else e, parse);
    assert LinesFrom(text, p, parse) == Listed(parse(text[p..e])) + rest;
    Regroup(list, Listed(parse(text[p..e])), rest);
  }

  lemma Regroup(a: seq<Pattern>, b: seq<Pattern>, c: seq<Pattern>)
    ensures a + (b + c) == a + b + c
  {
  }

  // ---- Matching ------------------------------------------------------------------------------

  // Component by component, and as many on both sides.
  predicate AllGlob(ps: seq<seq<byte>>, cs: seq<seq<byte>>) {
    if ps == [] || cs == [] then ps == cs
    else GlobMatch(ps[0], cs[0]) && AllGlob(ps[1..], cs[1..])
  }

  predicate SomeGlob(p: seq<byte>, cs: seq<seq<byte>>) {
    cs != [] && (GlobMatch(p, cs[0]) || SomeGlob(p, cs[1..]))
  }

  // component_count
  method CountComponents(s: seq<byte>) returns (n: nat)
    ensures n == |Components(s)|
  {
    n := 1;
    assert s[0..] == s;
    for i := 0 to |s|
      invariant n + |Components(s[i..])| == |Components(s)| + 1
    {
      assert s[i..][1..] == s[i + 1..];
      if s[i] == SLASH {
        n := n + 1;
      }
    }
  }

  // The components still to come from `pos` on; at the end, none or an empty last one.
  ghost predicate ToCome(s: seq<byte>, pos: nat, cs: seq<seq<byte>>) {
    pos <= |s| && (cs == Components(s[pos..]) || (pos == |s| && cs == []))
  }

  // next_component
  method NextComponent(s: seq<byte>, pos: nat, ghost cs: seq<seq<byte>>)
    returns (c: seq<byte>, pos': nat, ghost rest: seq<seq<byte>>)
    requires ToCome(s, pos, cs) && cs != []
    ensures cs == [c] + rest && ToCome(s, pos', rest)
    ensures pos' > pos || pos' == |s|
  {
    var e := FindEnd(s, pos);
    c := s[pos..e];
    rest := FirstComponent(s, pos, e);
    pos' := if e < |s| then e + 1 else |s|;
  }

  lemma NothingToCome(ps: seq<seq<byte>>, cs: seq<seq<byte>>)
    requires |ps| == |cs| && (ps == [] || ps == [[]]) && (cs == [] || cs == [[]])
    ensures AllGlob(ps, cs)
  {
  }

  // pattern_matches_anchored
  method MatchesAnchored(pat: seq<byte>, path: seq<byte>) returns (r: bool)
    ensures r <==> AllGlob(Components(pat), Components(path))
  {
    var n := CountComponents(pat);
    var m := CountComponents(path);
    if n != m {
      SameCount(Components(pat), Components(path));
      return false;
    }
    var ppos: nat, spos: nat := 0, 0;
    ghost var ps, cs := Components(pat), Components(path);
    assert pat[0..] == pat && path[0..] == path;
    while ppos < |pat| || spos < |path|
      invariant ToCome(pat, ppos, ps) && ToCome(path, spos, cs) && |ps| == |cs|
      invariant AllGlob(ps, cs) <==> AllGlob(Components(pat), Components(path))
      decreases |pat| - ppos + |path| - spos
    {
      assert ps != [];
      var p, s;
      ghost var ps', cs';
      p, ppos, ps' := NextComponent(pat, ppos, ps);
      s, spos, cs' := NextComponent(path, spos, cs);
      var g := GlobMatchOne(p, s);
      assert ps[1..] == ps' && cs[1..] == cs';
      if !g {
        return false;
      }
      ps, cs := ps', cs';
    }
    assert pat[ppos..] == [] && path[spos..] == [];
    NothingToCome(ps, cs);
    return true;
  }

  lemma {:induction false} SameCount(ps: seq<seq<byte>>, cs: seq<seq<byte>>)
    ensures AllGlob(ps, cs) ==> |ps| == |cs|
    decreases |ps|
  {
    if ps != [] && cs != [] {
      SameCount(ps[1..], cs[1..]);
    }
  }

  // The components that are looked at one by one: an empty one after a last slash is not.
  function Looked(path: seq<byte>): seq<seq<byte>> {
    var cs := Components(path);
    if cs[|cs| - 1] == [] then cs[..|cs| - 1] else cs
  }

  lemma {:induction false} LastComponent(path: seq<byte>)
    ensures var cs := Components(path);
      cs[|cs| - 1] == [] <==> path == [] || path[|path| - 1] == SLASH
    decreases |path|
  {
    if path != [] {
      LastComponent(path[1..]);
    }
  }

  // pattern_matches_any_component
  method MatchesAnyComponent(pat: seq<byte>, path: seq<byte>) returns (r: bool)
    ensures r <==> path != [] && SomeGlob(pat, Looked(path))
  {
    if |path| == 0 {
      return false;
    }
    var spos: nat := 0;
    ghost var cs := Looked(path);
    assert path[0..] == path;
    LookedFrom(path, 0);
    while spos < |path|
      invariant spos <= |path| && cs == LookedAt(path, spos)
      invariant SomeGlob(pat, cs) <==> SomeGlob(pat, Looked(path))
    {
      var e := FindEnd(path, spos);
      LookedStep(path, spos, e);
      var g := GlobMatchOne(pat, path[spos..e]);
      if g {
        return true;
      }
      spos := if e < |path| then e + 1 else |path|;
      cs := LookedAt(path, spos);
    }
    return false;
  }

  function LookedAt(path: seq<byte>, pos: nat): seq<seq<byte>>
    requires pos <= |path|
  {
    if pos == |path| then [] else Looked(path[pos..])
  }

  lemma LookedFrom(path: seq<byte>, pos: nat)
    requires path != []
    ensures LookedAt(path, 0) == Looked(path)
  {
    assert path[0..] == path;
  }

  lemma LookedStep(path: seq<byte>, pos: nat, e: nat)
    requires pos < |path| && e == ComponentEnd(path, pos)
    ensures LookedAt(path, pos) == [path[pos..e]] + LookedAt(path, if e < |path| then e + 1 else e)
  {
    var rest := FirstComponent(path, pos, e);
    var cs := Components(path[pos..]);
    assert cs == [path[pos..e]] + rest;
    if e == |path| {
      assert path[pos..e] != [];
    } else if e + 1 == |path| {
      assert path[e + 1..] == [];
    } else {
      LookedCons(path[pos..e], rest);
    }
  }

  lemma LookedCons(c: seq<byte>, rest: seq<seq<byte>>)
    requires rest != []
    ensures var cs := [c] + rest;
      cs[|cs| - 1] == rest[|rest| - 1] && cs[..|cs| - 1] == [c] + rest[..|rest| - 1]
  {
  }

  // A pattern hits a path it is anchored to, or any one of its components.
  predicate Hits(pat: Pattern, path: seq<byte>, isDir: bool) {
    && (pat.dirOnly ==> isDir)
    && if pat.anchored then AllGlob(Components(pat.text), Components(path))
       else path != [] && SomeGlob(pat.text, Looked(path))
  }

  // amisnap_exclude_match
  method ExcludeMatch(list: seq<Pattern>, path: seq<byte>, isDir: bool) returns (r: bool)
    ensures r <==> exists i :: 0 <= i < |list| && Hits(list[i], path, isDir)
  {
    for i := 0 to |list|
      invariant forall j :: 0 <= j < i ==> !Hits(list[j], path, isDir)
    {
      var pat := list[i];
      if pat.dirOnly && !isDir {
        continue;
      }
      var hit;
      if pat.anchored {
        hit := MatchesAnchored(pat.text, path);
      } else {
        hit := MatchesAnyComponent(pat.text, path);
      }
      if hit {
        return true;
      }
    }
    return false;
  }

  // ---- What the list means for a path without stars --------------------------------------------

  predicate AllMatch(ps: seq<seq<byte>>, cs: seq<seq<byte>>) {
    |ps| == |cs| && forall i :: 0 <= i < |ps| ==> Matches(ps[i], cs[i])
  }

  lemma {:induction false} AllGlobIsAllMatch(ps: seq<seq<byte>>, cs: seq<seq<byte>>)
    requires forall c :: c in cs ==> STAR !in c
    ensures AllGlob(ps, cs) <==> AllMatch(ps, cs)
    decreases |ps|
  {
    if ps != [] && cs != [] {
      assert cs[0] in cs;
      GlobIsMatches(ps[0], cs[0]);
      AllGlobIsAllMatch(ps[1..], cs[1..]);
      assert forall i :: 1 <= i < |ps| ==> ps[i] == ps[1..][i - 1];
      assert forall i :: 1 <= i < |cs| ==> cs[i] == cs[1..][i - 1];
    }
  }

  lemma {:induction false} SomeGlobIsSomeMatch(p: seq<byte>, cs: seq<seq<byte>>)
    requires forall c :: c in cs ==> STAR !in c
    ensures SomeGlob(p, cs) <==> exists c :: c in cs && Matches(p, c)
    decreases |cs|
  {
    if cs != [] {
      assert cs[0] in cs;
      GlobIsMatches(p, cs[0]);
      SomeGlobIsSomeMatch(p, cs[1..]);
      assert forall c :: c in cs <==> c == cs[0] || c in cs[1..];
    }
  }

  lemma {:induction false} NoStarInComponents(path: seq<byte>)
    requires STAR !in path
    ensures forall c :: c in Components(path) ==> STAR !in c
    decreases |path|
  {
    if path != [] {
      assert path[0] in path;
      NoStarInComponents(path[1..]);
    }
  }

  // For a scanned path (it has no star and does not end in a slash) an anchored pattern
  // hits exactly when it has as many components and each means the path's, and any other
  // pattern exactly when it means some component.
  lemma HitsIsMeaning(pat: Pattern, path: seq<byte>, isDir: bool)
    requires STAR !in path && path != [] && path[|path| - 1] != SLASH
    ensures Hits(pat, path, isDir) <==>
            && (pat.dirOnly ==> isDir)
            && if pat.anchored then AllMatch(Components(pat.text), Components(path))
               else exists c :: c in Components(path) && Matches(pat.text, c)
  {
    NoStarInComponents(path);
    AllGlobIsAllMatch(Components(pat.text), Components(path));
    LastComponent(path);
    SomeGlobIsSomeMatch(pat.text, Looked(path));
  }
}
