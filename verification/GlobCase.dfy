// Letter case in patterns and paths: changing it anywhere changes nothing, and a pattern
// without wildcards matches its own text in any case and nothing else.

module GlobCase {
  import opened Bytes
  import opened Exclude
  import opened Glob
  import opened Letters
  import opened Paths

  lemma LettersFold(a: byte, b: byte)
    ensures CiEq(a, b) <==> SameLetter(a, b)
  {
  }

  lemma SameForAll(a: byte, b: byte, a': byte, b': byte)
    requires SameLetter(a, a') && SameLetter(b, b')
    ensures CiEq(a, b) <==> CiEq(a', b')
    ensures (a == 42 <==> a' == 42) && (a == 63 <==> a' == 63) && (a == 47 <==> a' == 47)
  {
  }

  lemma {:induction false} OnlyStarsRecased(p: seq<byte>, p': seq<byte>, pi: nat)
    requires Recased(p, p') && pi <= |p|
    ensures OnlyStars(p, pi) <==> OnlyStars(p', pi)
    decreases |p| - pi
  {
    if pi < |p| {
      SameForAll(p[pi], p[pi], p'[pi], p'[pi]);
      OnlyStarsRecased(p, p', pi + 1);
    }
  }

  lemma {:induction false} LoopRecased(p: seq<byte>, s: seq<byte>, p': seq<byte>, s': seq<byte>, pi: nat, si: nat,
                                       star: int, from: nat)
    requires Recased(p, p') && Recased(s, s') && pi <= |p| && si <= |s| && -1 <= star < |p| && from <= si
    ensures GlobFrom(p, s, pi, si, star, from) <==> GlobFrom(p', s', pi, si, star, from)
    decreases if star < 0 then |s| + 1 else |s| - from, |p| - pi + |s| - si
  {
    OnlyStarsRecased(p, p', pi);
    if si < |s| {
      if pi < |p| {
        SameForAll(p[pi], s[si], p'[pi], s'[si]);
      }
      if pi < |p| && (p[pi] == ANY || CiEq(p[pi], s[si])) {
        LoopRecased(p, s, p', s', pi + 1, si + 1, star, from);
      } else if pi < |p| && p[pi] == STAR {
        LoopRecased(p, s, p', s', pi + 1, si, pi, si);
      } else if star >= 0 {
        LoopRecased(p, s, p', s', star + 1, from + 1, star, from + 1);
      }
    }
  }

  lemma RecasedTail(p: seq<byte>, p': seq<byte>)
    requires Recased(p, p') && p != []
    ensures Recased(p[1..], p'[1..]) && SameLetter(p[0], p'[0])
  {
  }

  lemma {:induction false} MeaningRecased(p: seq<byte>, s: seq<byte>, p': seq<byte>, s': seq<byte>)
    requires Recased(p, p') && Recased(s, s')
    ensures Matches(p, s) <==> Matches(p', s')
    decreases |p| + |s|
  {
    if p != [] {
      RecasedTail(p, p');
      SameForAll(p[0], if s != [] then s[0] else 0, p'[0], if s' != [] then s'[0] else 0);
      if s != [] {
        RecasedTail(s, s');
        MeaningRecased(p, s[1..], p', s'[1..]);
        MeaningRecased(p[1..], s[1..], p'[1..], s'[1..]);
      }
      MeaningRecased(p[1..], s, p'[1..], s');
    }
  }

  // Neither the matcher nor what a pattern means looks at letter case.
  lemma CaseDoesNotMatter(p: seq<byte>, s: seq<byte>, p': seq<byte>, s': seq<byte>)
    requires Recased(p, p') && Recased(s, s')
    ensures (GlobMatch(p, s) <==> GlobMatch(p', s')) && (Matches(p, s) <==> Matches(p', s'))
  {
    LoopRecased(p, s, p', s', 0, 0, -1, 0);
    MeaningRecased(p, s, p', s');
  }

  // Text without a wildcard.
  predicate Plain(p: seq<byte>) {
    42 !in p && 63 !in p
  }

  lemma {:induction false} PlainLoop(p: seq<byte>, s: seq<byte>, k: nat)
    requires Plain(p) && k <= |p| && k <= |s| && Recased(p[..k], s[..k])
    ensures GlobFrom(p, s, k, k, -1, 0) <==> Recased(p, s)
    decreases |p| - k
  {
    if k < |p| {
      assert p[k] in p;
      if k < |s| {
        LettersFold(p[k], s[k]);
        if CiEq(p[k], s[k]) {
          assert Recased(p[..k + 1], s[..k + 1]);
          PlainLoop(p, s, k + 1);
        }
      }
    } else if k == |s| {
      assert p[..k] == p && s[..k] == s;
    }
  }

  lemma {:induction false} PlainMeaning(p: seq<byte>, s: seq<byte>)
    requires Plain(p)
    ensures Matches(p, s) <==> Recased(p, s)
    decreases |p|
  {
    if p != [] {
      assert p[0] in p;
      if s != [] {
        LettersFold(p[0], s[0]);
        PlainMeaning(p[1..], s[1..]);
        if SameLetter(p[0], s[0]) && Recased(p[1..], s[1..]) {
          RecasedCons(p, s);
        } else if Recased(p, s) {
          RecasedTail(p, s);
        }
      }
    }
  }

  lemma RecasedCons(p: seq<byte>, s: seq<byte>)
    requires p != [] && s != [] && SameLetter(p[0], s[0]) && Recased(p[1..], s[1..])
    ensures Recased(p, s)
  {
    assert p == [p[0]] + p[1..] && s == [s[0]] + s[1..];
  }

  // A pattern without wildcards stands for its own text in any case, whatever the subject.
  lemma PlainIsItself(p: seq<byte>, s: seq<byte>)
    requires Plain(p)
    ensures (GlobMatch(p, s) <==> Recased(p, s)) && (Matches(p, s) <==> Recased(p, s))
  {
    PlainLoop(p, s, 0);
    PlainMeaning(p, s);
  }

  // ---- Paths ---------------------------------------------------------------------------------

  ghost predicate AllRecased(cs: seq<seq<byte>>, ds: seq<seq<byte>>) {
    |cs| == |ds| && forall i :: 0 <= i < |cs| ==> Recased(cs[i], ds[i])
  }

  lemma OneMoreByte(a: byte, b: byte, c: seq<byte>, d: seq<byte>)
    ensures Recased([a] + c, [b] + d) <==> SameLetter(a, b) && Recased(c, d)
  {
    if Recased([a] + c, [b] + d) {
      RecasedTail([a] + c, [b] + d);
      assert ([a] + c)[1..] == c && ([b] + d)[1..] == d;
    } else if SameLetter(a, b) && Recased(c, d) {
      assert ([a] + c)[1..] == c && ([b] + d)[1..] == d;
      RecasedCons([a] + c, [b] + d);
    }
  }

  lemma FirstRecased(a: byte, b: byte, r: seq<seq<byte>>, t: seq<seq<byte>>)
    requires r != [] && t != []
    ensures AllRecased([[a] + r[0]] + r[1..], [[b] + t[0]] + t[1..]) <==> SameLetter(a, b) && AllRecased(r, t)
  {
    OneMoreByte(a, b, r[0], t[0]);
    var c, d := [[a] + r[0]] + r[1..], [[b] + t[0]] + t[1..];
    assert c[0] == [a] + r[0] && d[0] == [b] + t[0] && |c| == |r| && |d| == |t|;
    assert forall i :: 1 <= i < |r| ==> c[i] == r[i];
    assert forall i :: 1 <= i < |t| ==> d[i] == t[i];
  }

  lemma SlashRecased(r: seq<seq<byte>>, t: seq<seq<byte>>)
    ensures AllRecased([[]] + r, [[]] + t) <==> AllRecased(r, t)
  {
    var c, d := [[]] + r, [[]] + t;
    assert forall i :: 0 <= i < |r| ==> c[i + 1] == r[i];
    assert forall i :: 0 <= i < |t| ==> d[i + 1] == t[i];
  }

  lemma RestRecased(p: seq<byte>, q: seq<byte>)
    requires p != [] && q != []
    ensures Recased(p, q) <==> SameLetter(p[0], q[0]) && Recased(p[1..], q[1..])
  {
    if Recased(p, q) {
      RecasedTail(p, q);
    } else if SameLetter(p[0], q[0]) && Recased(p[1..], q[1..]) {
      RecasedCons(p, q);
    }
  }

  // Two paths are the same but for case if and only if their components are, one by one.
  lemma {:induction false} ComponentsRecased(p: seq<byte>, q: seq<byte>)
    ensures Recased(p, q) <==> AllRecased(Components(p), Components(q))
    decreases |p|
  {
    if p == [] {
      OnlyEmpty(q);
    } else if q == [] {
      OnlyEmpty(p);
      EmptyRecased(Components(p));
    } else {
      ComponentsRecased(p[1..], q[1..]);
      RestRecased(p, q);
      var r, t := Components(p[1..]), Components(q[1..]);
      if p[0] == SLASH && q[0] == SLASH {
        SlashRecased(r, t);
      } else if p[0] != SLASH && q[0] != SLASH {
        FirstRecased(p[0], q[0], r, t);
      } else if p[0] == SLASH {
        NotBoth(q[0], r, t);
      } else {
        NotBoth(p[0], t, r);
        Symmetric(Components(p), Components(q));
      }
    }
  }

  lemma Symmetric(cs: seq<seq<byte>>, ds: seq<seq<byte>>)
    ensures AllRecased(cs, ds) <==> AllRecased(ds, cs)
  {
    forall c, d
      ensures Recased(c, d) <==> Recased(d, c)
    {
    }
  }

  lemma NotBoth(b: byte, r: seq<seq<byte>>, t: seq<seq<byte>>)
    requires t != []
    ensures !AllRecased([[]] + r, [[b] + t[0]] + t[1..])
  {
    assert !Recased([], [b] + t[0]);
    assert ([[]] + r)[0] == [] && ([[b] + t[0]] + t[1..])[0] == [b] + t[0];
  }

  lemma OnlyEmpty(q: seq<byte>)
    ensures AllRecased([[]], Components(q)) <==> q == []
  {
    if q != [] && q[0] != SLASH {
      var r := Components(q[1..]);
      assert Components(q)[0] == [q[0]] + r[0];
      assert !Recased([], [q[0]] + r[0]);
    }
  }

  lemma EmptyRecased(cs: seq<seq<byte>>)
    ensures AllRecased(cs, [[]]) <==> AllRecased([[]], cs)
  {
    Symmetric(cs, [[]]);
  }

  // ---- What the list hits ----------------------------------------------------------------------

  lemma {:induction false} AllGlobRecased(ps: seq<seq<byte>>, cs: seq<seq<byte>>, ps': seq<seq<byte>>, cs': seq<seq<byte>>)
    requires AllRecased(ps, ps') && AllRecased(cs, cs')
    ensures AllGlob(ps, cs) <==> AllGlob(ps', cs')
    decreases |ps|
  {
    if ps != [] && cs != [] {
      CaseDoesNotMatter(ps[0], cs[0], ps'[0], cs'[0]);
      AllGlobRecased(ps[1..], cs[1..], ps'[1..], cs'[1..]);
    }
  }

  lemma {:induction false} SomeGlobRecased(p: seq<byte>, cs: seq<seq<byte>>, p': seq<byte>, cs': seq<seq<byte>>)
    requires Recased(p, p') && AllRecased(cs, cs')
    ensures SomeGlob(p, cs) <==> SomeGlob(p', cs')
    decreases |cs|
  {
    if cs != [] {
      CaseDoesNotMatter(p, cs[0], p', cs'[0]);
      SomeGlobRecased(p, cs[1..], p', cs'[1..]);
    }
  }

  lemma LookedRecased(path: seq<byte>, path': seq<byte>)
    requires Recased(path, path')
    ensures AllRecased(Looked(path), Looked(path'))
  {
    ComponentsRecased(path, path');
    var cs, ds := Components(path), Components(path');
    assert Recased(cs[|cs| - 1], ds[|ds| - 1]);
  }

  // Whether a pattern hits a path does not depend on the case of any letter in either.
  lemma HitsInAnyCase(pat: Pattern, path: seq<byte>, isDir: bool, text': seq<byte>, path': seq<byte>)
    requires Recased(pat.text, text') && Recased(path, path')
    ensures Hits(pat, path, isDir) <==> Hits(pat.(text := text'), path', isDir)
  {
    ComponentsRecased(pat.text, text');
    ComponentsRecased(path, path');
    AllGlobRecased(Components(pat.text), Components(path), Components(text'), Components(path'));
    LookedRecased(path, path');
    SomeGlobRecased(pat.text, Looked(path), text', Looked(path'));
  }

  lemma {:induction false} AllPlain(ps: seq<seq<byte>>, cs: seq<seq<byte>>)
    requires forall p :: p in ps ==> Plain(p)
    ensures AllGlob(ps, cs) <==> AllRecased(ps, cs)
    decreases |ps|
  {
    if ps != [] && cs != [] {
      assert ps[0] in ps;
      PlainIsItself(ps[0], cs[0]);
      AllPlain(ps[1..], cs[1..]);
      assert forall i :: 1 <= i < |ps| ==> ps[i] == ps[1..][i - 1];
      assert forall i :: 1 <= i < |cs| ==> cs[i] == cs[1..][i - 1];
    }
  }

  lemma {:induction false} SomePlain(p: seq<byte>, cs: seq<seq<byte>>)
    requires Plain(p)
    ensures SomeGlob(p, cs) <==> exists c :: c in cs && Recased(p, c)
    decreases |cs|
  {
    if cs != [] {
      PlainIsItself(p, cs[0]);
      SomePlain(p, cs[1..]);
      assert forall c :: c in cs <==> c == cs[0] || c in cs[1..];
    }
  }

  lemma {:induction false} PlainComponents(path: seq<byte>)
    requires Plain(path)
    ensures forall c :: c in Components(path) ==> Plain(c)
    decreases |path|
  {
    if path != [] {
      assert path[0] in path;
      PlainComponents(path[1..]);
      var r := Components(path[1..]);
      assert r[0] in r && Plain([path[0]] + r[0]);
      assert forall c :: c in Components(path) ==> c == [] || c == [path[0]] + r[0] || c in r;
    }
  }

  lemma LookedOrEmpty(path: seq<byte>, c: seq<byte>)
    requires c != []
    ensures c in Looked(path) <==> c in Components(path)
  {
    var cs := Components(path);
    assert cs == cs[..|cs| - 1] + [cs[|cs| - 1]];
  }

  // A line without wildcards names, in any case: tied to the root, one path; otherwise every
  // entry of that name.
  lemma PlainHits(pat: Pattern, path: seq<byte>, isDir: bool)
    requires Plain(pat.text) && pat.text != []
    ensures Hits(pat, path, isDir) <==>
            && (pat.dirOnly ==> isDir)
            && if pat.anchored then Recased(pat.text, path)
               else exists c :: c in Components(path) && Recased(pat.text, c)
  {
    PlainComponents(pat.text);
    AllPlain(Components(pat.text), Components(path));
    ComponentsRecased(pat.text, path);
    SomePlain(pat.text, Looked(path));
    forall c | Recased(pat.text, c)
      ensures c in Looked(path) <==> c in Components(path)
    {
      LookedOrEmpty(path, c);
    }
  }
}
