// The wildcard matcher: one remembered star and backtracking, against the recursive meaning.

module Glob {
  import opened Bytes

  const STAR: byte := 42
  const ANY: byte := 63

  // ci_eq folds ASCII letters.
  function Fold(b: byte): byte {
    if 97 <= b <= 122 then b - 32 else b
  }

  predicate CiEq(a: byte, b: byte) {
    Fold(a) == Fold(b)
  }

  // What a pattern means: '*' any run, '?' any one byte, anything else itself.
  predicate Matches(p: seq<byte>, s: seq<byte>)
    decreases |p| + |s|
  {
    if p == [] then s == []
    else if p[0] == STAR then Matches(p[1..], s) || (s != [] && Matches(p, s[1..]))
    else s != [] && (p[0] == ANY || CiEq(p[0], s[0])) && Matches(p[1..], s[1..])
  }

  // ---- The loop of glob_match_one as a function of its variables --------------------------------

  // star is the last star met, or -1, and from where its run was last tried.
  predicate GlobFrom(p: seq<byte>, s: seq<byte>, pi: nat, si: nat, star: int, from: nat)
    requires pi <= |p| && si <= |s| && -1 <= star < |p| && from <= si
    decreases if star < 0 then |s| + 1 else |s| - from, |p| - pi + |s| - si
  {
    if si == |s| then OnlyStars(p, pi)
    else if pi < |p| && (p[pi] == ANY || CiEq(p[pi], s[si])) then GlobFrom(p, s, pi + 1, si + 1, star, from)
    else if pi < |p| && p[pi] == STAR then GlobFrom(p, s, pi + 1, si, pi, si)
    else if star >= 0 then GlobFrom(p, s, star + 1, from + 1, star, from + 1)
    else false
  }

  predicate OnlyStars(p: seq<byte>, pi: nat)
    requires pi <= |p|
    decreases |p| - pi
  {
    pi == |p| || (p[pi] == STAR && OnlyStars(p, pi + 1))
  }

  predicate GlobMatch(p: seq<byte>, s: seq<byte>) {
    GlobFrom(p, s, 0, 0, -1, 0)
  }

  method GlobMatchOne(p: seq<byte>, s: seq<byte>) returns (r: bool)
    ensures r <==> GlobMatch(p, s)
  {
    var pi, si, from := 0, 0, 0;
    var star := -1;
    while si < |s|
      invariant pi <= |p| && si <= |s| && -1 <= star < |p| && 0 <= from <= si && 0 <= pi
      invariant GlobFrom(p, s, pi, si, star, from) <==> GlobMatch(p, s)
      decreases if star < 0 then |s| + 1 else |s| - from, |p| - pi + |s| - si
    {
      if pi < |p| && (p[pi] == ANY || CiEq(p[pi], s[si])) {
        pi, si := pi + 1, si + 1;
      } else if pi < |p| && p[pi] == STAR {
        star, pi := pi, pi + 1;
        from := si;
      } else if star != -1 {
        from := from + 1;
        pi, si := star + 1, from;
      } else {
        return false;
      }
    }
    while pi < |p| && p[pi] == STAR
      invariant pi <= |p| && (OnlyStars(p, pi) <==> GlobMatch(p, s))
    {
      pi := pi + 1;
    }
    return pi == |p|;
  }

  // ---- The loop finds what the pattern means ------------------------------------------------------

  lemma {:induction false} OnlyStarsMatchNothing(p: seq<byte>, pi: nat)
    requires pi <= |p|
    ensures OnlyStars(p, pi) <==> Matches(p[pi..], [])
    decreases |p| - pi
  {
    if pi < |p| {
      assert p[pi..][1..] == p[pi + 1..];
      OnlyStarsMatchNothing(p, pi + 1);
    }
  }

  lemma OneStep(p: seq<byte>, s: seq<byte>, pi: nat, si: nat)
    requires pi < |p| && si < |s| && p[pi] != STAR
    ensures Matches(p[pi..], s[si..]) <==> (p[pi] == ANY || CiEq(p[pi], s[si])) && Matches(p[pi + 1..], s[si + 1..])
  {
    assert p[pi..][1..] == p[pi + 1..] && s[si..][1..] == s[si + 1..];
  }

  lemma StarStep(p: seq<byte>, s: seq<byte>, pi: nat, si: nat)
    requires pi < |p| && si <= |s| && p[pi] == STAR
    ensures Matches(p[pi..], s[si..]) <==>
            Matches(p[pi + 1..], s[si..]) || (si < |s| && Matches(p[pi..], s[si + 1..]))
  {
    assert p[pi..][1..] == p[pi + 1..];
    if si < |s| {
      assert s[si..][1..] == s[si + 1..];
    }
  }

  // A star can take up more.
  lemma {:induction false} StarAbsorbs(p: seq<byte>, s: seq<byte>, pi: nat, i: nat, j: nat)
    requires pi < |p| && i <= j <= |s| && p[pi] == STAR && Matches(p[pi..], s[j..])
    ensures Matches(p[pi..], s[i..])
    decreases j - i
  {
    if i < j {
      StarAbsorbs(p, s, pi, i + 1, j);
      StarStep(p, s, pi, i);
    }
  }

  // The rest after the star matches somewhere from position `from` on.
  ghost predicate Later(p: seq<byte>, s: seq<byte>, star: nat, from: nat)
    requires star < |p|
  {
    exists k: nat :: from <= k <= |s| && Matches(p[star + 1..], s[k..])
  }

  lemma {:induction false} StarMeansLater(p: seq<byte>, s: seq<byte>, star: nat, from: nat)
    requires star < |p| && p[star] == STAR && from <= |s|
    ensures Matches(p[star..], s[from..]) <==> Later(p, s, star, from)
    decreases |s| - from
  {
    StarStep(p, s, star, from);
    LaterStep(p, s, star, from);
    if from < |s| {
      StarMeansLater(p, s, star, from + 1);
    }
  }

  lemma LaterStep(p: seq<byte>, s: seq<byte>, star: nat, from: nat)
    requires star < |p| && from <= |s|
    ensures Later(p, s, star, from) <==> Matches(p[star + 1..], s[from..]) || (from < |s| && Later(p, s, star, from + 1))
  {
  }

  // A stretch without stars takes up exactly its length.
  lemma {:induction false} Stretch(p: seq<byte>, s: seq<byte>, a: nat, b: nat, k: nat)
    requires a <= b <= |p| && k <= |s| && STAR !in p[a..b] && Matches(p[a..], s[k..])
    ensures k + (b - a) <= |s| && Matches(p[b..], s[k + (b - a)..])
    decreases b - a
  {
    if a < b {
      assert p[a] in p[a..b] && p[a..][0] == p[a];
      assert k < |s|;
      OneStep(p, s, a, k);
      assert p[a..b] == [p[a]] + p[a + 1..b];
      Stretch(p, s, a + 1, b, k + 1);
    }
  }

  // The stretch since the last star has been matched byte for byte.
  ghost predicate OnTrack(p: seq<byte>, s: seq<byte>, pi: nat, si: nat, star: int, from: nat) {
    && pi <= |p| && si <= |s| && -1 <= star < |p| && from <= si
    && (star >= 0 ==> p[star] == STAR && star < pi && STAR !in p[star + 1..pi] && si == from + (pi - star - 1))
  }

  lemma PastTheEnd(p: seq<byte>, s: seq<byte>, pi: nat, star: nat, from: nat)
    requires OnTrack(p, s, pi, |s|, star, from)
    ensures !Later(p, s, star, from + 1)
  {
    if Later(p, s, star, from + 1) {
      var k: nat :| from + 1 <= k <= |s| && Matches(p[star + 1..], s[k..]);
      Stretch(p, s, star + 1, pi, k);
    }
  }

  // Giving up an older star for a newer one loses nothing.
  lemma NewStarCovers(p: seq<byte>, s: seq<byte>, pi: nat, si: nat, star: nat, from: nat)
    requires OnTrack(p, s, pi, si, star, from) && pi < |p| && p[pi] == STAR && Later(p, s, star, from + 1)
    ensures Matches(p[pi..], s[si..])
  {
    var k: nat :| from + 1 <= k <= |s| && Matches(p[star + 1..], s[k..]);
    Stretch(p, s, star + 1, pi, k);
    StarAbsorbs(p, s, pi, si, k + (pi - star - 1));
  }

  lemma {:induction false} GlobFromIsMatches(p: seq<byte>, s: seq<byte>, pi: nat, si: nat, star: int, from: nat)
    requires STAR !in s && OnTrack(p, s, pi, si, star, from)
    ensures GlobFrom(p, s, pi, si, star, from) <==>
            Matches(p[pi..], s[si..]) || (star >= 0 && Later(p, s, star, from + 1))
    decreases if star < 0 then |s| + 1 else |s| - from, |p| - pi + |s| - si
  {
    if si == |s| {
      assert s[si..] == [];
      OnlyStarsMatchNothing(p, pi);
      if star >= 0 {
        PastTheEnd(p, s, pi, star, from);
      }
    } else if pi < |p| && (p[pi] == ANY || CiEq(p[pi], s[si])) {
      assert s[si] in s;
      OneStep(p, s, pi, si);
      GlobFromIsMatches(p, s, pi + 1, si + 1, star, from);
    } else if pi < |p| && p[pi] == STAR {
      StarMeansLater(p, s, pi, si);
      SplitLater(p, s, pi, si);
      if star >= 0 && Later(p, s, star, from + 1) {
        NewStarCovers(p, s, pi, si, star, from);
      }
      GlobFromIsMatches(p, s, pi + 1, si, pi, si);
    } else {
      if pi < |p| {
        OneStep(p, s, pi, si);
      }
      if star >= 0 {
        SplitLater(p, s, star, from + 1);
        GlobFromIsMatches(p, s, star + 1, from + 1, star, from + 1);
      }
    }
  }

  lemma SplitLater(p: seq<byte>, s: seq<byte>, star: nat, from: nat)
    requires star < |p| && from <= |s|
    ensures Later(p, s, star, from) <==> Matches(p[star + 1..], s[from..]) || Later(p, s, star, from + 1)
  {
  }

  // For a subject without a star the matcher accepts exactly what the pattern means.
  lemma GlobIsMatches(p: seq<byte>, s: seq<byte>)
    requires STAR !in s
    ensures GlobMatch(p, s) <==> Matches(p, s)
  {
    assert p[0..] == p && s[0..] == s;
    GlobFromIsMatches(p, s, 0, 0, -1, 0);
  }

  // ---- And for no other subject ---------------------------------------------------------------------

  predicate BeginsWithAnys(p: seq<byte>, i: nat) {
    i <= |p| && forall k :: 0 <= k < i ==> p[k] == ANY
  }

  lemma {:induction false} AnysRun(p: seq<byte>, s: seq<byte>, i: nat, k: nat)
    requires k <= i <= |s| && BeginsWithAnys(p, i) && (i == |s| ==> k == i)
    ensures GlobFrom(p, s, k, k, -1, 0) <==> GlobFrom(p, s, i, i, -1, 0)
    ensures Matches(p[k..], s[k..]) <==> Matches(p[i..], s[i..])
    decreases i - k
  {
    if k < i {
      OneStep(p, s, k, k);
      AnysRun(p, s, i, k + 1);
    }
  }

  // A literal star in the subject is taken for the pattern's own: the star is used up and
  // can no longer stand for a run.
  lemma StarMeetsStar(s: seq<byte>, i: nat) returns (p: seq<byte>)
    requires i < |s| && s[i] == STAR
    ensures !GlobMatch(p, s) && Matches(p, s)
  {
    var anys: seq<byte> := seq(i, _ => ANY);
    p := anys + if i == |s| - 1 then [STAR, ANY] else [STAR];
    AnysRun(p, s, i, 0);
    assert p[0..] == p && s[0..] == s;
    if i == |s| - 1 {
      assert p[i..] == [STAR, ANY] && s[i..] == [STAR];
      assert Matches([ANY], [STAR]);
      assert [STAR, ANY][1..] == [ANY];
      assert !OnlyStars(p, i + 1);
    } else {
      assert p[i..] == [STAR];
      StarTakesAll(s[i..]);
      assert !GlobFrom(p, s, i + 1, i + 1, -1, 0);
    }
  }

  lemma {:induction false} StarTakesAll(s: seq<byte>)
    ensures Matches([STAR], s)
    decreases |s|
  {
    if s == [] {
      assert [STAR][1..] == [];
    } else {
      StarTakesAll(s[1..]);
    }
  }

  // The matcher is right about a subject, whatever the pattern, exactly when the subject
  // holds no star.
  lemma RightWithoutStars(s: seq<byte>)
    ensures (forall p :: GlobMatch(p, s) <==> Matches(p, s)) <==> STAR !in s
  {
    if STAR in s {
      var i :| 0 <= i < |s| && s[i] == STAR;
      var p := StarMeetsStar(s, i);
    } else {
      forall p
        ensures GlobMatch(p, s) <==> Matches(p, s)
      {
        GlobIsMatches(p, s);
      }
    }
  }
}
