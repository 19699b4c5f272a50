// Why metadata is applied backwards: setting an entry's metadata also touches its
// directory's datestamp.

module MetaStamps {
  import opened Bytes
  import opened Index
  import opened Meta
  import opened RestoreMain
  import opened RestoreRun
  import opened ScanOrder
  import opened Tlv

  type Stamps = map<seq<byte>, Stamp>

  // The stamp a directory gets at the n-th metadata operation.
  type Clock = nat -> Stamp

  // Setting one entry's metadata: its directory is stamped with the time, the entry itself
  // with what the manifest says.
  function Touch(s: Stamps, e: Entry, now: Stamp): Stamps {
    (if Parent(e.path).Some? then s[Parent(e.path).value := now] else s)[e.path := e.date]
  }

  function TouchAll(s: Stamps, es: seq<Entry>, clock: Clock): Stamps {
    if es == [] then s else Touch(TouchAll(s, es[..|es| - 1], clock), es[|es| - 1], clock(|es| - 1))
  }

  // Directories after what is in them, no path twice.
  ghost predicate ChildrenFirst(es: seq<Entry>) {
    forall i, j :: 0 <= i < j < |es| ==> es[i].path != es[j].path && Parent(es[j].path) != Some(es[i].path)
  }

  lemma {:induction false} TouchedLast(s: Stamps, es: seq<Entry>, clock: Clock, i: nat)
    requires ChildrenFirst(es) && i < |es|
    ensures es[i].path in TouchAll(s, es, clock) && TouchAll(s, es, clock)[es[i].path] == es[i].date
    decreases |es|
  {
    var k := |es| - 1;
    if i < k {
      TouchedLast(s, es[..k], clock, i);
      assert es[..k][i] == es[i];
      assert Parent(es[k].path) != Some(es[i].path) && es[k].path != es[i].path;
    }
  }

  lemma {:induction false} MetaOrderParts(o: Options, es: seq<Entry>)
    requires ParentsFirst(es) && PathsDiffer(es)
    ensures ChildrenFirst(MetaOrder(o, es))
    ensures forall e :: e in MetaOrder(o, es) <==> e in es && Wanted(o, e)
    decreases |es|
  {
    if es != [] {
      var init, last, rest := es[..|es| - 1], es[|es| - 1], MetaOrder(o, es[..|es| - 1]);
      MetaOrderParts(o, init);
      assert es == init + [last];
      if Wanted(o, last) {
        forall j | 0 <= j < |rest|
          ensures last.path != rest[j].path && Parent(rest[j].path) != Some(last.path)
        {
          assert rest[j] in init;
          var k :| 0 <= k < |init| && init[k] == rest[j];
          assert es[k] == rest[j];
        }
        PutFirst(last, rest);
      }
    }
  }

  lemma PutFirst(e: Entry, es: seq<Entry>)
    requires ChildrenFirst(es)
    requires forall j :: 0 <= j < |es| ==> e.path != es[j].path && Parent(es[j].path) != Some(e.path)
    ensures ChildrenFirst([e] + es)
  {
    var c := [e] + es;
    forall i, j | 0 <= i < j < |c|
      ensures c[i].path != c[j].path && Parent(c[j].path) != Some(c[i].path)
    {
      assert c[j] == es[j - 1];
      if i > 0 {
        assert c[i] == es[i - 1];
      }
    }
  }

  // After the reverse pass over a manifest in which directories come first, every restored
  // entry carries the stamp the manifest gives it, whatever the clock.
  lemma ReversePassKeepsStamps(o: Options, es: seq<Entry>, s: Stamps, clock: Clock, e: Entry)
    requires ParentsFirst(es) && PathsDiffer(es) && e in es && Wanted(o, e)
    ensures e.path in TouchAll(s, MetaOrder(o, es), clock)
    ensures TouchAll(s, MetaOrder(o, es), clock)[e.path] == e.date
  {
    MetaOrderParts(o, es);
    assert e in MetaOrder(o, es);
    var i :| 0 <= i < |MetaOrder(o, es)| && MetaOrder(o, es)[i] == e;
    TouchedLast(s, MetaOrder(o, es), clock, i);
  }

  // In manifest order it would not: a directory with one file in it ends up with the time
  // the file's metadata was set.
  lemma ForwardPassLosesStamps(dir: Entry, file: Entry, s: Stamps, clock: Clock)
    requires Parent(file.path) == Some(dir.path) && dir.path != file.path
    ensures TouchAll(s, [dir, file], clock)[dir.path] == clock(1)
  {
    assert [dir, file][..1] == [dir];
  }
}
