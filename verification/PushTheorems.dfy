/** What a reader of the remote finds after a push: no new pair of spellings,
    nothing foreign touched, every ref's objects there, and, when nothing
    failed, exactly the batch's final set. */
module PushTheorems {
  import opened Names
  import opened Wrappers
  import opened Keys
  import opened CaseConflicts
  import opened Batch
  import opened Phase2
  import opened Remote
  import opened Refs
  import opened Execution
  import opened WritePhase
  import opened Objects
  import opened Packs
  import opened Push

  // One push, from the scan before it to the scan after it.
  ghost predicate Ran(c: Context, items: seq<Item>, results: seq<Result>, t0: Tree, t1: Tree, t2: Tree,
                      tried: set<Name>, after: Scan)
  {
    && ContextOk(c) && WellFormed(t0) && Cleared2(c, items) && Safe(c, items, results, t0, t1, t2, tried)
    && IsScan(c.rules, t0, Scan(c.remote, c.skipped)) && ListsRefs(c.rules, t2, after.refs)
  }

  // A ref advertised afterwards that no write tried to write was advertised
  // before, with the same object, and its delete was not reported done.
  lemma OldRefStands(c: Context, items: seq<Item>, results: seq<Result>, t0: Tree, t1: Tree, t2: Tree, tried: set<Name>,
                     after: Scan, n: Name)
    requires Ran(c, items, results, t0, t1, t2, tried, after) && n in after.refs && n !in tried
    ensures n in c.remote && after.refs[n] == c.remote[n] && n in Standing(c, Committed4(items, results))
  {
    assert t2.files[n] == t1.files[n] == t0.files[n];
    assert Advertised(c.rules, t0, n);
  }

  // A push never brings two conflicting spellings together: any pair found
  // after it was already there before, whatever failed on the way.
  lemma NoNewPairs(c: Context, items: seq<Item>, results: seq<Result>, t0: Tree, t1: Tree, t2: Tree, tried: set<Name>,
                   after: Scan, a: Name, b: Name)
    requires Ran(c, items, results, t0, t1, t2, tried, after)
    requires a in after.refs && b in after.refs && Pairs(c.keys, a, b)
    ensures a in c.remote && b in c.remote
  {
    PairsSymmetric(c.keys, a, b);
    if a !in tried { OldRefStands(c, items, results, t0, t1, t2, tried, after, a); }
    if b !in tried { OldRefStands(c, items, results, t0, t1, t2, tried, after, b); }
  }

  lemma WrittenIsGood(c: Context, items: seq<Item>, x: Name) returns (i: nat)
    requires Cleared2(c, items) && x in Written(Elems(items))
    ensures i < |items| && items[i].ValidWrite() && items[i].Dst() == x
    ensures GoodDestination(c.rules, x) && Occupancy(c.skipped, x).None? && IsRef(x)
  {
    var e :| e in Elems(items) && e.ValidWrite() && e.Dst() == x;
    i :| 0 <= i < |items| && items[i] == e;
  }

  // A file the scan before did not advertise is there afterwards, unchanged.
  lemma ForeignUntouched(c: Context, items: seq<Item>, results: seq<Result>, t0: Tree, t1: Tree, t2: Tree,
                         tried: set<Name>, after: Scan, n: Name)
    requires Ran(c, items, results, t0, t1, t2, tried, after) && n in t0.files && n !in c.remote
    ensures n in t2.files && t2.files[n] == t0.files[n]
  {
    if n in tried {
      var i := WrittenIsGood(c, items, n);
      SkippedNamed(c, t0);
      OccupancyAvoids(c.skipped, n);
      ForeignIsClear(c, t0, n, n);
    }
  }

  // A file that is gone was advertised and named by one of the push's own
  // valid deletes; a file that changed is one the push tried to write, and
  // holds the object of that entry.
  lemma OnlyOwnChanges(c: Context, items: seq<Item>, results: seq<Result>, t0: Tree, t1: Tree, t2: Tree,
                       tried: set<Name>, after: Scan, n: Name)
    requires Ran(c, items, results, t0, t1, t2, tried, after)
    ensures n in t0.files && n !in t2.files ==> n in c.remote && n in Deleted(Elems(items))
    ensures n in t2.files && !(n in t0.files && t0.files[n] == t2.files[n]) ==>
      n in tried && StoredBy(items, n, t2.files[n])
  {
  }

  // A folder that is gone was not permanent, and held no file: it was above
  // a deleted ref, or at or beneath a name the push tried to write, with no
  // file anywhere beneath that name.
  lemma OnlyEmptyFoldersGo(c: Context, items: seq<Item>, results: seq<Result>, t0: Tree, t1: Tree, t2: Tree,
                           tried: set<Name>, after: Scan, d: Name)
    requires Ran(c, items, results, t0, t1, t2, tried, after) && d in t0.dirs && d !in t2.dirs
    ensures d !in PROTECTED
    ensures (exists n :: n in Doomed(c, items) && Above(d, n) && forall m | m in t1.files :: !Above(d, m))
         || (exists w :: w in tried && Cleared(t1, w, d))
  {
    if d !in t1.dirs {
      var n :| n in Doomed(c, items) && Above(d, n);
      forall m | m in t1.files ensures !Above(d, m) {
        if Above(d, m) { FolderAbove(t1, d, m); }
      }
    }
  }

  // If every advertised ref's objects were in sound pack pairs, so are those
  // of every ref advertised afterwards.
  lemma ClosureKept(c: Context, items: seq<Item>, results: seq<Result>, t0: Tree, t1: Tree, t2: Tree, tried: set<Name>,
                    after: Scan, g: Graph, f0: PackFiles, f: PackFiles)
    requires Ran(c, items, results, t0, t1, t2, tried, after)
    requires RemoteClosed(g, f0, c.remote) && OnlyAdds(f0, f) && WritesClosed(g, f, items)
    ensures RemoteClosed(g, f, after.refs)
  {
    StillClosed(g, f0, f, c.remote);
    forall n | n in after.refs ensures ClosureHeld(g, f, after.refs[n]) {
      if n in t0.files && t2.files[n] == t0.files[n] {
        assert Advertised(c.rules, t0, n);
        assert after.refs[n] == c.remote[n];
      } else {
        OnlyOwnChanges(c, items, results, t0, t1, t2, tried, after, n);
        var j :| 0 <= j < |items| && items[j].ValidWrite() && items[j].Dst() == n && IsSha(items[j].sha)
          && t2.files[n] == RefContent(items[j].sha);
        RefContentRoundTrip(items[j].sha);
      }
    }
  }

  // A ref the push reports written is advertised next time with its object.
  lemma WrittenRefsScanBack(c: Context, items: seq<Item>, results: seq<Result>, t0: Tree, t1: Tree, t2: Tree,
                            tried: set<Name>, after: Scan, i: nat)
    requires Ran(c, items, results, t0, t1, t2, tried, after)
    requires i < |items| && items[i].ValidWrite() && results[i].Done?
    ensures items[i].Dst() in after.refs && after.refs[items[i].Dst()] == items[i].sha
  {
    var x := items[i].Dst();
    assert items[i] in Elems(items);
    RefContentRoundTrip(items[i].sha);
    RefIsBelow(x);
    assert Advertised(c.rules, t2, x);
  }

  // When nothing failed, the next scan finds exactly the final set, with each
  // written ref at its new object and every other at its old one.
  lemma FinalSetScansBack(c: Context, items: seq<Item>, results: seq<Result>, t0: Tree, t1: Tree, t2: Tree,
                          tried: set<Name>, after: Scan)
    requires Ran(c, items, results, t0, t1, t2, tried, after) && Accomplished(c, items, results, t0, t2)
      && Ordinary(items)
    ensures forall i | 0 <= i < |items| && items[i].v.Valid? :: results[i].Done?
    ensures after.refs.Keys == FinalSet(c.remote.Keys, Elems(items))
    ensures forall i | 0 <= i < |items| && items[i].ValidWrite() :: after.refs[items[i].Dst()] == items[i].sha
    ensures forall n | n in after.refs && n !in Written(Elems(items)) :: after.refs[n] == c.remote[n]
  {
    DoneIsWritten(items, results);
    WritesScanBack(c, items, results, t0, t1, t2, tried, after);
    forall n ensures n in after.refs <==> n in FinalSet(c.remote.Keys, Elems(items)) {
      NameScansBack(c, items, results, t0, t1, t2, tried, after, n);
    }
    forall n | n in after.refs && n !in Written(Elems(items)) ensures after.refs[n] == c.remote[n] {
      OldRefStands(c, items, results, t0, t1, t2, tried, after, n);
    }
  }

  lemma NameScansBack(c: Context, items: seq<Item>, results: seq<Result>, t0: Tree, t1: Tree, t2: Tree,
                      tried: set<Name>, after: Scan, n: Name)
    requires Ran(c, items, results, t0, t1, t2, tried, after) && Accomplished(c, items, results, t0, t2)
      && Ordinary(items)
    ensures n in after.refs <==> n in FinalSet(c.remote.Keys, Elems(items))
  {
    DoneIsWritten(items, results);
    if n in Written(Elems(items)) {
      WritesScanBack(c, items, results, t0, t1, t2, tried, after);
      var i := WrittenIsGood(c, items, n);
    } else {
      OldRefIffStands(c, items, results, t0, t1, t2, tried, after, n);
    }
  }

  lemma WritesScanBack(c: Context, items: seq<Item>, results: seq<Result>, t0: Tree, t1: Tree, t2: Tree,
                       tried: set<Name>, after: Scan)
    requires Ran(c, items, results, t0, t1, t2, tried, after) && AllWritten(items, results, |items|) && Ordinary(items)
    ensures forall i | 0 <= i < |items| && items[i].ValidWrite() ::
      items[i].Dst() in after.refs && after.refs[items[i].Dst()] == items[i].sha
  {
    forall i | 0 <= i < |items| && items[i].ValidWrite()
      ensures items[i].Dst() in after.refs && after.refs[items[i].Dst()] == items[i].sha
    {
      WrittenRefsScanBack(c, items, results, t0, t1, t2, tried, after, i);
    }
  }

  lemma DoneIsWritten(items: seq<Item>, results: seq<Result>)
    requires |results| == |items| && AllWritten(items, results, |items|) && Ordinary(items)
    ensures DoneNames(items, results, |items|) == Written(Elems(items))
  {
    forall n | n in Written(Elems(items)) ensures n in DoneNames(items, results, |items|) {
      var e :| e in Elems(items) && e.ValidWrite() && e.Dst() == n;
      var i :| 0 <= i < |items| && items[i] == e;
    }
    forall n | n in DoneNames(items, results, |items|) ensures n in Written(Elems(items)) {
      var i :| 0 <= i < |items| && items[i].ValidWrite() && results[i].Done? && items[i].Dst() == n;
      assert items[i] in Elems(items);
    }
  }

  lemma OldRefIffStands(c: Context, items: seq<Item>, results: seq<Result>, t0: Tree, t1: Tree, t2: Tree,
                        tried: set<Name>, after: Scan, n: Name)
    requires Ran(c, items, results, t0, t1, t2, tried, after) && Accomplished(c, items, results, t0, t2)
    requires DoneNames(items, results, |items|) == Written(Elems(items)) && n !in Written(Elems(items))
    ensures n in after.refs <==> n in c.remote && n !in Deleted(Elems(items))
  {
    if n in after.refs { OldRefStands(c, items, results, t0, t1, t2, tried, after, n); }
    if n in c.remote && n !in Deleted(Elems(items)) {
      assert n in t2.files && t2.files[n] == t0.files[n];
      assert Advertised(c.rules, t0, n) && Advertised(c.rules, t2, n);
    }
  }

  // A write phase 2 approved can still fail on a faultless transport, exactly
  // when its object name is not 40 hex digits (a SHA-256 repository) or it
  // aims at a permanent folder. Beside a delete of the same name the ref is
  // then lost: the delete has already gone through.
  lemma MalformedObjectLosesReplacedRef(c: Context, items: seq<Item>, results: seq<Result>, t0: Tree, t1: Tree,
                                        t2: Tree, tried: set<Name>, after: Scan, i: nat, j: nat)
    requires Ran(c, items, results, t0, t1, t2, tried, after) && Accomplished(c, items, results, t0, t2)
    requires i < |items| && j < |items| && items[i].ValidWrite() && items[j].ValidDelete()
      && items[i].Dst() == items[j].Dst()
    requires items[i].Dst() in c.remote && !IsSha(items[i].sha)
    ensures results[j].Done? && !results[i].Done? && items[i].Dst() !in after.refs
  {
    var x := items[i].Dst();
    assert items[j] in Elems(items);
    assert x in Doomed(c, items);
    forall k | 0 <= k < |items| && items[k].ValidWrite() && items[k].Dst() == x ensures k == i {
    }
    assert x !in DoneNames(items, results, |items|);
  }

  lemma SixtyFourDigitsAreNoSha(sha: Sha)
    requires |sha| == 64
    ensures !IsSha(sha)
  {
  }

  // Nothing two refs of the next advertisement do is new.
  ghost predicate PairsAreOld(c: Context, after: Scan)
  {
    forall a, b | a in after.refs && b in after.refs && Pairs(c.keys, a, b) :: a in c.remote && b in c.remote
  }

  ghost predicate ForeignKept(c: Context, t0: Tree, t2: Tree)
  {
    forall n | n in t0.files && n !in c.remote :: n in t2.files && t2.files[n] == t0.files[n]
  }

  ghost predicate ScansBack(items: seq<Item>, results: seq<Result>, after: Scan)
    requires |results| == |items|
  {
    forall i | 0 <= i < |items| && items[i].ValidWrite() && results[i].Done? ::
      items[i].Dst() in after.refs && after.refs[items[i].Dst()] == items[i].sha
  }

  // Every write names a well-formed object and aims at no permanent folder.
  ghost predicate Ordinary(items: seq<Item>)
  {
    forall i | 0 <= i < |items| && items[i].ValidWrite() :: IsSha(items[i].sha) && items[i].Dst() !in PROTECTED
  }

  lemma RunKeepsAll(c: Context, items: seq<Item>, results: seq<Result>, t0: Tree, t1: Tree, t2: Tree, tried: set<Name>,
                    after: Scan)
    requires Ran(c, items, results, t0, t1, t2, tried, after)
    ensures PairsAreOld(c, after) && ForeignKept(c, t0, t2) && ScansBack(items, results, after)
  {
    forall a, b | a in after.refs && b in after.refs && Pairs(c.keys, a, b) ensures a in c.remote && b in c.remote {
      NoNewPairs(c, items, results, t0, t1, t2, tried, after, a, b);
    }
    forall n | n in t0.files && n !in c.remote ensures n in t2.files && t2.files[n] == t0.files[n] {
      ForeignUntouched(c, items, results, t0, t1, t2, tried, after, n);
    }
    forall i | 0 <= i < |items| && items[i].ValidWrite() && results[i].Done?
      ensures items[i].Dst() in after.refs && after.refs[items[i].Dst()] == items[i].sha
    {
      WrittenRefsScanBack(c, items, results, t0, t1, t2, tried, after, i);
    }
  }

  // What the scan after a push shows.
  ghost predicate Outcome(c: Context, items: seq<Item>, results: seq<Result>, t0: Tree, t2: Tree, g: Graph,
                          f0: PackFiles, f: PackFiles, after: Scan)
    requires |results| == |items|
  {
    && PairsAreOld(c, after) && ForeignKept(c, t0, t2) && ScansBack(items, results, after)
    && (RemoteClosed(g, f0, c.remote) ==> RemoteClosed(g, f, after.refs))
    && (Accomplished(c, items, results, t0, t2) && Ordinary(items) ==>
      after.refs.Keys == FinalSet(c.remote.Keys, Elems(items)))
  }

  lemma RunOutcome(c: Context, items: seq<Item>, results: seq<Result>, t0: Tree, t1: Tree, t2: Tree, tried: set<Name>,
                   after: Scan, g: Graph, f0: PackFiles, f: PackFiles)
    requires Ran(c, items, results, t0, t1, t2, tried, after)
    requires OnlyAdds(f0, f) && (RemoteClosed(g, f0, c.remote) ==> WritesClosed(g, f, items))
    ensures Outcome(c, items, results, t0, t2, g, f0, f, after)
  {
    RunKeepsAll(c, items, results, t0, t1, t2, tried, after);
    if RemoteClosed(g, f0, c.remote) { ClosureKept(c, items, results, t0, t1, t2, tried, after, g, f0, f); }
    if Accomplished(c, items, results, t0, t2) && Ordinary(items) {
      FinalSetScansBack(c, items, results, t0, t1, t2, tried, after);
    }
  }

  // A push and the next scan.
  method PushThenScan(r: Store, pf: PackFolder, c: Context, ups: seq<Update>, g: Graph,
                      packer: (set<Oid>, set<Oid>) -> PackResult)
    returns (items: seq<Item>, results: seq<Result>, after: Option<Scan>)
    requires WellFormed(r.T()) && ContextOk(c) && IsScan(c.rules, r.T(), Scan(c.remote, c.skipped))
      && Clean(c.rules, REFS)
    requires PacksDifference(g, packer)
    modifies r`files, r`dirs, r`listed, pf
    ensures |results| == |items| && (items == Decide(c, ups) || items == FailWrites(Decide(c, ups)))
    ensures after.Some? ==> IsScan(c.rules, r.T(), after.value)
    ensures after.Some? ==> Outcome(c, items, results, old(r.T()), r.T(), g, old(pf.F()), pf.F(), after.value)
    ensures ListedClean(c.rules, old(r.listed), r.listed)
    ensures !r.faulty && r.head == c.head ==> after.Some? && Accomplished(c, items, results, old(r.T()), r.T())
    ensures !pf.faulty && PackGoes(old(pf.F()), packer(Wants(Decide(c, ups)), Haves(c))) ==> items == Decide(c, ups)
  {
    ghost var t0, f0 := r.T(), pf.F();
    var tried;
    ghost var t1;
    items, results, t1, tried := PushWithLocal(r, pf, c, ups, g, packer);
    ghost var t2, listed := r.T(), r.listed;
    after := ScanRefs(r, c.rules);
    ListedCleanThen(c.rules, old(r.listed), listed, r.listed);
    assert r.T() == t2;
    if after.Some? { RunOutcome(c, items, results, t0, t1, t2, tried, after.value, g, f0, pf.F()); }
  }
}
