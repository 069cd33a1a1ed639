/** The whole push (push.go, PushWithLocal): decide, pack, delete, write; and
    what holds of the remote after it, whatever the transport did. */
module Push {
  import opened Names
  import opened CaseConflicts
  import opened Batch
  import opened Phase2
  import Phase2Sound
  import Planner
  import MacSound
  import Decider
  import opened Remote
  import opened Refs
  import opened Healing
  import opened Execution
  import opened WritePhase
  import opened Objects
  import opened Packs

  // ---- what phase 2 says of a valid entry

  lemma ValidEntry(c: Context, ups: seq<Update>, items: seq<Item>, i: nat)
    requires OnlyRefuses(Validate(c, ups), items) && i < |items| && items[i].v.Valid?
    ensures items[i] == JudgeEntry(c, ups, ups[i])
  {
    UnrefusedIsSame(Validate(c, ups), items, i);
  }

  lemma UnrefusedIsSame(a: seq<Item>, b: seq<Item>, i: nat)
    requires OnlyRefuses(a, b) && i < |a| && b[i].v.Valid?
    ensures b[i] == a[i]
  {
  }

  lemma ValidWriteFacts(c: Context, u: Update, ups: seq<Update>)
    ensures var e := JudgeEntry(c, ups, u);
            && (e.ValidWrite() ==> GoodDestination(c.rules, u.dst) && Occupancy(c.skipped, u.dst).None?)
            && (e.ValidDelete() && u.dst in c.remote && IsBranch(u.dst) ==>
              !c.head.HeadUnreadable? && c.head != HeadAt(u.dst))
            && e.u == u
  {
  }

  // items is phase 2's answer, or that answer with every write failed by the
  // pack.
  ghost predicate Cleared2(c: Context, items: seq<Item>)
  {
    && ItemsOk(c, items) && HeadAllows(c, items)
    && Phase2Sound.FolderFree(c, items) && Phase2Sound.PairFree(c, items)
    && (c.local.Some? ==> UpdatesPairFree(c, items))
    && forall i | 0 <= i < |items| && items[i].ValidWrite() ::
         GoodDestination(c.rules, items[i].Dst()) && Occupancy(c.skipped, items[i].Dst()).None?
  }

  // With the Mac rule, updates are free of pairs too.
  ghost predicate UpdatesPairFree(c: Context, items: seq<Item>)
  {
    forall i, o | 0 <= i < |items| && items[i].ValidWrite() && !items[i].create && o in Phase2Sound.Final(c, items) ::
      !Pairs(c.keys, items[i].Dst(), o)
  }

  lemma DecideClears(c: Context, ups: seq<Update>)
    requires ContextOk(c)
    ensures Cleared2(c, Decide(c, ups))
  {
    var items := Decide(c, ups);
    DecideOk(c, ups);
    Phase2Sound.DecideIsSound(c, ups);
    if c.local.Some? { MacSound.DecideHasNoCollision(c, ups); }
    forall i | 0 <= i < |items| && items[i].v.Valid?
      ensures items[i].ValidWrite() ==>
        GoodDestination(c.rules, items[i].Dst()) && Occupancy(c.skipped, items[i].Dst()).None?
      ensures items[i].ValidDelete() && items[i].Dst() in c.remote && IsBranch(items[i].Dst()) ==>
                !c.head.HeadUnreadable? && c.head != HeadAt(items[i].Dst())
    {
      ValidEntry(c, ups, items, i);
      ValidWriteFacts(c, ups[i], ups);
    }
  }

  lemma FailWritesClears(c: Context, items: seq<Item>)
    requires Cleared2(c, items)
    ensures Cleared2(c, FailWrites(items))
    ensures Deleted(Elems(FailWrites(items))) == Deleted(Elems(items)) && Written(Elems(FailWrites(items))) == {}
  {
    var after := FailWrites(items);
    assert OnlyRefuses(items, after);
    OnlyRefusesKeepsItemsOk(c, items, after);
    Phase2Sound.FinalOnlyShrinks(c, items, after);
    DeletesGoOn(items);
  }

  lemma DeletesGoOn(items: seq<Item>)
    ensures Deleted(Elems(FailWrites(items))) == Deleted(Elems(items)) && Written(Elems(FailWrites(items))) == {}
  {
    var after := FailWrites(items);
    Phase2Sound.RefusingShrinksSets(items, after);
    forall d | d in Deleted(Elems(items)) ensures d in Deleted(Elems(after)) {
      var e :| e in Elems(items) && e.ValidDelete() && e.Dst() == d;
      var i :| 0 <= i < |items| && items[i] == e;
      assert after[i] in Elems(after);
    }
  }

  // ---- nothing skipped is in a valid write's way

  ghost predicate Avoids(skipped: seq<Skipped>, dst: Name)
  {
    forall i | 0 <= i < |skipped| :: !AboveOrEqual(skipped[i].path, dst) && !Above(dst, skipped[i].path)
  }

  // Occupancy finds a skipped path exactly when one is in the way.
  lemma OccupancyAvoids(skipped: seq<Skipped>, dst: Name)
    requires forall i | 0 <= i < |skipped| :: skipped[i].path != []
    ensures Occupancy(skipped, dst).None? <==> Avoids(skipped, dst)
  {
    Planner.OccupantIff(skipped, dst);
    Planner.AncestorIsNearest(skipped, dst);
    Planner.DescendantIsFirst(skipped, dst);
    if Occupancy(skipped, dst).None? {
      forall i | 0 <= i < |skipped| ensures !AboveOrEqual(skipped[i].path, dst) && !Above(dst, skipped[i].path) {
        assert skipped[i] in skipped;
      }
    } else {
      var s := Occupancy(skipped, dst).value;
      var i :| 0 <= i < |skipped| && skipped[i] == s;
      assert AboveOrEqual(s.path, dst) || Above(dst, s.path);
    }
  }

  // Something skipped at or above n keeps n clear of a destination that
  // avoids it.
  lemma AvoidsBeneath(skipped: seq<Skipped>, dst: Name, n: Name, i: nat)
    requires Avoids(skipped, dst) && i < |skipped| && AboveOrEqual(skipped[i].path, n)
    ensures n != dst && !Above(n, dst) && !Above(dst, n)
  {
    var p := skipped[i].path;
    if Above(n, dst) { AboveTransitive(p, n, dst); }
    if Above(dst, n) { AboveComparable(p, dst, n); }
  }

  // A file the scan did not advertise is clear of every valid write.
  lemma ForeignIsClear(c: Context, t: Tree, dst: Name, n: Name)
    requires WellFormed(t) && IsScan(c.rules, t, Scan(c.remote, c.skipped)) && Avoids(c.skipped, dst) && IsRef(dst)
    requires n in t.files && n !in c.remote
    ensures n != dst && !Nested(n, dst)
  {
    RefIsBelow(dst);
    if n == dst || Nested(n, dst) {
      UnderRefs(t, dst, n);
      var i :| 0 <= i < |c.skipped| && AboveOrEqual(c.skipped[i].path, n);
      AvoidsBeneath(c.skipped, dst, n, i);
    }
  }

  lemma UnderRefs(t: Tree, dst: Name, n: Name)
    requires WellFormed(t) && Above(REFS, dst) && n in t.files && (n == dst || Nested(n, dst))
    ensures Above(REFS, n)
  {
    ProtectedParents();
    if Above(n, dst) {
      AboveComparable(n, REFS, dst);
      if Above(n, REFS) { AboveParent(n, REFS); }
    } else if Above(dst, n) {
      AboveTransitive(REFS, dst, n);
    }
  }

  lemma FilesNotNested(t: Tree, a: Name, b: Name)
    requires WellFormed(t) && a in t.files && b in t.files
    ensures !Nested(a, b)
  {
    if Above(a, b) { FolderAbove(t, a, b); }
    if Above(b, a) { FolderAbove(t, b, a); }
  }

  // ---- when nothing fails, nothing is in the way

  // Phase 4 with every delete done: what it started from, and left.
  ghost predicate AllGone(c: Context, items: seq<Item>, t0: Tree, t1: Tree, deleted: set<Name>)
  {
    && WellFormed(t0) && WellFormed(t1) && RemoteIsFiles(c, t0)
    && IsScan(c.rules, t0, Scan(c.remote, c.skipped))
    && Removes(t0, t1, Doomed(c, items))
    && Doomed(c, items) <= deleted && (forall n | n in deleted && n in c.remote :: n !in t1.files)
  }

  lemma StaysAdvertised(c: Context, items: seq<Item>, t0: Tree, t1: Tree, deleted: set<Name>, n: Name)
    requires AllGone(c, items, t0, t1, deleted) && n in t1.files && n in c.remote
    ensures n in Phase2Sound.Final(c, items)
  {
  }

  // A valid write's destination and an earlier file are not nested.
  lemma OldFileClear(c: Context, items: seq<Item>, t0: Tree, t1: Tree, deleted: set<Name>, i: nat, n: Name)
    requires Cleared2(c, items) && AllGone(c, items, t0, t1, deleted)
    requires i < |items| && items[i].ValidWrite() && Avoids(c.skipped, items[i].Dst()) && n in t1.files
    ensures !Nested(n, items[i].Dst())
  {
    var x := items[i].Dst();
    if n !in c.remote {
      ForeignIsClear(c, t0, x, n);
    } else if items[i].create {
      StaysAdvertised(c, items, t0, t1, deleted, n);
    } else {
      FilesNotNested(t0, n, x);
    }
  }

  // Two valid writes are not nested.
  lemma NewFileClear(c: Context, items: seq<Item>, t0: Tree, i: nat, n: Name)
    requires Cleared2(c, items) && WellFormed(t0) && RemoteIsFiles(c, t0)
    requires i < |items| && items[i].ValidWrite() && n in Written(Elems(items))
    ensures !Nested(n, items[i].Dst())
  {
    var x := items[i].Dst();
    var e :| e in Elems(items) && e.ValidWrite() && e.Dst() == n;
    var k :| 0 <= k < |items| && items[k] == e;
    assert items[i] in Elems(items) && x in Written(Elems(items));
    assert n in Phase2Sound.Final(c, items) && x in Phase2Sound.Final(c, items);
    if !items[i].create && !items[k].create {
      FilesNotNested(t0, n, x);
    } else if items[i].create {
      assert !Nested(n, items[i].Dst());
    } else {
      assert !Nested(x, items[k].Dst());
    }
  }

  // Folders beneath a valid write have valid names.
  lemma FolderBeneathClean(c: Context, items: seq<Item>, t0: Tree, i: nat, d: Name)
    requires Cleared2(c, items) && WellFormed(t0) && IsScan(c.rules, t0, Scan(c.remote, c.skipped))
    requires i < |items| && items[i].ValidWrite() && Avoids(c.skipped, items[i].Dst()) && Above(items[i].Dst(), d)
    requires d in t0.dirs || exists w :: w in Written(Elems(items)) && Above(d, w)
    ensures c.rules.compOk(LeafOf(d))
  {
    var x := items[i].Dst();
    RefIsBelow(x);
    AboveTransitive(REFS, x, d);
    if d in t0.dirs {
      if !Clean(c.rules, d) {
        var k :| 0 <= k < |c.skipped| && AboveOrEqual(c.skipped[k].path, d);
        AvoidsBeneath(c.skipped, x, d, k);
      }
    } else {
      var w :| w in Written(Elems(items)) && Above(d, w);
      var e :| e in Elems(items) && e.ValidWrite() && e.Dst() == w;
      CleanAbove(c.rules, d, w);
    }
  }

  lemma RoomInReachable(c: Context, items: seq<Item>, t0: Tree, t1: Tree, deleted: set<Name>, i: nat, t: Tree)
    requires Cleared2(c, items) && AllGone(c, items, t0, t1, deleted) && Reachable(items, t1, t)
    requires i < |items| && items[i].ValidWrite() && Avoids(c.skipped, items[i].Dst())
    ensures RoomFor(c.rules, t, items[i].Dst())
  {
    forall n | n in t.files ensures !Nested(n, items[i].Dst()) {
      if n in t1.files {
        OldFileClear(c, items, t0, t1, deleted, i, n);
      } else {
        NewFileClear(c, items, t0, i, n);
      }
    }
    forall d | d in t.dirs && Above(items[i].Dst(), d) ensures c.rules.compOk(LeafOf(d)) {
      FolderBeneathClean(c, items, t0, i, d);
    }
  }

  lemma SkippedNamed(c: Context, t0: Tree)
    requires WellFormed(t0) && IsScan(c.rules, t0, Scan(c.remote, c.skipped))
    ensures forall i | 0 <= i < |c.skipped| :: c.skipped[i].path != []
  {
  }

  lemma PairsStandingSubset(c: Context, items: seq<Item>, t0: Tree, t1: Tree, deleted: set<Name>)
    requires AllGone(c, items, t0, t1, deleted)
    ensures Standing(c, deleted) + Written(Elems(items)) <= Phase2Sound.Final(c, items)
  {
  }

  // What phase 2 approved, phase 5 can do.
  lemma ClearedIsSmooth(c: Context, items: seq<Item>, t0: Tree, t1: Tree, deleted: set<Name>)
    requires Cleared2(c, items) && AllGone(c, items, t0, t1, deleted)
    ensures Smooth(c, items, t1, deleted)
  {
    SkippedNamed(c, t0);
    PairsStandingSubset(c, items, t0, t1, deleted);
    forall i | 0 <= i < |items| && items[i].ValidWrite()
      ensures forall t | Reachable(items, t1, t) :: RoomFor(c.rules, t, items[i].Dst())
      ensures items[i].Dst() in c.remote && items[i].Dst() !in deleted <==> items[i].Dst() in t1.files
      ensures items[i].create || c.local.Some? ==>
                forall o | o in Standing(c, deleted) + Written(Elems(items)) :: !Pairs(c.keys, items[i].Dst(), o)
    {
      OccupancyAvoids(c.skipped, items[i].Dst());
      forall t | Reachable(items, t1, t) ensures RoomFor(c.rules, t, items[i].Dst()) {
        RoomInReachable(c, items, t0, t1, deleted, i, t);
      }
      if items[i].Dst() in t1.files && items[i].Dst() !in c.remote {
        ForeignIsClear(c, t0, items[i].Dst(), items[i].Dst());
      }
    }
  }

  // ---- the push

  // What the push did, for whatever the transport did to it.
  ghost predicate NothingForeign(c: Context, items: seq<Item>, t0: Tree, t1: Tree, t2: Tree, tried: set<Name>)
  {
    && Removes(t0, t1, Doomed(c, items))
    && Grown(items, t1, t2, tried) && tried <= Written(Elems(items))
  }

  // The names whose delete was reported done.
  ghost predicate PairFreedom(c: Context, deleted: set<Name>, tried: set<Name>)
  {
    forall x, o | x in tried && x !in c.remote && (o in Standing(c, deleted) || o in tried) :: !Pairs(c.keys, x, o)
  }

  lemma TriedPairFree(c: Context, items: seq<Item>, deleted: set<Name>, tried: set<Name>)
    requires Cleared2(c, items) && tried <= Written(Elems(items)) && TriedArePairFree(c, deleted, tried)
    ensures PairFreedom(c, deleted, tried)
  {
    forall x, o | x in tried && x !in c.remote && o in tried ensures !Pairs(c.keys, x, o) {
      var e :| e in Elems(items) && e.ValidWrite() && e.Dst() == x;
      var k :| 0 <= k < |items| && items[k] == e;
      assert o in Phase2Sound.Final(c, items);
    }
  }

  // All deletes done; writes done unless aimed at a permanent folder or naming
  // a malformed object; and exactly those files there.
  ghost predicate Accomplished(c: Context, items: seq<Item>, results: seq<Result>, t0: Tree, t2: Tree)
    requires |results| == |items|
  {
    && AllDeleted(items, results, |items|)
    && AllWritten(items, results, |items|)
    && t2.files.Keys == (t0.files.Keys - Doomed(c, items)) + DoneNames(items, results, |items|)
  }

  // What any run of phases 4 and 5 leaves.
  ghost predicate Safe(c: Context, items: seq<Item>, results: seq<Result>, t0: Tree, t1: Tree, t2: Tree,
                       tried: set<Name>)
  {
    && WellFormed(t1) && WellFormed(t2) && |results| == |items|
    && NothingForeign(c, items, t0, t1, t2, tried) && PairFreedom(c, Committed4(items, results), tried)
    && Vanished(c, Committed4(items, results), t1) && DoneStored(items, results, t2)
    && TriedUpdatesSpare(c, items, Committed4(items, results), tried)
  }

  // Phases 4 and 5 over a batch phase 2 approved.
  method Execute(r: Store, c: Context, items: seq<Item>)
    returns (results: seq<Result>, ghost t1: Tree, tried: set<Name>)
    requires WellFormed(r.T()) && ContextOk(c) && IsScan(c.rules, r.T(), Scan(c.remote, c.skipped))
    requires Cleared2(c, items)
    modifies r`files, r`dirs, r`listed
    ensures WellFormed(r.T()) && Safe(c, items, results, old(r.T()), t1, r.T(), tried) && |results| == |items|
    ensures HeadBranchKept(r.head, old(r.T()), r.T()) && ListedClean(c.rules, old(r.listed), r.listed)
    ensures !r.faulty && r.head == c.head ==> Accomplished(c, items, results, old(r.T()), r.T())
    ensures !r.faulty && !r.brittle ==> Tidy(c, t1, items, results, |items|)
  {
    ghost var t0, listed0 := r.T(), r.listed;
    AdvertisedAreFiles(c, t0);
    var deletes := DeletePhase(r, c, items);
    t1 := r.T();
    ghost var listed1 := r.listed;
    results, tried := WriteAfter(r, c, items, deletes, t0);
    OnlyCleanListed(c, items, t0, listed0, listed1, r.listed);
  }

  // Phase 5, after a phase 4 that began at t0.
  method WriteAfter(r: Store, c: Context, items: seq<Item>, deletes: seq<Result>, ghost t0: Tree)
    returns (results: seq<Result>, tried: set<Name>)
    requires WellFormed(t0) && WellFormed(r.T()) && ContextOk(c) && Cleared2(c, items) && RemoteIsFiles(c, t0)
    requires IsScan(c.rules, t0, Scan(c.remote, c.skipped)) && Removes(t0, r.T(), Doomed(c, items))
    requires DeleteResults(c, r.T(), items, deletes, |items|)
    modifies r`files, r`dirs, r`listed
    ensures WellFormed(r.T()) && Safe(c, items, results, t0, old(r.T()), r.T(), tried) && |results| == |items|
    ensures ListedForWrites(c.rules, items, old(r.listed), r.listed)
    ensures !r.faulty && AllDeleted(items, deletes, |items|) ==> Accomplished(c, items, results, t0, r.T())
    ensures Tidy(c, old(r.T()), items, deletes, |items|) ==> Tidy(c, old(r.T()), items, results, |items|)
  {
    ghost var t1 := r.T();
    ghost var works := !r.faulty && AllDeleted(items, deletes, |items|);
    if works { ReadyToWrite(c, items, t0, t1, deletes); }
    results, tried := WriteRefs(r, c, items, deletes);
    SafeAfter(c, items, t0, t1, r.T(), deletes, results, tried);
    TidyAfter(c, items, t1, r.T(), deletes, results, tried);
    if works { AllDoneAfter(c, items, t0, t1, r.T(), deletes, results, tried); }
  }

  lemma ReadyToWrite(c: Context, items: seq<Item>, t0: Tree, t1: Tree, deletes: seq<Result>)
    requires WellFormed(t0) && WellFormed(t1) && RemoteIsFiles(c, t0)
    requires IsScan(c.rules, t0, Scan(c.remote, c.skipped)) && Cleared2(c, items)
    requires Removes(t0, t1, Doomed(c, items)) && DeleteResults(c, t1, items, deletes, |items|)
    requires AllDeleted(items, deletes, |items|)
    ensures AllGone(c, items, t0, t1, Committed4(items, deletes)) && Smooth(c, items, t1, Committed4(items, deletes))
  {
    AllGoneAfter(c, items, t0, t1, deletes);
    ClearedIsSmooth(c, items, t0, t1, Committed4(items, deletes));
  }

  lemma SafeAfter(c: Context, items: seq<Item>, t0: Tree, t1: Tree, t2: Tree, deletes: seq<Result>,
                  results: seq<Result>, tried: set<Name>)
    requires WellFormed(t1) && WellFormed(t2) && Cleared2(c, items) && Removes(t0, t1, Doomed(c, items))
    requires DeleteResults(c, t1, items, deletes, |items|) && Grown(items, t1, t2, tried)
    requires tried <= Written(Elems(items)) && TriedArePairFree(c, Committed4(items, deletes), tried)
    requires TriedUpdatesSpare(c, items, Committed4(items, deletes), tried)
    requires WriteResults(t2, items, deletes, results, tried, |items|)
    ensures Safe(c, items, results, t0, t1, t2, tried)
  {
    DeletedAreGone(c, t1, items, deletes);
    DeletesUntouched(t2, items, deletes, results, tried);
    TriedPairFree(c, items, Committed4(items, deletes), tried);
  }

  lemma TidyAfter(c: Context, items: seq<Item>, t1: Tree, t2: Tree, deletes: seq<Result>, results: seq<Result>,
                  tried: set<Name>)
    requires |deletes| == |items| && WriteResults(t2, items, deletes, results, tried, |items|)
    ensures Tidy(c, t1, items, deletes, |items|) ==> Tidy(c, t1, items, results, |items|)
  {
    forall i | 0 <= i < |items| && items[i].ValidDelete() ensures results[i] == deletes[i] {
      assert WriteResult(t2, items[i], deletes[i], results[i], tried);
    }
  }

  lemma AllDoneAfter(c: Context, items: seq<Item>, t0: Tree, t1: Tree, t2: Tree, deletes: seq<Result>,
                     results: seq<Result>, tried: set<Name>)
    requires |deletes| == |items| && AllDeleted(items, deletes, |items|)
    requires AllGone(c, items, t0, t1, Committed4(items, deletes))
    requires WriteResults(t2, items, deletes, results, tried, |items|) && Progress(items, t1, t2, results, |items|)
    ensures Accomplished(c, items, results, t0, t2)
  {
    DeletesUntouched(t2, items, deletes, results, tried);
    FilesAfter(c, items, t0, t1, t2, deletes, results);
  }

  // Pruning lists folders above advertised refs, healing lists folders at and
  // beneath good destinations: all clean.
  lemma OnlyCleanListed(c: Context, items: seq<Item>, t0: Tree, a: seq<Name>, b: seq<Name>, d: seq<Name>)
    requires IsScan(c.rules, t0, Scan(c.remote, c.skipped)) && Cleared2(c, items)
    requires ListedAbove(Doomed(c, items), a, b) && ListedForWrites(c.rules, items, b, d)
    ensures ListedClean(c.rules, a, d)
  {
    forall n | n in Doomed(c, items) ensures Clean(c.rules, n) { assert Advertised(c.rules, t0, n); }
    ListedAboveClean(c.rules, Doomed(c, items), a, b);
    ListedCleanThen(c.rules, a, b, d);
  }

  // Advertised names whose delete was reported done are gone after phase 4.
  ghost predicate Vanished(c: Context, deleted: set<Name>, t1: Tree)
  {
    forall n | n in deleted && n in c.remote :: n !in t1.files
  }

  // A write reported done is stored, with its own object.
  ghost predicate DoneStored(items: seq<Item>, results: seq<Result>, t: Tree)
    requires |results| == |items|
  {
    forall i | 0 <= i < |items| && items[i].ValidWrite() && results[i].Done? ::
      IsSha(items[i].sha) && items[i].Dst() in t.files && t.files[items[i].Dst()] == RefContent(items[i].sha)
  }

  method PushWithLocal(r: Store, pf: PackFolder, c: Context, ups: seq<Update>, g: Graph,
                       packer: (set<Oid>, set<Oid>) -> PackResult)
    returns (items: seq<Item>, results: seq<Result>, ghost t1: Tree, tried: set<Name>)
    requires WellFormed(r.T()) && ContextOk(c) && IsScan(c.rules, r.T(), Scan(c.remote, c.skipped))
    requires PacksDifference(g, packer)
    modifies r`files, r`dirs, r`listed, pf
    ensures (items == Decide(c, ups) || items == FailWrites(Decide(c, ups))) && Cleared2(c, items)
    ensures WellFormed(r.T()) && Safe(c, items, results, old(r.T()), t1, r.T(), tried) && |results| == |items|
    ensures HeadBranchKept(r.head, old(r.T()), r.T()) && ListedClean(c.rules, old(r.listed), r.listed)
    ensures OnlyAdds(old(pf.F()), pf.F())
    ensures old(RemoteClosed(g, pf.F(), c.remote)) ==> WritesClosed(g, pf.F(), items)
    ensures old(TruePacks(pf.F())) ==> TruePacks(pf.F()) && TrueCuts(old(pf.past), pf.past)
    ensures !r.faulty && r.head == c.head ==> Accomplished(c, items, results, old(r.T()), r.T())
    ensures !pf.faulty && PackGoes(old(pf.F()), packer(Wants(Decide(c, ups)), Haves(c))) ==> items == Decide(c, ups)
  {
    var decided := Decider.DecideBatch(c, ups);
    DecideClears(c, ups);
    FailWritesClears(c, decided);
    items := SendPack(pf, g, packer, c, decided);
    results, t1, tried := Execute(r, c, items);
  }

  lemma AdvertisedAreFiles(c: Context, t: Tree)
    requires ContextOk(c) && IsScan(c.rules, t, Scan(c.remote, c.skipped))
    ensures RemoteIsFiles(c, t)
  {
  }

  lemma DeletedAreGone(c: Context, t1: Tree, items: seq<Item>, deletes: seq<Result>)
    requires DeleteResults(c, t1, items, deletes, |items|)
    ensures Vanished(c, Committed4(items, deletes), t1)
  {
  }

  lemma DeletesUntouched(t: Tree, items: seq<Item>, deletes: seq<Result>, results: seq<Result>, tried: set<Name>)
    requires |deletes| == |items| && WriteResults(t, items, deletes, results, tried, |items|)
    ensures Committed4(items, results) == Committed4(items, deletes)
    ensures AllDeleted(items, deletes, |items|) ==> AllDeleted(items, results, |items|)
    ensures DoneStored(items, results, t)
  {
    forall i | 0 <= i < |items| && items[i].ValidWrite() && results[i].Done?
      ensures IsSha(items[i].sha) && items[i].Dst() in t.files && t.files[items[i].Dst()] == RefContent(items[i].sha)
    {
      assert WriteResult(t, items[i], deletes[i], results[i], tried);
    }
    forall i | 0 <= i < |items| && items[i].del ensures results[i] == deletes[i] {
      assert WriteResult(t, items[i], deletes[i], results[i], tried);
    }
  }

  lemma AllGoneAfter(c: Context, items: seq<Item>, t0: Tree, t1: Tree, deletes: seq<Result>)
    requires WellFormed(t0) && WellFormed(t1) && RemoteIsFiles(c, t0) && IsScan(c.rules, t0, Scan(c.remote, c.skipped))
    requires Removes(t0, t1, Doomed(c, items)) && DeleteResults(c, t1, items, deletes, |items|)
    requires AllDeleted(items, deletes, |items|)
    ensures AllGone(c, items, t0, t1, Committed4(items, deletes))
  {
    DeletedAreGone(c, t1, items, deletes);
    forall n | n in Doomed(c, items) ensures n in Committed4(items, deletes) {
      var e :| e in Elems(items) && e.ValidDelete() && e.Dst() == n;
      var i :| 0 <= i < |items| && items[i] == e;
      assert deletes[i].Done?;
    }
  }

  lemma FilesAfter(c: Context, items: seq<Item>, t0: Tree, t1: Tree, t2: Tree, deletes: seq<Result>,
                   results: seq<Result>)
    requires |deletes| == |results| == |items|
    requires AllGone(c, items, t0, t1, Committed4(items, deletes)) && Progress(items, t1, t2, results, |items|)
    requires AllDeleted(items, results, |items|)
    ensures Accomplished(c, items, results, t0, t2)
  {
    forall n | n in Doomed(c, items) ensures n !in t1.files {
    }
  }
}
