/** Phases 4 and 5 of a push: deletes, then creates and updates, over a
    transport whose calls may fail or land unseen (push.go, phases 4 and 5). */
module Execution {
  import opened Names
  import opened Keys
  import opened CaseConflicts
  import opened Batch
  import opened Remote
  import opened Refs
  import opened Healing

  datatype Failure =
    | Planned(why: Reason)
    | HeadUnread
    | HeadMoved
    | DeleteFailed
    | CaseAgain(cs: seq<Conflict>, undeleted: set<Name>)
    | MacAgain(cs: seq<Conflict>, undeleted: set<Name>)
    | NoFolder
    | PublishFailed
    | ChangedConcurrently

  datatype Result = Pending | Done | Failed(why: Failure)

  // ---- phase 4

  // Advertised refs are files under refs/.
  ghost predicate RemoteIsFiles(c: Context, t: Tree)
  {
    forall n | n in c.remote :: IsRef(n) && n in t.files
  }

  // HEAD, as phase 2 read it, protects none of the valid deletes.
  ghost predicate HeadAllows(c: Context, items: seq<Item>)
  {
    forall i | 0 <= i < |items| && items[i].ValidDelete() && items[i].Dst() in c.remote && IsBranch(items[i].Dst()) ::
      !c.head.HeadUnreadable? && c.head != HeadAt(items[i].Dst())
  }

  // before becomes after by removing files named in names, and unprotected
  // folders above them.
  ghost predicate Removes(before: Tree, after: Tree, names: set<Name>)
  {
    && after.files.Keys <= before.files.Keys
    && (forall n | n in after.files :: after.files[n] == before.files[n])
    && (forall n | n in before.files && n !in after.files :: n in names)
    && after.dirs <= before.dirs
    && (forall d | d in before.dirs && d !in after.dirs :: d !in PROTECTED && exists n :: n in names && Above(d, n))
  }

  lemma RemovesTransitive(a: Tree, b: Tree, d: Tree, names: set<Name>)
    requires Removes(a, b, names) && Removes(b, d, names)
    ensures Removes(a, d, names)
  {
  }

  lemma PrunedRemoves(a: Tree, b: Tree, n: Name)
    requires Pruned(a, b, n)
    ensures Removes(a, b, {n})
  {
    assert n in {n};
  }

  lemma RemovesMore(a: Tree, b: Tree, some: set<Name>, names: set<Name>)
    requires Removes(a, b, some) && some <= names
    ensures Removes(a, b, names)
  {
  }

  // Deleting n, and pruning above it, leaves no folder empty above o.
  lemma StaysTidy(a: Tree, b: Tree, n: Name, o: Name)
    requires Removes(a, b, {n}) && NoneEmptyAbove(a, o) && NoneEmptyAbove(b, n)
    ensures NoneEmptyAbove(b, o)
  {
    forall d | d in b.dirs && Above(d, o) && d !in PROTECTED ensures exists m :: IsNode(b, m) && Above(d, m) {
      var m :| IsNode(a, m) && Above(d, m);
      if !IsNode(b, m) {
        if m in a.dirs { AboveTransitive(d, m, n); }
        assert Above(d, n);
      }
    }
  }

  // No folder above a ref whose delete is done is empty, but for the permanent.
  ghost predicate Tidy(c: Context, t: Tree, items: seq<Item>, results: seq<Result>, n: nat)
    requires n <= |items| && n <= |results|
  {
    forall i | 0 <= i < n && items[i].ValidDelete() && results[i].Done? && items[i].Dst() in c.remote ::
      NoneEmptyAbove(t, items[i].Dst())
  }

  lemma TidyStep(c: Context, a: Tree, b: Tree, items: seq<Item>, results: seq<Result>, n: nat, res: Result)
    requires n < |items| && n == |results| && Tidy(c, a, items, results, n) && Removes(a, b, {items[n].Dst()})
    requires a == b || NoneEmptyAbove(b, items[n].Dst())
    requires items[n].ValidDelete() && res.Done? && items[n].Dst() in c.remote ==> NoneEmptyAbove(b, items[n].Dst())
    ensures Tidy(c, b, items, results + [res], n + 1)
  {
    if a != b {
      forall i | 0 <= i < n && items[i].ValidDelete() && results[i].Done? && items[i].Dst() in c.remote
        ensures NoneEmptyAbove(b, items[i].Dst())
      {
        StaysTidy(a, b, items[n].Dst(), items[i].Dst());
      }
    }
  }

  lemma TrashRemoves(t: Tree, p: Name)
    requires WellFormed(t) && p !in t.dirs
    ensures Removes(t, Without(t, p), {p})
    ensures Without(t, p).files.Keys == t.files.Keys - {p}
  {
    WithoutFile(t, p);
  }

  // The branch HEAD points at is not deleted.
  ghost predicate HeadBranchKept(head: HeadRead, before: Tree, after: Tree)
  {
    head.HeadAt? && IsBranch(head.branch) && head.branch in before.files ==> head.branch in after.files
  }

  // One valid delete of an advertised ref.
  method DeleteOne(r: Store, dst: Name) returns (res: Result)
    requires WellFormed(r.T()) && IsRef(dst) && dst !in r.dirs
    requires forall n | n in r.files :: !Above(n, dst)
    modifies r`files, r`dirs, r`listed
    ensures WellFormed(r.T()) && Removes(old(r.T()), r.T(), {dst})
    ensures res.Done? || res.Failed?
    ensures res.Done? ==> dst !in r.files
    ensures ListedAbove({dst}, old(r.listed), r.listed)
    ensures res == Failed(HeadMoved) ==> IsBranch(dst) && r.head == HeadAt(dst)
    ensures IsBranch(dst) && r.head == HeadAt(dst) ==> !res.Done? && r.T() == old(r.T())
    ensures !r.faulty && (IsBranch(dst) ==> !r.head.HeadUnreadable? && r.head != HeadAt(dst)) ==> res.Done?
    ensures !r.faulty && !r.brittle ==> r.T() == old(r.T()) || NoneEmptyAbove(r.T(), dst)
    ensures !r.brittle && res.Done? ==> NoneEmptyAbove(r.T(), dst)
  {
    if IsBranch(dst) {
      var h := r.ReadHead();
      if h.HeadUnreadable? { return Failed(HeadUnread); }
      if h == HeadAt(dst) { return Failed(HeadMoved); }
    }
    ghost var t := r.T();
    RefIsBelow(dst);
    NothingPermanent(t, dst);
    TrashRemoves(t, dst);
    var out, err := r.Trash(dst, r.faulty);
    if err || out != Committed { return Failed(DeleteFailed); }
    ghost var t' := r.T();
    PruneEmptyParents(r, dst, r.brittle);
    PrunedRemoves(t', r.T(), dst);
    RemovesTransitive(t, t', r.T(), {dst});
    return Done;
  }

  lemma ListedAboveMore(some: set<Name>, names: set<Name>, before: seq<Name>, now: seq<Name>)
    requires ListedAbove(some, before, now) && some <= names
    ensures ListedAbove(names, before, now)
  {
    forall i | |before| <= i < |now| ensures AboveSome(now[i], names) {
      assert AboveSome(now[i], some);
    }
  }

  lemma RefIsBelow(n: Name)
    requires IsRef(n)
    ensures Above(REFS, n)
  {
  }

  lemma NothingPermanent(t: Tree, dst: Name)
    requires WellFormed(t) && IsRef(dst) && dst !in t.dirs
    ensures forall q | q in PROTECTED :: !AboveOrEqual(dst, q)
  {
    RefIsBelow(dst);
    assert dst !in PROTECTED;
    ProtectedOutside(dst);
  }

  // The tree keeps the shape the deletes need.
  ghost predicate Deletable(t: Tree, names: set<Name>)
  {
    forall n | n in names :: IsRef(n) && n !in t.dirs && forall m | m in t.files :: !Above(m, n)
  }

  lemma RemovesKeepsDeletable(a: Tree, b: Tree, names: set<Name>, removed: set<Name>)
    requires Deletable(a, names) && Removes(a, b, removed)
    ensures Deletable(b, names)
  {
  }

  lemma FilesDeletable(t: Tree, names: set<Name>)
    requires WellFormed(t) && forall n | n in names :: IsRef(n) && n in t.files
    ensures Deletable(t, names)
  {
    forall n, m | n in names && m in t.files ensures !Above(m, n) {
      if Above(m, n) { FolderAbove(t, m, n); }
    }
  }

  // The advertised names that valid deletes name.
  function Doomed(c: Context, items: seq<Item>): set<Name>
  {
    Deleted(Elems(items)) * c.remote.Keys
  }

  // What phase 4 leaves in the results.
  ghost predicate DeleteResults(c: Context, t: Tree, items: seq<Item>, results: seq<Result>, n: nat)
    requires n <= |items|
  {
    |results| == n && forall i | 0 <= i < n :: DeleteResult(c, t, items[i], results[i])
  }

  lemma DeleteResultsStay(c: Context, a: Tree, b: Tree, items: seq<Item>, results: seq<Result>, n: nat)
    requires n <= |items| && DeleteResults(c, a, items, results, n) && b.files.Keys <= a.files.Keys
    ensures DeleteResults(c, b, items, results, n)
  {
  }

  method DeletePhase(r: Store, c: Context, items: seq<Item>) returns (results: seq<Result>)
    requires WellFormed(r.T()) && RemoteIsFiles(c, r.T())
    modifies r`files, r`dirs, r`listed
    ensures WellFormed(r.T()) && Removes(old(r.T()), r.T(), Doomed(c, items))
    ensures DeleteResults(c, r.T(), items, results, |items|)
    ensures HeadBranchKept(r.head, old(r.T()), r.T())
    ensures ListedAbove(Doomed(c, items), old(r.listed), r.listed)
    ensures !r.faulty && r.head == c.head && HeadAllows(c, items) ==>
              AllDeleted(items, results, |items|)
    ensures !r.faulty && !r.brittle ==> Tidy(c, r.T(), items, results, |items|)
  {
    results := [];
    FilesDeletable(r.T(), Doomed(c, items));
    var i := 0;
    while i < |items|
      invariant 0 <= i <= |items| && DeletedTo(c, items, r.head, old(r.T()), r.T(), results, i)
      invariant ListedAbove(Doomed(c, items), old(r.listed), r.listed)
      invariant !r.faulty && r.head == c.head && HeadAllows(c, items) ==> AllDeleted(items, results, i)
      invariant !r.faulty && !r.brittle ==> Tidy(c, r.T(), items, results, i)
    {
      ghost var listed := r.listed;
      results := DeleteNext(r, c, items, i, results, old(r.T()));
      ListedAboveThen(Doomed(c, items), old(r.listed), listed, r.listed);
      i := i + 1;
    }
  }

  // What phase 4 has done below entry n.
  ghost predicate DeletedTo(c: Context, items: seq<Item>, head: HeadRead, t0: Tree, t: Tree, results: seq<Result>,
                            n: nat)
    requires n <= |items|
  {
    && WellFormed(t) && Deletable(t, Doomed(c, items)) && Removes(t0, t, Doomed(c, items))
    && DeleteResults(c, t, items, results, n) && HeadBranchKept(head, t0, t)
  }

  method DeleteNext(r: Store, c: Context, items: seq<Item>, i: nat, results: seq<Result>, ghost t0: Tree)
    returns (results': seq<Result>)
    requires i < |items| && DeletedTo(c, items, r.head, t0, r.T(), results, i)
    modifies r`files, r`dirs, r`listed
    ensures DeletedTo(c, items, r.head, t0, r.T(), results', i + 1)
    ensures ListedAbove(Doomed(c, items), old(r.listed), r.listed)
    ensures !r.faulty && r.head == c.head && HeadAllows(c, items) && AllDeleted(items, results, i) ==>
      AllDeleted(items, results', i + 1)
    ensures !r.faulty && !r.brittle && Tidy(c, old(r.T()), items, results, i) ==> Tidy(c, r.T(), items, results', i + 1)
  {
    ghost var t, doomed := r.T(), Doomed(c, items);
    var res := DeleteEntry(r, c, items, i);
    RemovesKeepsDeletable(t, r.T(), doomed, doomed);
    RemovesTransitive(t0, t, r.T(), doomed);
    DeleteResultsStay(c, t, r.T(), items, results, i);
    DeleteResultsSnoc(c, r.T(), items, results, i, res);
    if !r.faulty && !r.brittle && Tidy(c, t, items, results, i) { TidyStep(c, t, r.T(), items, results, i, res); }
    results' := results + [res];
  }

  ghost predicate AllDeleted(items: seq<Item>, results: seq<Result>, n: nat)
    requires n <= |items| && n <= |results|
  {
    forall j | 0 <= j < n && items[j].ValidDelete() :: results[j].Done?
  }

  ghost predicate DeleteResult(c: Context, t: Tree, e: Item, res: Result)
  {
    && (e.v.Refused? ==> res == Failed(Planned(e.v.why)))
    && (e.ValidWrite() ==> res == Pending)
    && (e.ValidDelete() ==> res.Done? || res.Failed?)
    && (e.ValidDelete() && res.Done? ==> e.Dst() !in c.remote || e.Dst() !in t.files)
    && (e.ValidDelete() && e.Dst() !in c.remote ==> res.Done?)
  }

  lemma DeleteResultsSnoc(c: Context, t: Tree, items: seq<Item>, results: seq<Result>, i: nat, res: Result)
    requires i < |items| && DeleteResults(c, t, items, results, i) && DeleteResult(c, t, items[i], res)
    ensures DeleteResults(c, t, items, results + [res], i + 1)
    ensures AllDeleted(items, results, i) && (items[i].ValidDelete() ==> res.Done?) ==>
      AllDeleted(items, results + [res], i + 1)
  {
  }

  // Phase 4 for one entry.
  method DeleteEntry(r: Store, c: Context, items: seq<Item>, i: nat) returns (res: Result)
    requires WellFormed(r.T()) && i < |items| && Deletable(r.T(), Doomed(c, items))
    modifies r`files, r`dirs, r`listed
    ensures WellFormed(r.T()) && Removes(old(r.T()), r.T(), Doomed(c, items))
    ensures DeleteResult(c, r.T(), items[i], res)
    ensures HeadBranchKept(r.head, old(r.T()), r.T())
    ensures ListedAbove(Doomed(c, items), old(r.listed), r.listed)
    ensures !r.faulty && r.head == c.head && HeadAllows(c, items) && items[i].ValidDelete() ==> res.Done?
    ensures Removes(old(r.T()), r.T(), {items[i].Dst()})
    ensures !r.faulty && !r.brittle ==> r.T() == old(r.T()) || NoneEmptyAbove(r.T(), items[i].Dst())
    ensures !r.brittle && items[i].ValidDelete() && res.Done? && items[i].Dst() in c.remote ==>
      NoneEmptyAbove(r.T(), items[i].Dst())
  {
    var e := items[i];
    match e.v {
      case Refused(why) => return Failed(Planned(why));
      case Valid =>
    }
    if !e.del { return Pending; }
    if e.Dst() !in c.remote { return Done; }
    assert e in Elems(items);
    assert e.Dst() in Doomed(c, items);
    res := DeleteOne(r, e.Dst());
    RemovesMore(old(r.T()), r.T(), {e.Dst()}, Doomed(c, items));
    ListedAboveMore({e.Dst()}, Doomed(c, items), old(r.listed), r.listed);
  }

  // The names whose delete reported success: deletedThisBatch.
  function Committed4(items: seq<Item>, results: seq<Result>): set<Name>
    requires |results| == |items|
  {
    set i | 0 <= i < |items| && items[i].del && results[i].Done? :: items[i].Dst()
  }

  // Every name the batch asked to delete.
  function Asked(items: seq<Item>): set<Name>
  {
    set i | 0 <= i < |items| && items[i].del :: items[i].Dst()
  }

  // ---- phase 5

  // before becomes after by at most writing ref: its file, the folders above
  // it, and, when it is not permanent and holds no file, the folders at and
  // beneath it gone.
  ghost predicate Writes(before: Tree, after: Tree, ref: Name, sha: Sha)
  {
    && (after.files == before.files || (IsSha(sha) && after.files == before.files[ref := RefContent(sha)]))
    && (forall d | d in after.dirs && d !in before.dirs :: Above(d, ref))
    && (forall d | d in before.dirs && d !in after.dirs :: AboveOrEqual(ref, d))
    && ((exists d :: d in before.dirs && d !in after.dirs) ==>
      ref !in PROTECTED && forall n | n in before.files :: !Above(ref, n))
  }

  // Nothing stands in the way of writing ref.
  ghost predicate RoomFor(rules: Rules, t: Tree, ref: Name)
  {
    && (forall n | n in t.files :: !Nested(n, ref))
    && (forall d | d in t.dirs && Above(ref, d) :: rules.compOk(LeafOf(d)))
  }

  method WriteAttempt(r: Store, rules: Rules, e: Item, exists': bool) returns (res: Result)
    requires WellFormed(r.T()) && IsRef(e.Dst())
    modifies r`files, r`dirs, r`listed
    ensures WellFormed(r.T()) && Writes(old(r.T()), r.T(), e.Dst(), e.sha)
    ensures res.Done? || res.Failed?
    ensures ListedIfClean(rules, e.Dst(), old(r.listed), r.listed)
    ensures res.Done? ==> IsSha(e.sha) && e.Dst() in r.files && r.files[e.Dst()] == RefContent(e.sha)
    ensures !r.faulty && old(RoomFor(rules, r.T(), e.Dst())) && (exists' <==> e.Dst() in old(r.files)) ==>
              (res.Done? <==> IsSha(e.sha) && e.Dst() !in PROTECTED)
              && r.files == (if res.Done? then old(r.files)[e.Dst() := RefContent(e.sha)] else old(r.files))
  {
    var dst := e.Dst();
    RefIsBelow(dst);
    ghost var t0 := r.T();
    var ok := EnsureRefParents(r, dst);
    if !ok { return Failed(NoFolder); }
    ghost var t := r.T();
    ParentsLeaveRoom(rules, t0, t, dst);
    var out, err;
    if exists' {
      out, err := WriteRef(r, dst, e.sha, true);
    } else {
      ProtectedIsFolder(t, dst);
      out, err := CreateHealing(r, rules, dst, e.sha);
    }
    if err || out == Ambiguous { return Failed(PublishFailed); }
    if out == Refusal { return Failed(ChangedConcurrently); }
    return Done;
  }

  lemma ProtectedIsFolder(t: Tree, ref: Name)
    requires WellFormed(t)
    ensures ref in PROTECTED ==> ref in t.dirs && ref !in t.files
  {
  }

  lemma ParentsLeaveRoom(rules: Rules, t0: Tree, t: Tree, ref: Name)
    requires WellFormed(t0) && WellFormed(t) && t.files == t0.files && t0.dirs <= t.dirs
    requires forall d | d in t.dirs && d !in t0.dirs :: Above(d, ref)
    requires ParentOf(ref) in t.dirs
    ensures RoomFor(rules, t0, ref) ==> RoomFor(rules, t, ref)
    ensures RoomFor(rules, t0, ref) && ref !in PROTECTED && ref !in t.files ==> Clear(rules, t, ref)
  {
    forall d | d in t.dirs && Above(ref, d) ensures d in t0.dirs {
      AboveIsStrict(ref, d);
    }
  }
}
