/** Phase 5 of a push: the re-checks against what really stands, then the
    writes, one entry at a time (push.go, phase 5). */
module WritePhase {
  import opened Names
  import opened Wrappers
  import opened Keys
  import opened CaseConflicts
  import opened Batch
  import opened Remote
  import opened Refs
  import opened Execution

  // The advertised refs that still stand when phase 5 begins.
  function Standing(c: Context, deleted: set<Name>): set<Name>
  {
    c.remote.Keys - deleted
  }

  // What phase 5 reads of phase 4.
  datatype Before = Before(deleted: set<Name>, asked: set<Name>)

  function Undeleted(b: Before, cs: seq<Conflict>): set<Name>
  {
    set i | 0 <= i < |cs| && cs[i].ref in b.asked && cs[i].ref !in b.deleted :: cs[i].ref
  }

  // A create stands beside no other spelling; with the Mac rule, an update
  // stands beside none whose delete this batch asked for and did not get.
  ghost predicate Passes(c: Context, dst: Name, live: set<Name>, b: Before)
  {
    if dst !in c.remote then forall o | o in live :: !Pairs(c.keys, dst, o)
    else c.local.Some? && dst !in b.deleted ==>
      forall o | o in live && o in b.asked && o !in b.deleted :: !Pairs(c.keys, dst, o)
  }

  // What the refusal names.
  function RecheckFailure(c: Context, dst: Name, live: set<Name>, b: Before): Failure
  {
    var cs := ConflictsIn(c.keys, live, dst);
    if dst !in c.remote then CaseAgain(cs, Undeleted(b, cs)) else MacAgain(cs, Undeleted(b, cs))
  }

  // A refused re-check names exactly the standing refs that pair with the
  // entry, and of them those whose delete was asked for and not done.
  lemma RecheckTells(c: Context, dst: Name, live: set<Name>, b: Before, o: Name)
    requires Split(c.keys)
    ensures match RecheckFailure(c, dst, live, b)
      case CaseAgain(cs, undeleted) => dst !in c.remote && NamesExactly(c, dst, live, b, o, cs, undeleted)
      case MacAgain(cs, undeleted) => dst in c.remote && NamesExactly(c, dst, live, b, o, cs, undeleted)
      case _ => false
  {
    ConflictsInComplete(c.keys, live, dst);
  }

  ghost predicate NamesExactly(c: Context, dst: Name, live: set<Name>, b: Before, o: Name, cs: seq<Conflict>,
                               undeleted: set<Name>)
  {
    && ((exists k :: 0 <= k < |cs| && cs[k].ref == o) <==> o in live && Pairs(c.keys, dst, o))
    && (o in undeleted <==> o in live && Pairs(c.keys, dst, o) && o in b.asked && o !in b.deleted)
  }

  lemma UndeletedIff(k: Keys, dst: Name, live: set<Name>, b: Before)
    requires Split(k)
    ensures Undeleted(b, ConflictsIn(k, live, dst)) == {} <==>
      forall o | o in live && o in b.asked && o !in b.deleted :: !Pairs(k, dst, o)
  {
    ConflictsInComplete(k, live, dst);
    var cs := ConflictsIn(k, live, dst);
    forall i | 0 <= i < |cs| && cs[i].ref in b.asked && cs[i].ref !in b.deleted
      ensures cs[i].ref in Undeleted(b, cs) && cs[i].ref in live && Pairs(k, dst, cs[i].ref)
    {
    }
    forall o | o in live && Pairs(k, dst, o) ensures exists i :: 0 <= i < |cs| && cs[i].ref == o {
    }
  }

  // One entry: the case re-check of a create, the Mac re-check of an update,
  // then the write. tried says the re-checks passed.
  method WriteEntry(r: Store, c: Context, e: Item, live: set<Name>, b: Before) returns (res: Result, tried: bool)
    requires WellFormed(r.T()) && Split(c.keys) && IsRef(e.Dst())
    modifies r`files, r`dirs, r`listed
    ensures WellFormed(r.T()) && Writes(old(r.T()), r.T(), e.Dst(), e.sha)
    ensures res.Done? || res.Failed?
    ensures tried <==> Passes(c, e.Dst(), live, b)
    ensures ListedIfClean(c.rules, e.Dst(), old(r.listed), r.listed)
    ensures !tried ==> r.T() == old(r.T()) && res == Failed(RecheckFailure(c, e.Dst(), live, b))
    ensures res.Done? ==> tried && IsSha(e.sha) && e.Dst() in r.files && r.files[e.Dst()] == RefContent(e.sha)
    ensures !r.faulty && old(RoomFor(c.rules, r.T(), e.Dst()))
            && (e.Dst() in c.remote && e.Dst() !in b.deleted <==> e.Dst() in old(r.files))
            && (e.Dst() !in c.remote || c.local.Some? ==> forall o | o in live :: !Pairs(c.keys, e.Dst(), o)) ==>
              (res.Done? <==> IsSha(e.sha) && e.Dst() !in PROTECTED)
              && r.files == (if res.Done? then old(r.files)[e.Dst() := RefContent(e.sha)] else old(r.files))
  {
    var dst := e.Dst();
    var preExists := dst in c.remote;
    ConflictsInComplete(c.keys, live, dst);
    UndeletedIff(c.keys, dst, live, b);
    if !preExists {
      var conflicts := FindConflicts(c.keys, live, [dst]);
      if dst in conflicts { return Failed(CaseAgain(conflicts[dst], Undeleted(b, conflicts[dst]))), false; }
      assert dst in [dst];
    }
    if c.local.Some? && !(b.asked <= b.deleted) && preExists && dst !in b.deleted {
      var conflicts := FindConflicts(c.keys, live, [dst]);
      assert dst in [dst];
      if dst in conflicts && Undeleted(b, conflicts[dst]) != {} {
        return Failed(MacAgain(conflicts[dst], Undeleted(b, conflicts[dst]))), false;
      }
    }
    tried := true;
    res := WriteAttempt(r, c.rules, e, preExists && dst !in b.deleted);
  }

  // ---- the tree while phase 5 runs

  ghost predicate StoredBy(items: seq<Item>, n: Name, body: Content)
  {
    exists j :: 0 <= j < |items| && items[j].ValidWrite() && items[j].Dst() == n && IsSha(items[j].sha)
      && body == RefContent(items[j].sha)
  }

  // start becomes now by writing names in tried: no file goes, and only those
  // names hold new content, each the object of its own entry.
  ghost predicate Grown(items: seq<Item>, start: Tree, now: Tree, tried: set<Name>)
  {
    && (forall n | n in start.files :: n in now.files)
    && (forall n | n in now.files ::
          (n in start.files && now.files[n] == start.files[n]) || (n in tried && StoredBy(items, n, now.files[n])))
    && (forall d | d in now.dirs && d !in start.dirs :: exists w :: w in tried && Above(d, w))
    && (forall d | d in start.dirs && d !in now.dirs :: exists w :: w in tried && Cleared(start, w, d))
  }

  // d was at or beneath w, which is not permanent and held no file.
  ghost predicate Cleared(start: Tree, w: Name, d: Name)
  {
    AboveOrEqual(w, d) && w !in PROTECTED && forall n | n in start.files :: !Above(w, n)
  }

  lemma GrownStep(items: seq<Item>, start: Tree, before: Tree, after: Tree, tried: set<Name>, i: nat)
    requires Grown(items, start, before, tried) && i < |items| && items[i].ValidWrite()
    requires Writes(before, after, items[i].Dst(), items[i].sha)
    ensures Grown(items, start, after, tried + {items[i].Dst()})
  {
    var tried', w := tried + {items[i].Dst()}, items[i].Dst();
    forall n | n in after.files
      ensures (n in start.files && after.files[n] == start.files[n])
        || (n in tried' && StoredBy(items, n, after.files[n]))
    {
      if n == w && after.files != before.files { assert StoredBy(items, n, after.files[n]); }
    }
    forall d | d in after.dirs && d !in start.dirs ensures exists v :: v in tried' && Above(d, v) {
      if d in before.dirs {
        var v :| v in tried && Above(d, v);
        assert v in tried' && Above(d, v);
      } else {
        assert w in tried' && Above(d, w);
      }
    }
    forall d | d in start.dirs && d !in after.dirs ensures exists v :: v in tried' && Cleared(start, v, d) {
      if d in before.dirs {
        assert w in tried' && Cleared(start, w, d);
      } else {
        var v :| v in tried && Cleared(start, v, d);
        assert v in tried' && Cleared(start, v, d);
      }
    }
  }

  // No create tried forms a pair with an advertised ref still standing.
  ghost predicate TriedArePairFree(c: Context, deleted: set<Name>, tried: set<Name>)
  {
    forall x, o | x in tried && x !in c.remote && o in Standing(c, deleted) :: !Pairs(c.keys, x, o)
  }

  // With the Mac rule, no update tried stands beside an advertised ref whose
  // delete was asked for and not done, unless its own delete was.
  ghost predicate UpdatesSpared(c: Context, b: Before, tried: set<Name>)
  {
    c.local.Some? ==> forall x, o | x in tried && x in c.remote && x !in b.deleted
      && o in Standing(c, b.deleted) && o in b.asked :: !Pairs(c.keys, x, o)
  }

  ghost predicate TriedUpdatesSpare(c: Context, items: seq<Item>, deleted: set<Name>, tried: set<Name>)
  {
    c.local.Some? ==> forall x, i | x in tried && x in c.remote && x !in deleted
      && 0 <= i < |items| && items[i].del && items[i].Dst() in c.remote && items[i].Dst() !in deleted ::
      !Pairs(c.keys, x, items[i].Dst())
  }

  // Neither what stands nor what the batch writes keeps x from being tried: for
  // a create, no other spelling; for an update, without the Mac rule, nothing,
  // and with it no spelling whose delete was asked for and not done.
  ghost predicate NothingInWay(c: Context, items: seq<Item>, b: Before, x: Name)
  {
    forall o | o in Standing(c, b.deleted) + Written(Elems(items)) && Pairs(c.keys, x, o) ::
      x in c.remote && (c.local.None? || x in b.deleted || o !in b.asked || o in b.deleted)
  }

  ghost predicate AllTried(c: Context, items: seq<Item>, b: Before, tried: set<Name>, n: nat)
    requires n <= |items|
  {
    forall i | 0 <= i < n && items[i].ValidWrite() && NothingInWay(c, items, b, items[i].Dst()) ::
      items[i].Dst() in tried
  }

  lemma NothingInWayPasses(c: Context, items: seq<Item>, b: Before, x: Name, live: set<Name>)
    requires NothingInWay(c, items, b, x) && live <= Standing(c, b.deleted) + Written(Elems(items))
    ensures Passes(c, x, live, b)
  {
  }

  lemma AllTriedStep(c: Context, items: seq<Item>, b: Before, live: set<Name>, tried: set<Name>, n: nat, ok: bool)
    requires n < |items| && AllTried(c, items, b, tried, n)
    requires live <= Standing(c, b.deleted) + Written(Elems(items)) && (Passes(c, items[n].Dst(), live, b) ==> ok)
    ensures AllTried(c, items, b, tried + (if ok then {items[n].Dst()} else {}), n + 1)
  {
    if NothingInWay(c, items, b, items[n].Dst()) { NothingInWayPasses(c, items, b, items[n].Dst(), live); }
  }

  lemma SparedTells(c: Context, items: seq<Item>, deleted: set<Name>, tried: set<Name>)
    requires UpdatesSpared(c, Before(deleted, Asked(items)), tried)
    ensures TriedUpdatesSpare(c, items, deleted, tried)
  {
    forall i | 0 <= i < |items| && items[i].del ensures items[i].Dst() in Asked(items) { }
  }

  lemma TriedStep(c: Context, deleted: set<Name>, live: set<Name>, tried: set<Name>, d: Name)
    requires TriedArePairFree(c, deleted, tried) && Standing(c, deleted) <= live
    requires d !in c.remote ==> forall o | o in live :: !Pairs(c.keys, d, o)
    ensures TriedArePairFree(c, deleted, tried + {d})
  {
  }

  // The results so far: deletes as phase 4 left them; writes below n done or
  // failed, done ones stored.
  ghost predicate WriteResult(t: Tree, e: Item, was: Result, res: Result, tried: set<Name>)
  {
    if e.ValidWrite() then
      && (res.Done? || res.Failed?)
      && (res.Done? ==> IsSha(e.sha) && e.Dst() in tried && e.Dst() in t.files && t.files[e.Dst()] == RefContent(e.sha))
    else res == was
  }

  ghost predicate WriteResults(t: Tree, items: seq<Item>, was: seq<Result>, results: seq<Result>, tried: set<Name>,
                               n: nat)
    requires n <= |items| == |was|
  {
    && |results| == |items|
    && (forall i | 0 <= i < n :: WriteResult(t, items[i], was[i], results[i], tried))
    && (forall i | n <= i < |items| :: results[i] == was[i])
  }

  lemma WriteResultsStep(c: Context, before: Tree, after: Tree, items: seq<Item>, was: seq<Result>,
                         results: seq<Result>, tried: set<Name>, tried': set<Name>, i: nat, res: Result)
    requires ItemsOk(c, items) && i < |items| == |was| && WriteResults(before, items, was, results, tried, i)
    requires tried <= tried'
    requires if items[i].ValidWrite() then Writes(before, after, items[i].Dst(), items[i].sha) else after == before
    requires WriteResult(after, items[i], was[i], res, tried')
    ensures WriteResults(after, items, was, results[i := res], tried', i + 1)
  {
    var results' := results[i := res];
    forall j | 0 <= j < i + 1 ensures WriteResult(after, items[j], was[j], results'[j], tried') {
      if j < i {
        assert WriteResult(before, items[j], was[j], results[j], tried);
        if items[j].ValidWrite() && items[i].ValidWrite() { assert items[j].Dst() != items[i].Dst(); }
      }
    }
  }

  // The names of the writes below n that succeeded.
  function DoneNames(items: seq<Item>, results: seq<Result>, n: nat): set<Name>
    requires n <= |items| && n <= |results|
  {
    set i | 0 <= i < n && items[i].ValidWrite() && results[i].Done? :: items[i].Dst()
  }

  lemma DoneNamesStep(items: seq<Item>, results: seq<Result>, n: nat, res: Result)
    requires n < |items| && n < |results|
    ensures DoneNames(items, results[n := res], n + 1) ==
              DoneNames(items, results, n) + (if items[n].ValidWrite() && res.Done? then {items[n].Dst()} else {})
  {
    assert forall j | 0 <= j < n :: results[n := res][j] == results[j];
  }

  // ---- when everything must succeed

  // A tree phase 5 can meet: the start's files with some writes landed, and
  // folders of the start or on the way to a write.
  ghost predicate Reachable(items: seq<Item>, start: Tree, t: Tree)
  {
    && (forall n | n in t.files :: n in start.files || n in Written(Elems(items)))
    && (forall d | d in t.dirs :: d in start.dirs || exists w :: w in Written(Elems(items)) && Above(d, w))
  }

  lemma GrownIsReachable(items: seq<Item>, start: Tree, t: Tree, tried: set<Name>)
    requires Grown(items, start, t, tried) && tried <= Written(Elems(items))
    ensures Reachable(items, start, t)
  {
    forall d | d in t.dirs && d !in start.dirs ensures exists w :: w in Written(Elems(items)) && Above(d, w) {
      var w :| w in tried && Above(d, w);
    }
  }

  // No write is in another's way, or in conflict with what stands or comes.
  ghost predicate Smooth(c: Context, items: seq<Item>, start: Tree, deleted: set<Name>)
  {
    forall i | 0 <= i < |items| && items[i].ValidWrite() ::
      && (forall t | Reachable(items, start, t) :: RoomFor(c.rules, t, items[i].Dst()))
      && (items[i].Dst() in c.remote && items[i].Dst() !in deleted <==> items[i].Dst() in start.files)
      && (items[i].create || c.local.Some? ==>
            forall o | o in Standing(c, deleted) + Written(Elems(items)) :: !Pairs(c.keys, items[i].Dst(), o))
  }

  // A write that nothing stops succeeds, unless it aims at a permanent folder
  // or its object name is malformed.
  ghost predicate AllWritten(items: seq<Item>, results: seq<Result>, n: nat)
    requires n <= |items| && n <= |results|
  {
    forall i | 0 <= i < n && items[i].ValidWrite() ::
      results[i].Done? <==> IsSha(items[i].sha) && items[i].Dst() !in PROTECTED
  }

  // Everything the loop keeps.
  ghost predicate PhaseFive(c: Context, items: seq<Item>, b: Before, start: Tree, now: Tree,
                            was: seq<Result>, results: seq<Result>, live: set<Name>, tried: set<Name>, n: nat)
    requires n <= |items| == |was|
  {
    && WellFormed(now) && Grown(items, start, now, tried) && tried <= Written(Elems(items))
    && TriedArePairFree(c, b.deleted, tried) && UpdatesSpared(c, b, tried)
    && WriteResults(now, items, was, results, tried, n) && AllTried(c, items, b, tried, n)
    && live == Standing(c, b.deleted) + DoneNames(items, results, n)
  }

  ghost predicate Progress(items: seq<Item>, start: Tree, now: Tree, results: seq<Result>, n: nat)
    requires n <= |items| == |results|
  {
    AllWritten(items, results, n) && now.files.Keys == start.files.Keys + DoneNames(items, results, n)
  }

  lemma LiveIsCovered(c: Context, items: seq<Item>, b: Before, start: Tree, now: Tree,
                      was: seq<Result>, results: seq<Result>, live: set<Name>, tried: set<Name>, n: nat)
    requires n <= |items| == |was| && PhaseFive(c, items, b, start, now, was, results, live, tried, n)
    ensures live <= Standing(c, b.deleted) + Written(Elems(items))
  {
    forall x | x in DoneNames(items, results, n) ensures x in Written(Elems(items)) {
      var i :| 0 <= i < n && items[i].ValidWrite() && results[i].Done? && items[i].Dst() == x;
      assert items[i] in Elems(items);
    }
  }

  // One write, seen from the loop.
  lemma PhaseFiveWrite(c: Context, items: seq<Item>, b: Before, start: Tree, before: Tree, after: Tree,
                       was: seq<Result>, results: seq<Result>, live: set<Name>, tried: set<Name>, n: nat, res: Result,
                       ok: bool)
    requires n < |items| == |was| && PhaseFive(c, items, b, start, before, was, results, live, tried, n)
    requires ItemsOk(c, items) && items[n].ValidWrite() && WellFormed(after)
    requires Writes(before, after, items[n].Dst(), items[n].sha) && (!ok ==> after == before)
    requires ok ==> Passes(c, items[n].Dst(), live, b)
    requires WriteResult(after, items[n], was[n], res, {items[n].Dst()}) && (res.Done? ==> ok)
    requires Passes(c, items[n].Dst(), live, b) ==> ok
    ensures PhaseFive(c, items, b, start, after, was, results[n := res],
                      live + (if res.Done? then {items[n].Dst()} else {}),
                      tried + (if ok then {items[n].Dst()} else {}), n + 1)
  {
    var d := items[n].Dst();
    var tried' := tried + (if ok then {d} else {});
    assert items[n] in Elems(items);
    TriedGrow(c, items, b, start, before, after, live, tried, n, ok);
    LiveIsCovered(c, items, b, start, before, was, results, live, tried, n);
    AllTriedStep(c, items, b, live, tried, n, ok);
    WriteResultsStep(c, before, after, items, was, results, tried, tried', n, res);
    DoneNamesStep(items, results, n, res);
  }

  // The tree and the names tried, after one write.
  lemma TriedGrow(c: Context, items: seq<Item>, b: Before, start: Tree, before: Tree, after: Tree,
                  live: set<Name>, tried: set<Name>, n: nat, ok: bool)
    requires n < |items| && items[n].ValidWrite() && Grown(items, start, before, tried)
      && TriedArePairFree(c, b.deleted, tried) && UpdatesSpared(c, b, tried)
    requires Standing(c, b.deleted) <= live
    requires Writes(before, after, items[n].Dst(), items[n].sha) && (!ok ==> after == before)
    requires ok ==> Passes(c, items[n].Dst(), live, b)
    ensures var tried' := tried + (if ok then {items[n].Dst()} else {});
      Grown(items, start, after, tried') && TriedArePairFree(c, b.deleted, tried') && UpdatesSpared(c, b, tried')
  {
    if ok {
      GrownStep(items, start, before, after, tried, n);
      TriedStep(c, b.deleted, live, tried, items[n].Dst());
    } else {
      assert tried + {} == tried;
    }
  }

  lemma PhaseFiveSkip(c: Context, items: seq<Item>, b: Before, start: Tree, now: Tree,
                      was: seq<Result>, results: seq<Result>, live: set<Name>, tried: set<Name>, n: nat)
    requires n < |items| == |was| && PhaseFive(c, items, b, start, now, was, results, live, tried, n)
    requires ItemsOk(c, items) && !items[n].ValidWrite()
    ensures PhaseFive(c, items, b, start, now, was, results, live, tried, n + 1)
  {
    WriteResultsStep(c, now, now, items, was, results, tried, tried, n, results[n]);
    DoneNamesStep(items, results, n, results[n]);
    assert results[n := results[n]] == results;
  }

  // Under a smooth batch the write below finds nothing in its way.
  lemma SmoothHere(c: Context, items: seq<Item>, b: Before, start: Tree, now: Tree,
                   was: seq<Result>, results: seq<Result>, live: set<Name>, tried: set<Name>, n: nat)
    requires n < |items| == |was| && PhaseFive(c, items, b, start, now, was, results, live, tried, n)
    requires ItemsOk(c, items) && items[n].ValidWrite()
    requires Smooth(c, items, start, b.deleted) && Progress(items, start, now, results, n)
    ensures RoomFor(c.rules, now, items[n].Dst())
    ensures items[n].Dst() in c.remote && items[n].Dst() !in b.deleted <==> items[n].Dst() in now.files
    ensures items[n].Dst() !in c.remote || c.local.Some? ==> forall o | o in live :: !Pairs(c.keys, items[n].Dst(), o)
  {
    GrownIsReachable(items, start, now, tried);
    LiveIsCovered(c, items, b, start, now, was, results, live, tried, n);
    NotYetDone(c, items, results, n);
  }

  lemma NotYetDone(c: Context, items: seq<Item>, results: seq<Result>, n: nat)
    requires n < |items| == |results| && ItemsOk(c, items) && items[n].ValidWrite()
    ensures items[n].Dst() !in DoneNames(items, results, n)
  {
  }

  lemma ProgressStep(items: seq<Item>, start: Tree, before: Tree, after: Tree, results: seq<Result>, n: nat,
                     res: Result)
    requires n < |items| == |results| && Progress(items, start, before, results, n) && items[n].ValidWrite()
    requires res.Done? <==> IsSha(items[n].sha) && items[n].Dst() !in PROTECTED
    requires after.files
      == (if res.Done? then before.files[items[n].Dst() := RefContent(items[n].sha)] else before.files)
    ensures Progress(items, start, after, results[n := res], n + 1)
  {
    DoneNamesStep(items, results, n, res);
    assert forall i | 0 <= i < n :: results[n := res][i] == results[i];
  }

  lemma ProgressSkip(items: seq<Item>, start: Tree, now: Tree, results: seq<Result>, n: nat)
    requires n < |items| == |results| && Progress(items, start, now, results, n) && !items[n].ValidWrite()
    ensures Progress(items, start, now, results, n + 1)
  {
    DoneNamesStep(items, results, n, results[n]);
    assert results[n := results[n]] == results;
  }

  // One valid write, with the state it updates.
  method WriteStep(r: Store, c: Context, items: seq<Item>, b: Before, ghost start: Tree, ghost was: seq<Result>,
                   results: seq<Result>, live: set<Name>, tried: set<Name>, n: nat)
    returns (results': seq<Result>, live': set<Name>, tried': set<Name>)
    requires ContextOk(c) && ItemsOk(c, items) && n < |items| == |was| && items[n].ValidWrite()
    requires PhaseFive(c, items, b, start, r.T(), was, results, live, tried, n)
    modifies r`files, r`dirs, r`listed
    ensures ListedIfClean(c.rules, items[n].Dst(), old(r.listed), r.listed)
    ensures PhaseFive(c, items, b, start, r.T(), was, results', live', tried', n + 1)
    ensures !r.faulty && Smooth(c, items, start, b.deleted) && Progress(items, start, old(r.T()), results, n) ==>
              Progress(items, start, r.T(), results', n + 1)
  {
    ghost var now := r.T();
    ghost var smooth := !r.faulty && Smooth(c, items, start, b.deleted) && Progress(items, start, now, results, n);
    if smooth { SmoothHere(c, items, b, start, now, was, results, live, tried, n); }
    var res, ok := WriteEntry(r, c, items[n], live, b);
    PhaseFiveWrite(c, items, b, start, now, r.T(), was, results, live, tried, n, res, ok);
    if smooth { ProgressStep(items, start, now, r.T(), results, n, res); }
    results' := results[n := res];
    live' := live + (if res.Done? then {items[n].Dst()} else {});
    tried' := tried + (if ok then {items[n].Dst()} else {});
  }

  // Every name still to be written is clean.
  ghost predicate WritesAreClean(rules: Rules, items: seq<Item>)
  {
    forall i | 0 <= i < |items| && items[i].ValidWrite() :: Clean(rules, items[i].Dst())
  }

  ghost predicate ListedForWrites(rules: Rules, items: seq<Item>, before: seq<Name>, now: seq<Name>)
  {
    WritesAreClean(rules, items) ==> ListedClean(rules, before, now)
  }

  lemma ListedForOneMore(rules: Rules, items: seq<Item>, i: nat, a: seq<Name>, b: seq<Name>, d: seq<Name>)
    requires i < |items| && items[i].ValidWrite() && ListedForWrites(rules, items, a, b)
    requires ListedIfClean(rules, items[i].Dst(), b, d)
    ensures ListedForWrites(rules, items, a, d)
  {
    if WritesAreClean(rules, items) { ListedCleanThen(rules, a, b, d); }
  }

  method WriteRefs(r: Store, c: Context, items: seq<Item>, was: seq<Result>)
    returns (results: seq<Result>, tried: set<Name>)
    requires WellFormed(r.T()) && ContextOk(c) && ItemsOk(c, items) && |was| == |items|
    modifies r`files, r`dirs, r`listed
    ensures WellFormed(r.T()) && Grown(items, old(r.T()), r.T(), tried) && tried <= Written(Elems(items))
    ensures TriedArePairFree(c, Committed4(items, was), tried)
    ensures TriedUpdatesSpare(c, items, Committed4(items, was), tried)
    ensures AllTried(c, items, Before(Committed4(items, was), Asked(items)), tried, |items|)
    ensures WriteResults(r.T(), items, was, results, tried, |items|)
    ensures ListedForWrites(c.rules, items, old(r.listed), r.listed)
    ensures !r.faulty && Smooth(c, items, old(r.T()), Committed4(items, was)) ==>
      Progress(items, old(r.T()), r.T(), results, |items|)
  {
    ghost var start := r.T();
    var b := Before(Committed4(items, was), Asked(items));
    var live := Standing(c, b.deleted);
    results, tried := was, {};
    StartPhaseFive(c, items, b, start, was);
    var i := 0;
    while i < |items|
      invariant 0 <= i <= |items| && PhaseFive(c, items, b, start, r.T(), was, results, live, tried, i)
      invariant ListedForWrites(c.rules, items, old(r.listed), r.listed)
      invariant !r.faulty && Smooth(c, items, start, b.deleted) ==> Progress(items, start, r.T(), results, i)
    {
      if items[i].ValidWrite() {
        ghost var listed := r.listed;
        results, live, tried := WriteStep(r, c, items, b, start, was, results, live, tried, i);
        ListedForOneMore(c.rules, items, i, old(r.listed), listed, r.listed);
      } else {
        PhaseFiveSkip(c, items, b, start, r.T(), was, results, live, tried, i);
        if Progress(items, start, r.T(), results, i) { ProgressSkip(items, start, r.T(), results, i); }
      }
      i := i + 1;
    }
    SparedTells(c, items, b.deleted, tried);
  }

  lemma StartPhaseFive(c: Context, items: seq<Item>, b: Before, start: Tree, was: seq<Result>)
    requires |was| == |items| && WellFormed(start)
    ensures PhaseFive(c, items, b, start, start, was, was, Standing(c, b.deleted), {}, 0)
    ensures Progress(items, start, start, was, 0)
  {
    assert DoneNames(items, was, 0) == {};
  }
}
