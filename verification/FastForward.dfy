/** What no push takes away: a branch that nobody forces or deletes only ever
    moves to commits that reach its old ones, and any other ref stays (push.go,
    phase 2's namespace rules, over whole pushes and runs of them). */
module FastForward {
  import opened Names
  import opened Wrappers
  import opened Keys
  import opened Batch
  import opened Phase2
  import opened Judgement
  import opened Remote
  import opened Refs
  import opened Execution
  import opened Objects
  import opened Packs
  import opened Push
  import opened PushTheorems
  import opened History

  // An ancestor, git says, is reached from its descendant.
  ghost predicate Honest(git: Git, g: Graph)
  {
    forall a, b | git.ancestor(a, b) == Some(true) :: Reaches(g, b, a)
  }

  ghost predicate Forces(ups: seq<Update>, n: Name)
  {
    exists u :: u in ups && u.src != [] && u.dst == n && u.force
  }

  ghost predicate Deletes(ups: seq<Update>, n: Name)
  {
    exists u :: u in ups && u.src == [] && u.dst == n
  }

  lemma ReachesItself(g: Graph, a: Oid)
    ensures Reaches(g, a, a)
  {
    assert PathFrom(g, [a], a, a);
  }

  lemma ReachesOn(g: Graph, a: Oid, b: Oid, d: Oid)
    requires Reaches(g, a, b) && Reaches(g, b, d)
    ensures Reaches(g, a, d)
  {
    var p :| PathFrom(g, p, a, b);
    var q :| PathFrom(g, q, b, d);
    var r := p + q[1..];
    forall i | 0 <= i < |r| - 1 ensures r[i + 1] in g(r[i]) {
      if i >= |p| - 1 { assert r[i] == q[i - |p| + 1] && r[i + 1] == q[i - |p| + 2]; }
    }
    assert PathFrom(g, r, a, d);
  }

  // items is what phase 2 makes of ups, or that with the writes failed.
  ghost predicate DecidedFrom(c: Context, ups: seq<Update>, items: seq<Item>)
  {
    items == Decide(c, ups) || items == FailWrites(Decide(c, ups))
  }

  // A write still valid is one validation approved.
  lemma WriteIsApproved(c: Context, ups: seq<Update>, items: seq<Item>, j: nat)
    requires ContextOk(c) && DecidedFrom(c, ups, items) && j < |items| && items[j].v.Valid?
    ensures j < |ups| && items[j] == Validate(c, ups)[j] && items[j].u == ups[j]
  {
    DecideOk(c, ups);
    UnrefusedIsSame(Validate(c, ups), Decide(c, ups), j);
    ValidateOk(c, ups);
  }

  // What one write may do to a ref that is there.
  ghost predicate MayBecome(c: Context, n: Name, was: Sha, now: Sha)
  {
    if REFS_HEADS + [SLASH] <= n then
      now == was || (c.git.typeOf(now) == Some(Commit) && c.git.ancestor(was, now) == Some(true))
    else now == was
  }

  // A ref advertised before and after a push that did not force it has moved
  // forward, if it is a branch, and not at all, if it is not.
  lemma UnforcedMoves(c: Context, ups: seq<Update>, items: seq<Item>, results: seq<Result>, t0: Tree, t1: Tree,
                      t2: Tree, tried: set<Name>, after: Scan, n: Name)
    requires Ran(c, items, results, t0, t1, t2, tried, after) && DecidedFrom(c, ups, items)
    requires n in c.remote && n in after.refs && !Forces(ups, n)
    ensures MayBecome(c, n, c.remote[n], after.refs[n])
  {
    if n !in tried {
      OldRefStands(c, items, results, t0, t1, t2, tried, after, n);
    } else {
      OnlyOwnChanges(c, items, results, t0, t1, t2, tried, after, n);
      if !(n in t0.files && t0.files[n] == t2.files[n]) {
        var j :| 0 <= j < |items| && items[j].ValidWrite() && items[j].Dst() == n && IsSha(items[j].sha)
          && t2.files[n] == RefContent(items[j].sha);
        RefContentRoundTrip(items[j].sha);
        WriteIsApproved(c, ups, items, j);
        ApprovedIsUnforced(c, ups, j);
      }
    }
  }

  lemma ApprovedIsUnforced(c: Context, ups: seq<Update>, j: nat)
    requires j < |ups| && Validate(c, ups)[j].ValidWrite() && !Forces(ups, ups[j].dst) && ups[j].dst in c.remote
    ensures MayBecome(c, ups[j].dst, c.remote[ups[j].dst], Validate(c, ups)[j].sha)
  {
    JudgeEntryOk(c, ups, ups[j]);
    ApprovedWriteIff(c, ups, j);
    assert ups[j] in ups;
  }

  // So no push drops a commit from a branch it does not force.
  lemma BranchAdvances(c: Context, ups: seq<Update>, items: seq<Item>, results: seq<Result>, t0: Tree, t1: Tree,
                       t2: Tree, tried: set<Name>, after: Scan, g: Graph, n: Name)
    requires Ran(c, items, results, t0, t1, t2, tried, after) && DecidedFrom(c, ups, items) && Honest(c.git, g)
    requires n in c.remote && n in after.refs && !Forces(ups, n)
    ensures Reaches(g, after.refs[n], c.remote[n])
    ensures !(REFS_HEADS + [SLASH] <= n) ==> after.refs[n] == c.remote[n]
  {
    UnforcedMoves(c, ups, items, results, t0, t1, t2, tried, after, n);
    ReachesItself(g, c.remote[n]);
  }

  // ---- over runs

  function ObjectAt(a: State, n: Name): Sha
    requires n in a.t.files && ParseRef(a.t.files[n]).Some?
  {
    ParseRef(a.t.files[n]).value
  }

  lemma NotDeletedIsThere(c: Context, ups: seq<Update>, items: seq<Item>, results: seq<Result>, t0: Tree, t1: Tree,
                          t2: Tree, tried: set<Name>, after: Scan, n: Name)
    requires Ran(c, items, results, t0, t1, t2, tried, after) && DecidedFrom(c, ups, items)
    requires n in t0.files && !Deletes(ups, n)
    ensures n in t2.files
  {
    OnlyOwnChanges(c, items, results, t0, t1, t2, tried, after, n);
    if n in Deleted(Elems(items)) { DeletedIsAsked(c, ups, items, n); }
  }

  lemma DeletedIsAsked(c: Context, ups: seq<Update>, items: seq<Item>, n: Name)
    requires ContextOk(c) && DecidedFrom(c, ups, items) && n in Deleted(Elems(items))
    ensures Deletes(ups, n)
  {
    var e :| e in Elems(items) && e.ValidDelete() && e.Dst() == n;
    var j :| 0 <= j < |items| && items[j] == e;
    WriteIsApproved(c, ups, items, j);
    DeleteIsAsked(c, ups, j);
  }

  // A file a push wrote over holds a ref still.
  lemma ParsesStill(c: Context, items: seq<Item>, results: seq<Result>, t0: Tree, t1: Tree, t2: Tree, tried: set<Name>,
                    after: Scan, n: Name)
    requires Ran(c, items, results, t0, t1, t2, tried, after) && n in t0.files && ParseRef(t0.files[n]).Some?
    ensures n in t2.files ==> ParseRef(t2.files[n]).Some?
  {
    OnlyOwnChanges(c, items, results, t0, t1, t2, tried, after, n);
    if n in t2.files && t0.files[n] != t2.files[n] {
      var j :| 0 <= j < |items| && items[j].ValidWrite() && items[j].Dst() == n && IsSha(items[j].sha)
        && t2.files[n] == RefContent(items[j].sha);
      RefContentRoundTrip(items[j].sha);
    }
  }

  lemma NotDeletedStays(c: Context, ups: seq<Update>, items: seq<Item>, results: seq<Result>, t0: Tree, t1: Tree,
                        t2: Tree, tried: set<Name>, after: Scan, n: Name)
    requires Ran(c, items, results, t0, t1, t2, tried, after) && DecidedFrom(c, ups, items)
    requires n in c.remote && !Deletes(ups, n)
    ensures n in after.refs
  {
    assert Above(REFS, n) && Advertised(c.rules, t0, n);
    NotDeletedIsThere(c, ups, items, results, t0, t1, t2, tried, after, n);
    ParsesStill(c, items, results, t0, t1, t2, tried, after, n);
  }

  lemma DeleteIsAsked(c: Context, ups: seq<Update>, j: nat)
    requires j < |ups| && Validate(c, ups)[j].del
    ensures Deletes(ups, ups[j].dst)
  {
    assert Validate(c, ups)[j] == JudgeEntry(c, ups, ups[j]);
    assert ups[j] in ups;
  }

  lemma StepAdvances(w: Transport, k: Keys, rules: Rules, g: Graph, x: Input, a: State, b: State, n: Name)
    requires PushStep(w, k, rules, g, x, a, b) && Honest(x.git, g) && Listed(rules, a.t, n)
    requires !Forces(x.ups, n) && !Deletes(x.ups, n)
    ensures Listed(rules, b.t, n) && Reaches(g, ObjectAt(b, n), ObjectAt(a, n))
    ensures !(REFS_HEADS + [SLASH] <= n) ==> ObjectAt(b, n) == ObjectAt(a, n)
  {
    if a == b {
      ReachesItself(g, ObjectAt(a, n));
    } else {
      var d :| Pushes(w, k, rules, g, x, d, a, b);
      var after := Scan(RefsIn(rules, b.t), []);
      assert ListsRefs(rules, b.t, after.refs);
      NotDeletedStays(d.c, x.ups, d.items, d.results, a.t, d.t1, b.t, d.tried, after, n);
      BranchAdvances(d.c, x.ups, d.items, d.results, a.t, d.t1, b.t, d.tried, after, g, n);
    }
  }

  // Between two moments of a run whose pushes neither force nor delete n.
  ghost predicate LeftAlone(inputs: seq<Input>, i: nat, j: nat, n: Name)
    requires i <= j <= |inputs|
  {
    forall m | i <= m < j :: !Forces(inputs[m].ups, n) && !Deletes(inputs[m].ups, n)
  }

  // Whatever failed on the way and whoever pushed, a ref left alone is still
  // advertised: a branch at a commit that reaches every one it was at before,
  // and any other ref where it was.
  lemma {:induction false} RefsOnlyAdvance(w: Transport, k: Keys, rules: Rules, g: Graph, inputs: seq<Input>,
                                           past: seq<State>, i: nat, j: nat, n: Name)
    requires IsRun(w, k, rules, g, inputs, past) && i <= j <= |inputs| && LeftAlone(inputs, i, j, n)
    requires forall m | i <= m < j :: Honest(inputs[m].git, g)
    requires Listed(rules, past[i].t, n)
    ensures Listed(rules, past[j].t, n) && Reaches(g, ObjectAt(past[j], n), ObjectAt(past[i], n))
    ensures !(REFS_HEADS + [SLASH] <= n) ==> ObjectAt(past[j], n) == ObjectAt(past[i], n)
    decreases j
  {
    if i == j {
      ReachesItself(g, ObjectAt(past[i], n));
    } else {
      RefsOnlyAdvance(w, k, rules, g, inputs, past, i, j - 1, n);
      assert StepAt(w, k, rules, g, inputs, past, j - 1);
      StepAdvances(w, k, rules, g, inputs[j - 1], past[j - 1], past[j], n);
      ReachesOn(g, ObjectAt(past[j], n), ObjectAt(past[j - 1], n), ObjectAt(past[i], n));
    }
  }
}
