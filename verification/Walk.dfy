/** What git answers about reachability (gitcmd.go: RevListMissing,
    ConnectivityOK, RevListNewObjects). Each asks for what wants reach and the
    local refs do not, in a walk that looks inside stored objects only. */
module Walk {
  import opened Objects

  // A path that avoids hidden objects, all of whose objects but the last are in
  // the store.
  ghost predicate Through(g: Graph, present: set<Oid>, hidden: set<Oid>, p: seq<Oid>)
  {
    && IsPath(g, p) && (forall i | 0 <= i < |p| - 1 :: p[i] in present)
    && forall i | 0 <= i < |p| :: p[i] !in hidden
  }

  ghost predicate MetBy(g: Graph, present: set<Oid>, hidden: set<Oid>, starts: set<Oid>, p: seq<Oid>, o: Oid)
  {
    Through(g, present, hidden, p) && p[0] in starts && p[|p| - 1] == o
  }

  // A walk from starts comes to o.
  ghost predicate Met(g: Graph, present: set<Oid>, hidden: set<Oid>, starts: set<Oid>, o: Oid)
  {
    exists p :: MetBy(g, present, hidden, starts, p, o)
  }

  // o is on the missing frontier.
  ghost predicate Missing(g: Graph, present: set<Oid>, hidden: set<Oid>, starts: set<Oid>, o: Oid)
  {
    Met(g, present, hidden, starts, o) && o !in present
  }

  ghost predicate ClosureIn(g: Graph, present: set<Oid>, starts: set<Oid>)
  {
    forall o | ReachedFrom(g, starts, o) :: o in present
  }

  // Everything hidden is stored, and so is what it names, hidden as well.
  ghost predicate Settled(g: Graph, present: set<Oid>, hidden: set<Oid>)
  {
    forall o | o in hidden :: o in present && g(o) <= hidden
  }

  lemma MetStart(g: Graph, present: set<Oid>, hidden: set<Oid>, starts: set<Oid>, o: Oid)
    requires o in starts && o !in hidden
    ensures Met(g, present, hidden, starts, o)
  {
    assert MetBy(g, present, hidden, starts, [o], o);
  }

  lemma MetKid(g: Graph, present: set<Oid>, hidden: set<Oid>, starts: set<Oid>, o: Oid, k: Oid)
    requires Met(g, present, hidden, starts, o) && o in present && k in g(o) && k !in hidden
    ensures Met(g, present, hidden, starts, k)
  {
    var p :| MetBy(g, present, hidden, starts, p, o);
    assert MetBy(g, present, hidden, starts, p + [k], k);
  }

  lemma MetIsReached(g: Graph, present: set<Oid>, hidden: set<Oid>, starts: set<Oid>, o: Oid)
    requires Met(g, present, hidden, starts, o)
    ensures ReachedFrom(g, starts, o) && o !in hidden
  {
    var p :| MetBy(g, present, hidden, starts, p, o);
    assert PathFrom(g, p, p[0], o);
  }

  // Once hidden, a path stays hidden.
  lemma {:induction false} HiddenTail(g: Graph, present: set<Oid>, hidden: set<Oid>, p: seq<Oid>, i: nat, j: nat)
    requires Settled(g, present, hidden) && IsPath(g, p) && i <= j < |p| && p[i] in hidden
    ensures p[j] in hidden
    decreases j
  {
    if i < j { HiddenTail(g, present, hidden, p, i, j - 1); }
  }

  // The frontier is empty exactly when the closure is in the store, whatever
  // settled objects the walk passes over.
  lemma {:induction false} NothingMissingIffClosed(g: Graph, present: set<Oid>, hidden: set<Oid>, starts: set<Oid>)
    requires Settled(g, present, hidden)
    ensures (forall o :: !Missing(g, present, hidden, starts, o)) <==> ClosureIn(g, present, starts)
  {
    if ClosureIn(g, present, starts) {
      forall o ensures !Missing(g, present, hidden, starts, o) {
        if Met(g, present, hidden, starts, o) { MetIsReached(g, present, hidden, starts, o); }
      }
    } else {
      var o :| ReachedFrom(g, starts, o) && o !in present;
      var a :| a in starts && Reaches(g, a, o);
      var p :| PathFrom(g, p, a, o);
      forall i | 0 <= i < |p| ensures p[i] !in hidden {
        if p[i] in hidden { HiddenTail(g, present, hidden, p, i, |p| - 1); }
      }
      FirstGap(g, present, hidden, starts, p, 0);
    }
  }

  // Along a path that ends outside the store, the first absent object is on
  // the frontier.
  lemma {:induction false} FirstGap(g: Graph, present: set<Oid>, hidden: set<Oid>, starts: set<Oid>, p: seq<Oid>,
                                    n: nat)
    requires IsPath(g, p) && p[0] in starts && p[|p| - 1] !in present && n < |p|
    requires forall i | 0 <= i < |p| :: p[i] !in hidden
    requires forall i | 0 <= i < n :: p[i] in present
    ensures exists o :: Missing(g, present, hidden, starts, o)
    decreases |p| - n
  {
    if p[n] in present {
      FirstGap(g, present, hidden, starts, p, n + 1);
    } else {
      assert MetBy(g, present, hidden, starts, p[..n + 1], p[n]);
      assert Missing(g, present, hidden, starts, p[n]);
    }
  }

  // With the closure in the store the walk meets all that is reached and not
  // hidden.
  lemma ClosedMetIsReached(g: Graph, present: set<Oid>, hidden: set<Oid>, starts: set<Oid>, o: Oid)
    requires ClosureIn(g, present, starts) && Settled(g, present, hidden)
    ensures Met(g, present, hidden, starts, o) <==> ReachedFrom(g, starts, o) && o !in hidden
  {
    if Met(g, present, hidden, starts, o) { MetIsReached(g, present, hidden, starts, o); }
    if ReachedFrom(g, starts, o) && o !in hidden {
      var a :| a in starts && Reaches(g, a, o);
      var p :| PathFrom(g, p, a, o);
      forall i | 0 <= i < |p| ensures p[i] in present && p[i] !in hidden {
        assert PathFrom(g, p[..i + 1], a, p[i]);
        assert Reaches(g, a, p[i]);
        if p[i] in hidden { HiddenTail(g, present, hidden, p, i, |p| - 1); }
      }
      assert MetBy(g, present, hidden, starts, p, o);
    }
  }

  // ---- the walk

  // What the walk met so far is kept apart, and everything a seen object names
  // is met.
  ghost predicate Walking(g: Graph, present: set<Oid>, hidden: set<Oid>, starts: set<Oid>,
                          seen: set<Oid>, missing: seq<Oid>, todo: set<Oid>)
  {
    && seen <= present && todo !! seen && (forall o | o in missing :: o !in present && o !in todo)
    && (forall o | o in seen || o in missing || o in todo :: Met(g, present, hidden, starts, o))
    && (forall o | o in starts && o !in hidden :: o in seen || o in missing || o in todo)
    && (forall o, k | o in seen && k in g(o) && k !in hidden :: k in seen || k in missing || k in todo)
  }

  // What o names that the walk has not met and may.
  function NewKids(g: Graph, hidden: set<Oid>, seen: set<Oid>, missing: seq<Oid>, o: Oid): set<Oid>
  {
    set k | k in g(o) && k != o && k !in hidden && k !in seen && k !in missing
  }

  lemma WalkInto(g: Graph, present: set<Oid>, hidden: set<Oid>, starts: set<Oid>,
                 seen: set<Oid>, missing: seq<Oid>, todo: set<Oid>, o: Oid)
    requires Walking(g, present, hidden, starts, seen, missing, todo) && o in todo && o in present
    ensures Walking(g, present, hidden, starts, seen + {o}, missing, todo - {o} + NewKids(g, hidden, seen, missing, o))
  {
    forall k | k in NewKids(g, hidden, seen, missing, o) ensures Met(g, present, hidden, starts, k) {
      MetKid(g, present, hidden, starts, o, k);
    }
  }

  lemma WalkPast(g: Graph, present: set<Oid>, hidden: set<Oid>, starts: set<Oid>,
                 seen: set<Oid>, missing: seq<Oid>, todo: set<Oid>, o: Oid)
    requires Walking(g, present, hidden, starts, seen, missing, todo) && o in todo && o !in present
    ensures Walking(g, present, hidden, starts, seen, missing + [o], todo - {o})
  {
  }

  lemma {:induction false} PathAbsorbed(g: Graph, present: set<Oid>, hidden: set<Oid>, starts: set<Oid>,
                                        seen: set<Oid>, missing: seq<Oid>, p: seq<Oid>, n: nat)
    requires Walking(g, present, hidden, starts, seen, missing, {})
    requires Through(g, present, hidden, p) && p[0] in starts && n < |p|
    ensures p[n] in seen || p[n] in missing
  {
    if n > 0 { PathAbsorbed(g, present, hidden, starts, seen, missing, p, n - 1); }
  }

  lemma WalkDone(g: Graph, present: set<Oid>, hidden: set<Oid>, starts: set<Oid>, seen: set<Oid>, missing: seq<Oid>,
                 o: Oid)
    requires Walking(g, present, hidden, starts, seen, missing, {})
    ensures Met(g, present, hidden, starts, o) <==> o in seen || o in missing
  {
    if Met(g, present, hidden, starts, o) {
      var p :| MetBy(g, present, hidden, starts, p, o);
      PathAbsorbed(g, present, hidden, starts, seen, missing, p, |p| - 1);
    }
  }

  method Explore(g: Graph, present: set<Oid>, hidden: set<Oid>, starts: set<Oid>)
    returns (seen: set<Oid>, missing: seq<Oid>)
    ensures forall o :: o in seen <==> Met(g, present, hidden, starts, o) && o in present
    ensures forall o :: o in missing <==> Missing(g, present, hidden, starts, o)
  {
    seen, missing := {}, [];
    var todo := starts - hidden;
    forall o | o in todo ensures Met(g, present, hidden, starts, o) { MetStart(g, present, hidden, starts, o); }
    while todo != {}
      invariant Walking(g, present, hidden, starts, seen, missing, todo)
      decreases present - seen, todo
    {
      var o :| o in todo;
      if o in present {
        WalkInto(g, present, hidden, starts, seen, missing, todo, o);
        todo := todo - {o} + NewKids(g, hidden, seen, missing, o);
        assert o in present - seen;
        seen := seen + {o};
      } else {
        WalkPast(g, present, hidden, starts, seen, missing, todo, o);
        todo := todo - {o};
        missing := missing + [o];
      }
    }
    forall o ensures Met(g, present, hidden, starts, o) <==> o in seen || o in missing {
      WalkDone(g, present, hidden, starts, seen, missing, o);
    }
  }

  // ---- wants, less what the local refs reach

  // What git marks as not wanted: all it meets from the local refs.
  ghost predicate Marks(g: Graph, present: set<Oid>, tips: set<Oid>, hidden: set<Oid>)
  {
    forall o :: o in hidden <==> Met(g, present, {}, tips, o) && o in present
  }

  lemma MarksSettled(g: Graph, present: set<Oid>, tips: set<Oid>, hidden: set<Oid>)
    requires Marks(g, present, tips, hidden) && ClosureIn(g, present, tips)
    ensures Settled(g, present, hidden) && forall o :: o in hidden <==> ReachedFrom(g, tips, o)
  {
    forall o ensures o in hidden <==> ReachedFrom(g, tips, o) { ClosedMetIsReached(g, present, {}, tips, o); }
    forall o, k | o in hidden && k in g(o) ensures k in hidden {
      MetKid(g, present, {}, tips, o, k);
      MetIsReached(g, present, {}, tips, k);
    }
  }

  // rev-list --objects wants --not --all: what is there, and what is missing.
  method RevList(g: Graph, present: set<Oid>, wants: set<Oid>, tips: set<Oid>)
    returns (listed: set<Oid>, missing: seq<Oid>, ghost hidden: set<Oid>)
    ensures Marks(g, present, tips, hidden)
    ensures forall o :: o in listed <==> Met(g, present, hidden, wants, o) && o in present
    ensures forall o :: o in missing <==> Missing(g, present, hidden, wants, o)
    ensures ClosureIn(g, present, tips) ==> (missing == [] <==> ClosureIn(g, present, wants))
    ensures ClosureIn(g, present, tips) && ClosureIn(g, present, wants) ==>
      forall o :: o in listed <==> ReachedFrom(g, wants, o) && !ReachedFrom(g, tips, o)
  {
    var marked, gaps := Explore(g, present, {}, tips);
    hidden := marked;
    listed, missing := Explore(g, present, marked, wants);
    if ClosureIn(g, present, tips) {
      MarksSettled(g, present, tips, hidden);
      NothingMissingIffClosed(g, present, hidden, wants);
      assert missing != [] ==> Missing(g, present, hidden, wants, missing[0]);
      if ClosureIn(g, present, wants) {
        forall o ensures o in listed <==> ReachedFrom(g, wants, o) && !ReachedFrom(g, tips, o) {
          ClosedMetIsReached(g, present, hidden, wants, o);
        }
      }
    }
  }
}
