/** Any number of pushes, one after another, by any machines: each scans the
    remote it finds and pushes its own batch, and any of them may fail half
    way. */
module History {
  import opened Names
  import opened Wrappers
  import opened Keys
  import opened CaseConflicts
  import opened Batch
  import opened Phase2
  import opened Remote
  import opened Refs
  import Healing
  import opened Execution
  import opened Objects
  import opened Packs
  import opened Push
  import opened PushTheorems

  // What one push brings: its repository, HEAD as it read it, its local side,
  // what it packs, and its batch.
  datatype Input = Input(git: Git, head: HeadRead, local: Option<LocalSide>,
                         packer: (set<Oid>, set<Oid>) -> PackResult, ups: seq<Update>)

  // The remote at one moment.
  datatype State = State(t: Tree, f: PackFiles)

  ghost predicate Listed(rules: Rules, t: Tree, n: Name)
  {
    Above(REFS, n) && Advertised(rules, t, n)
  }

  // Every ref has its whole closure in sound pairs.
  ghost predicate AllClosed(rules: Rules, g: Graph, a: State)
  {
    forall n | Listed(rules, a.t, n) :: ClosureHeld(g, a.f, ParseRef(a.t.files[n]).value)
  }

  // Any two refs that conflict in t' were both there, and so in conflict, in t.
  ghost predicate PairsShrink(k: Keys, rules: Rules, t: Tree, t': Tree)
  {
    forall a, b | Listed(rules, t', a) && Listed(rules, t', b) && Pairs(k, a, b) ::
      Listed(rules, t, a) && Listed(rules, t, b)
  }

  // What the pushes run over: a transport that may go wrong in any call, or one
  // that works, with what HEAD says.
  datatype Transport = Unsure | Works(head: HeadRead)

  // One push, with what it read, what it decided and what it did.
  datatype Doing = Doing(c: Context, items: seq<Item>, results: seq<Result>, t1: Tree, tried: set<Name>)

  ghost predicate Pushes(w: Transport, k: Keys, rules: Rules, g: Graph, x: Input, d: Doing, a: State, b: State)
  {
    && d.c == Context(k, rules, x.git, d.c.remote, d.c.skipped, x.head, x.local)
    && ContextOk(d.c) && WellFormed(a.t) && IsScan(rules, a.t, Scan(d.c.remote, d.c.skipped))
    && (d.items == Decide(d.c, x.ups) || d.items == FailWrites(Decide(d.c, x.ups)))
    && Cleared2(d.c, d.items) && Safe(d.c, d.items, d.results, a.t, d.t1, b.t, d.tried)
    && OnlyAdds(a.f, b.f) && (RemoteClosed(g, a.f, d.c.remote) ==> WritesClosed(g, b.f, d.items))
    && (TruePacks(a.f) ==> TruePacks(b.f))
    && (w == Works(x.head) ==> Accomplished(d.c, d.items, d.results, a.t, b.t))
  }

  // A push that could not scan does nothing, which takes a call that failed.
  ghost predicate PushStep(w: Transport, k: Keys, rules: Rules, g: Graph, x: Input, a: State, b: State)
  {
    (w == Unsure && a == b) || exists d :: Pushes(w, k, rules, g, x, d, a, b)
  }

  ghost predicate IsRun(w: Transport, k: Keys, rules: Rules, g: Graph, inputs: seq<Input>, past: seq<State>)
  {
    && |past| == |inputs| + 1
    && forall i | 0 <= i < |inputs| :: StepAt(w, k, rules, g, inputs, past, i)
  }

  ghost predicate StepAt(w: Transport, k: Keys, rules: Rules, g: Graph, inputs: seq<Input>, past: seq<State>, i: nat)
    requires |past| == |inputs| + 1 && i < |inputs|
  {
    PushStep(w, k, rules, g, inputs[i], past[i], past[i + 1])
  }

  function RefsIn(rules: Rules, t: Tree): map<Name, Sha>
  {
    map n | n in t.files && Above(REFS, n) && Advertised(rules, t, n) :: ParseRef(t.files[n]).value
  }

  lemma ClosedBefore(g: Graph, c: Context, a: State)
    requires AllClosed(c.rules, g, a) && IsScan(c.rules, a.t, Scan(c.remote, c.skipped))
    ensures RemoteClosed(g, a.f, c.remote)
  {
    forall n | n in c.remote ensures ClosureHeld(g, a.f, c.remote[n]) {
      assert Listed(c.rules, a.t, n);
    }
  }

  // Sound states stay sound, and no conflict appears.
  ghost predicate Keeps(k: Keys, rules: Rules, g: Graph, a: State, b: State)
  {
    && (AllClosed(rules, g, a) ==> AllClosed(rules, g, b))
    && (TruePacks(a.f) ==> TruePacks(b.f))
    && PairsShrink(k, rules, a.t, b.t)
  }

  lemma KeepsThen(k: Keys, rules: Rules, g: Graph, a: State, b: State, d: State)
    requires Keeps(k, rules, g, a, b) && Keeps(k, rules, g, b, d)
    ensures Keeps(k, rules, g, a, d)
  {
  }

  // What one push keeps.
  lemma StepKeeps(w: Transport, k: Keys, rules: Rules, g: Graph, x: Input, a: State, b: State)
    requires PushStep(w, k, rules, g, x, a, b)
    ensures Keeps(k, rules, g, a, b)
  {
    if a != b {
      var d :| Pushes(w, k, rules, g, x, d, a, b);
      var after := Scan(RefsIn(rules, b.t), []);
      assert ListsRefs(rules, b.t, after.refs);
      forall m, n | Listed(rules, b.t, m) && Listed(rules, b.t, n) && Pairs(k, m, n)
        ensures Listed(rules, a.t, m) && Listed(rules, a.t, n)
      {
        NoNewPairs(d.c, d.items, d.results, a.t, d.t1, b.t, d.tried, after, m, n);
      }
      if AllClosed(rules, g, a) {
        ClosedBefore(g, d.c, a);
        ClosureKept(d.c, d.items, d.results, a.t, d.t1, b.t, d.tried, after, g, a.f, b.f);
        forall n | Listed(rules, b.t, n) ensures ClosureHeld(g, b.f, ParseRef(b.t.files[n]).value) {
          assert n in after.refs;
        }
      }
    }
  }

  // Over a transport that works, a push whose writes are all ordinary leaves
  // exactly its final set advertised.
  lemma WorkingPushLands(k: Keys, rules: Rules, g: Graph, x: Input, d: Doing, a: State, b: State)
    requires Pushes(Works(x.head), k, rules, g, x, d, a, b) && Ordinary(d.items)
    ensures RefsIn(rules, b.t).Keys == FinalSet(d.c.remote.Keys, Elems(d.items))
    ensures forall i | 0 <= i < |d.items| && d.items[i].v.Valid? :: d.results[i].Done?
  {
    var after := Scan(RefsIn(rules, b.t), []);
    assert ListsRefs(rules, b.t, after.refs);
    FinalSetScansBack(d.c, d.items, d.results, a.t, d.t1, b.t, d.tried, after);
  }

  // What any number of pushes keep, between any two moments of the run: a
  // conflict that is gone never comes back, and none appears.
  lemma {:induction false} RunKeeps(w: Transport, k: Keys, rules: Rules, g: Graph, inputs: seq<Input>, past: seq<State>,
                                    i: nat, j: nat)
    requires IsRun(w, k, rules, g, inputs, past) && i <= j <= |inputs|
    ensures Keeps(k, rules, g, past[i], past[j])
    decreases j
  {
    if i < j {
      RunKeeps(w, k, rules, g, inputs, past, i, j - 1);
      assert StepAt(w, k, rules, g, inputs, past, j - 1);
      StepKeeps(w, k, rules, g, inputs[j - 1], past[j - 1], past[j]);
      KeepsThen(k, rules, g, past[i], past[j - 1], past[j]);
    }
  }

  // A remote just created advertises nothing.
  lemma NewRemoteIsEmpty(k: Keys, rules: Rules, g: Graph, n: Name)
    ensures var a := State(Tree(map[], PROTECTED), PackFiles(map[], map[]));
      WellFormed(a.t) && !Listed(rules, a.t, n) && AllClosed(rules, g, a) && TruePacks(a.f)
  {
    Healing.BareIsWellFormed();
  }

  // So a repository begun empty never holds two conflicting spellings, and
  // never advertises a ref whose objects are not all there.
  lemma BegunEmptyStaysSound(w: Transport, k: Keys, rules: Rules, g: Graph, inputs: seq<Input>, past: seq<State>,
                             j: nat, m: Name, n: Name)
    requires IsRun(w, k, rules, g, inputs, past) && j <= |inputs|
    requires past[0] == State(Tree(map[], PROTECTED), PackFiles(map[], map[]))
    ensures AllClosed(rules, g, past[j]) && TruePacks(past[j].f)
    ensures Listed(rules, past[j].t, m) && Listed(rules, past[j].t, n) ==> !Pairs(k, m, n)
  {
    NewRemoteIsEmpty(k, rules, g, m);
    RunKeeps(w, k, rules, g, inputs, past, 0, j);
  }

  lemma StepCopies(w: Transport, k: Keys, rules: Rules, g: Graph, inputs: seq<Input>, past: seq<State>,
                   more: seq<Input>, now: seq<State>, m: nat)
    requires |past| == |inputs| + 1 && m < |inputs| && StepAt(w, k, rules, g, inputs, past, m)
    requires |now| == |more| + 1 && m < |more| && more[m] == inputs[m] && now[m] == past[m] && now[m + 1] == past[m + 1]
    ensures StepAt(w, k, rules, g, more, now, m)
  {
  }

  lemma RunSnoc(w: Transport, k: Keys, rules: Rules, g: Graph, inputs: seq<Input>, past: seq<State>, x: Input, b: State)
    requires IsRun(w, k, rules, g, inputs, past) && PushStep(w, k, rules, g, x, past[|inputs|], b)
    ensures IsRun(w, k, rules, g, inputs + [x], past + [b])
  {
    var more, now := inputs + [x], past + [b];
    forall m | 0 <= m < |inputs| ensures StepAt(w, k, rules, g, more, now, m) {
      StepCopies(w, k, rules, g, inputs, past, more, now, m);
    }
    assert StepAt(w, k, rules, g, more, now, |inputs|);
  }

  function Now(r: Store, pf: PackFolder): State
    reads r, pf
  {
    State(r.T(), pf.F())
  }

  // What the pushes over this store run over.
  function Over(r: Store): Transport
    reads r
  {
    if r.faulty then Unsure else Works(r.head)
  }

  // A run from one state to another.
  ghost predicate Spans(w: Transport, k: Keys, rules: Rules, g: Graph, inputs: seq<Input>, past: seq<State>,
                        a: State, b: State)
  {
    IsRun(w, k, rules, g, inputs, past) && past[0] == a && past[|inputs|] == b
  }

  lemma SpanGrows(w: Transport, k: Keys, rules: Rules, g: Graph, inputs: seq<Input>, i: nat, past: seq<State>,
                  a: State, b: State, d: State)
    requires i < |inputs| && Spans(w, k, rules, g, inputs[..i], past, a, b)
    requires PushStep(w, k, rules, g, inputs[i], b, d)
    ensures Spans(w, k, rules, g, inputs[..i + 1], past + [d], a, d)
  {
    RunSnoc(w, k, rules, g, inputs[..i], past, inputs[i], d);
    assert inputs[..i + 1] == inputs[..i] + [inputs[i]];
  }

  // The pushes themselves, with the states they pass.
  method RunPushes(r: Store, pf: PackFolder, k: Keys, rules: Rules, g: Graph, inputs: seq<Input>)
    returns (ghost past: seq<State>)
    requires WellFormed(r.T()) && Split(k) && !rules.compOk([]) && Clean(rules, REFS)
    requires forall i | 0 <= i < |inputs| :: PacksDifference(g, inputs[i].packer)
    modifies r`files, r`dirs, r`listed, pf
    ensures WellFormed(r.T()) && ListedClean(rules, old(r.listed), r.listed)
    ensures Spans(Over(r), k, rules, g, inputs, past, old(Now(r, pf)), Now(r, pf))
    ensures Keeps(k, rules, g, old(Now(r, pf)), Now(r, pf))
  {
    past := [Now(r, pf)];
    for i := 0 to |inputs|
      invariant WellFormed(r.T()) && ListedClean(rules, old(r.listed), r.listed)
      invariant Spans(Over(r), k, rules, g, inputs[..i], past, old(Now(r, pf)), Now(r, pf))
    {
      past := PushNext(r, pf, k, rules, g, inputs, i, past, old(Now(r, pf)), old(r.listed));
    }
    assert inputs[..|inputs|] == inputs;
    RunKeeps(Over(r), k, rules, g, inputs, past, 0, |inputs|);
  }

  // One more push of a run that began at a.
  method PushNext(r: Store, pf: PackFolder, k: Keys, rules: Rules, g: Graph, inputs: seq<Input>, i: nat,
                  ghost past: seq<State>, ghost a: State, ghost listed: seq<Name>)
    returns (ghost past': seq<State>)
    requires WellFormed(r.T()) && Split(k) && !rules.compOk([]) && Clean(rules, REFS)
    requires i < |inputs| && PacksDifference(g, inputs[i].packer) && ListedClean(rules, listed, r.listed)
    requires Spans(Over(r), k, rules, g, inputs[..i], past, a, Now(r, pf))
    modifies r`files, r`dirs, r`listed, pf
    ensures WellFormed(r.T()) && ListedClean(rules, listed, r.listed)
    ensures Spans(Over(r), k, rules, g, inputs[..i + 1], past', a, Now(r, pf))
  {
    PushOnce(r, pf, k, rules, g, inputs[i]);
    ListedCleanThen(rules, listed, old(r.listed), r.listed);
    SpanGrows(Over(r), k, rules, g, inputs, i, past, a, old(Now(r, pf)), Now(r, pf));
    past' := past + [Now(r, pf)];
  }

  method PushOnce(r: Store, pf: PackFolder, k: Keys, rules: Rules, g: Graph, x: Input)
    requires WellFormed(r.T()) && Split(k) && !rules.compOk([]) && Clean(rules, REFS)
    requires PacksDifference(g, x.packer)
    modifies r`files, r`dirs, r`listed, pf
    ensures WellFormed(r.T()) && ListedClean(rules, old(r.listed), r.listed)
    ensures PushStep(Over(r), k, rules, g, x, old(Now(r, pf)), Now(r, pf))
  {
    ghost var a, listed0 := Now(r, pf), r.listed;
    var scan := ScanRefs(r, rules);
    if scan.None? { return; }
    ghost var listed1 := r.listed;
    var c := Context(k, rules, x.git, scan.value.refs, scan.value.skipped, x.head, x.local);
    forall n | n in c.remote ensures IsRef(n) { RefsAreRefs(rules, a.t, scan.value, n); }
    assert Scan(c.remote, c.skipped) == scan.value;
    var items, results, t1, tried := PushWithLocal(r, pf, c, x.ups, g, x.packer);
    ListedCleanThen(rules, listed0, listed1, r.listed);
    ghost var d := Doing(c, items, results, t1, tried);
    assert Pushes(Over(r), k, rules, g, x, d, a, Now(r, pf));
  }

  lemma RefsAreRefs(rules: Rules, t: Tree, s: Scan, n: Name)
    requires WellFormed(t) && IsScan(rules, t, s) && !rules.compOk([]) && n in s.refs
    ensures IsRef(n)
  {
    assert Above(REFS, n) && Clean(rules, n);
    ChildOf(REFS, []);
    assert REFS + [SLASH] + [] == REFS_SLASH;
  }
}
