/** Permuting a batch permutes phase 2's verdicts, reasons and conflict names,
    and changes nothing else. */
module OrderIndependence {
  import opened Names
  import opened Wrappers
  import opened Batch
  import opened Phase2

  // p lists every position below n once.
  ghost predicate IsPermutation(p: seq<nat>, n: nat)
  {
    && |p| == n
    && (forall i | 0 <= i < n :: p[i] < n)
    && (forall i, j | 0 <= i < j < n :: p[i] != p[j])
    && (forall k | 0 <= k < n :: k in p)
  }

  // ys is xs read in the order p.
  ghost predicate Permuted<T>(xs: seq<T>, ys: seq<T>, p: seq<nat>)
  {
    |xs| == |ys| && IsPermutation(p, |xs|) && forall i | 0 <= i < |ys| :: ys[i] == xs[p[i]]
  }

  ghost function PositionOf(p: seq<nat>, n: nat, k: nat): (i: nat)
    requires IsPermutation(p, n) && k < n
    ensures i < n && p[i] == k
  {
    assert k in p;
    var i :| 0 <= i < |p| && p[i] == k;
    i
  }

  lemma PermutedElems(xs: seq<Item>, ys: seq<Item>, p: seq<nat>)
    requires Permuted(xs, ys, p)
    ensures Elems(xs) == Elems(ys)
  {
    forall e | e in xs ensures e in ys {
      var k :| 0 <= k < |xs| && xs[k] == e;
      var i := PositionOf(p, |xs|, k);
      assert ys[i] == e;
    }
  }

  lemma DuplicatedStays(xs: seq<Update>, ys: seq<Update>, p: seq<nat>, dst: Name)
    requires Permuted(xs, ys, p)
    ensures Duplicated(xs, dst) <==> Duplicated(ys, dst)
  {
    if Duplicated(xs, dst) {
      var a, b :| 0 <= a < b < |xs| && xs[a].src != [] && xs[b].src != [] && xs[a].dst == dst && xs[b].dst == dst;
      var i := PositionOf(p, |xs|, a);
      var j := PositionOf(p, |xs|, b);
      assert ys[i] == xs[a] && ys[j] == xs[b] && i != j;
      assert i < j || j < i;
    }
    if Duplicated(ys, dst) {
      var i, j :| 0 <= i < j < |ys| && ys[i].src != [] && ys[j].src != [] && ys[i].dst == dst && ys[j].dst == dst;
      assert xs[p[i]] == ys[i] && xs[p[j]] == ys[j] && p[i] != p[j];
      assert p[i] < p[j] || p[j] < p[i];
    }
  }

  lemma JudgeEntryStays(c: Context, xs: seq<Update>, ys: seq<Update>, p: seq<nat>, u: Update)
    requires Permuted(xs, ys, p)
    ensures JudgeEntry(c, xs, u) == JudgeEntry(c, ys, u)
  {
    DuplicatedStays(xs, ys, p, u.dst);
  }

  lemma ValidatePermutes(c: Context, xs: seq<Update>, ys: seq<Update>, p: seq<nat>)
    requires Permuted(xs, ys, p)
    ensures Permuted(Validate(c, xs), Validate(c, ys), p)
  {
    forall i | 0 <= i < |ys| ensures Validate(c, ys)[i] == Validate(c, xs)[p[i]] {
      JudgeEntryStays(c, xs, ys, p, ys[i]);
    }
  }

  ghost predicate PlansPermuted(a: Plan, b: Plan, p: seq<nat>)
  {
    Permuted(a.items, b.items, p) && a.kept == b.kept && a.macCreates == b.macCreates
  }

  lemma FolderPassPermutes(c: Context, xs: seq<Item>, ys: seq<Item>, p: seq<nat>)
    requires Permuted(xs, ys, p)
    ensures Permuted(FolderPass(c, xs), FolderPass(c, ys), p)
  {
    PermutedElems(xs, ys, p);
  }

  lemma JudgeCasesPermutes(c: Context, xs: seq<Item>, ys: seq<Item>, p: seq<nat>, kept: set<Name>)
    requires Permuted(xs, ys, p)
    ensures Permuted(JudgeCases(c, xs, kept), JudgeCases(c, ys, kept), p)
  {
    PermutedElems(xs, ys, p);
  }

  lemma JudgePairsPermutes(c: Context, xs: seq<Item>, ys: seq<Item>, p: seq<nat>, refused: set<Name>,
                           macCreates: set<Name>)
    requires Permuted(xs, ys, p)
    ensures Permuted(JudgePairs(c, xs, refused, macCreates), JudgePairs(c, ys, refused, macCreates), p)
  {
    PermutedElems(xs, ys, p);
  }

  lemma CasePassPermutes(c: Context, a: Plan, b: Plan, p: seq<nat>)
    requires PlansPermuted(a, b, p)
    ensures PlansPermuted(CasePass(c, a), CasePass(c, b), p)
  {
    PermutedElems(a.items, b.items, p);
    var es := Elems(a.items);
    JudgeCasesPermutes(c, a.items, b.items, p, a.kept);
    var ja, jb := JudgeCases(c, a.items, a.kept), JudgeCases(c, b.items, a.kept);
    PermutedElems(ja, jb, p);
    JudgePairsPermutes(c, ja, jb, p, CaseRefusals(c, es), a.macCreates + MacRefusals(c, es, a.kept));
  }

  lemma {:induction false} CaseFixedPointPermutes(c: Context, a: Plan, b: Plan, p: seq<nat>)
    requires PlansPermuted(a, b, p)
    ensures PlansPermuted(CaseFixedPoint(c, a), CaseFixedPoint(c, b), p)
    decreases ValidCount(a.items)
  {
    PermutedElems(a.items, b.items, p);
    if !CaseStable(c, a.items) {
      CasePassRefuses(c, a);
      RefusingShrinks(a.items, CasePass(c, a).items);
      CasePassPermutes(c, a, b, p);
      CaseFixedPointPermutes(c, CasePass(c, a), CasePass(c, b), p);
    }
  }

  lemma MacWritesPermutes(c: Context, l: LocalSide, xs: seq<Item>, ys: seq<Item>, p: seq<nat>)
    requires Permuted(xs, ys, p)
    ensures Permuted(MacWrites(c, l, xs), MacWrites(c, l, ys), p)
  {
    PermutedElems(xs, ys, p);
  }

  lemma MacExactsPermutes(xs: seq<Item>, ys: seq<Item>, p: seq<nat>, writes: set<Name>)
    requires Permuted(xs, ys, p)
    ensures Permuted(MacExacts(xs, writes), MacExacts(ys, writes), p)
  {
  }

  lemma MacDeletesPermutes(c: Context, l: LocalSide, xs: seq<Item>, ys: seq<Item>, p: seq<nat>)
    requires Permuted(xs, ys, p)
    ensures Permuted(MacDeletes(c, l, xs), MacDeletes(c, l, ys), p)
  {
  }

  lemma DeletesRefusedStays(xs: seq<Item>, ys: seq<Item>, xs': seq<Item>, ys': seq<Item>, p: seq<nat>)
    requires Permuted(xs, ys, p) && Permuted(xs', ys', p)
    ensures DeletesRefused(xs, xs') == DeletesRefused(ys, ys')
  {
    forall d | d in DeletesRefused(xs, xs') ensures d in DeletesRefused(ys, ys') {
      var k :| 0 <= k < |xs| && xs[k].ValidDelete() && xs'[k].v.Refused? && xs[k].Dst() == d;
      var i := PositionOf(p, |xs|, k);
      assert ys[i] == xs[k] && ys'[i] == xs'[k];
    }
  }

  lemma MacPassPermutes(c: Context, l: LocalSide, a: Plan, b: Plan, p: seq<nat>)
    requires PlansPermuted(a, b, p)
    ensures PlansPermuted(MacPass(c, l, a), MacPass(c, l, b), p)
  {
    PermutedElems(a.items, b.items, p);
    var es := Elems(a.items);
    var oa, ob := MacWrites(c, l, a.items), MacWrites(c, l, b.items);
    MacWritesPermutes(c, l, a.items, b.items, p);
    var xa, xb := MacExacts(oa, RefusedWrites(c, l, es)), MacExacts(ob, RefusedWrites(c, l, es));
    MacExactsPermutes(oa, ob, p, RefusedWrites(c, l, es));
    var ta, tb := MacRenames(c, xa, RefusedCreates(c, l, es)), MacRenames(c, xb, RefusedCreates(c, l, es));
    JudgePairsPermutes(c, xa, xb, p, RefusedCreates(c, l, es), RefusedCreates(c, l, es));
    MacDeletesPermutes(c, l, ta, tb, p);
    DeletesRefusedStays(a.items, b.items, MacDeletes(c, l, ta), MacDeletes(c, l, tb), p);
  }

  lemma PermutedEqual(xs: seq<Item>, ys: seq<Item>, xs': seq<Item>, ys': seq<Item>, p: seq<nat>)
    requires Permuted(xs, ys, p) && Permuted(xs', ys', p)
    ensures xs == xs' <==> ys == ys'
  {
    if ys == ys' {
      forall k | 0 <= k < |xs| ensures xs[k] == xs'[k] {
        var i := PositionOf(p, |xs|, k);
        assert ys[i] == xs[k] && ys'[i] == xs'[k];
      }
    }
  }

  lemma RoundPermutes(c: Context, a: Plan, b: Plan, p: seq<nat>)
    requires PlansPermuted(a, b, p)
    ensures PlansPermuted(Round(c, a), Round(c, b), p)
  {
    FolderPassPermutes(c, a.items, b.items, p);
    CaseFixedPointPermutes(c, a.(items := FolderPass(c, a.items)), b.(items := FolderPass(c, b.items)), p);
  }

  lemma {:induction false} SettlePermutes(c: Context, a: Plan, b: Plan, p: seq<nat>)
    requires PlansPermuted(a, b, p)
    ensures PlansPermuted(Settle(c, a), Settle(c, b), p)
    decreases ValidCount(a.items)
  {
    var qa, qb := Round(c, a), Round(c, b);
    RoundPermutes(c, a, b, p);
    RoundRefuses(c, a);
    if c.local.Some? {
      var ra, rb := MacPass(c, c.local.value, qa), MacPass(c, c.local.value, qb);
      MacPassPermutes(c, c.local.value, qa, qb, p);
      PermutedEqual(qa.items, qb.items, ra.items, rb.items, p);
      if ra.items != qa.items {
        MacPassRefuses(c, c.local.value, qa);
        RefusingShrinks(qa.items, ra.items);
        SettlePermutes(c, ra, rb, p);
      }
    }
  }

  lemma DecidePermutes(c: Context, xs: seq<Update>, ys: seq<Update>, p: seq<nat>)
    requires Permuted(xs, ys, p)
    ensures Permuted(Decide(c, xs), Decide(c, ys), p)
  {
    ValidatePermutes(c, xs, ys, p);
    SettlePermutes(c, Plan(Validate(c, xs), {}, {}), Plan(Validate(c, ys), {}, {}), p);
  }
}
