/** What phase 2 guarantees when it ends: no valid create sits above, beneath
    or beside another spelling of a ref of the final set, with the deletes A1
    put back included; no valid entry collides as the Mac rule defines; and
    every delete paired with a refused create is refused with it. */
module Phase2Sound {
  import opened Names
  import opened Keys
  import opened CaseConflicts
  import opened Batch
  import opened Phase2

  function Final(c: Context, items: seq<Item>): set<Name>
  {
    FinalSet(c.remote.Keys, Elems(items))
  }

  ghost predicate FolderFree(c: Context, items: seq<Item>)
  {
    forall i, o | 0 <= i < |items| && items[i].ValidCreate() && o in Final(c, items) :: !Nested(o, items[i].Dst())
  }

  ghost predicate PairFree(c: Context, items: seq<Item>)
  {
    forall i, o | 0 <= i < |items| && items[i].ValidCreate() && o in Final(c, items) ::
      !Pairs(c.keys, items[i].Dst(), o)
  }

  // ---- a ref A1 keeps is harmless

  lemma IsRefParts(n: Name)
    requires IsRef(n)
    ensures n == REFS + [SLASH] + Below(n) && Below(n) != []
  {
  }

  lemma RefKeyParts(key: Name -> Name, a: Name, b: Name)
    requires SplitsAtSlash(key) && IsRef(a) && IsRef(b) && key(a) == key(b)
    ensures key(Below(a)) == key(Below(b))
  {
    IsRefParts(a);
    IsRefParts(b);
    var p := key(REFS) + [SLASH];
    assert key(a) == key(REFS + [SLASH] + Below(a)) == p + key(Below(a));
    assert key(b) == key(REFS + [SLASH] + Below(b)) == p + key(Below(b));
    assert key(Below(a)) == (p + key(Below(a)))[|p|..];
    assert key(Below(b)) == (p + key(Below(b)))[|p|..];
  }

  lemma AboveBelow(a: Name, b: Name)
    requires IsRef(a) && IsRef(b)
    ensures Above(a, b) <==> Above(Below(a), Below(b))
    ensures a == b <==> Below(a) == Below(b)
  {
    IsRefParts(a);
    IsRefParts(b);
    var p := REFS + [SLASH];
    assert a + [SLASH] == p + (Below(a) + [SLASH]);
    if Above(Below(a), Below(b)) {
      assert Below(b)[..|Below(a)| + 1] == Below(a) + [SLASH];
      assert b[..|a| + 1] == a + [SLASH];
    }
    if Above(a, b) {
      assert b[..|a| + 1] == a + [SLASH];
      assert Below(b)[..|Below(a)| + 1] == b[..|a| + 1][|p|..];
      assert (a + [SLASH])[|p|..] == Below(a) + [SLASH];
    }
  }

  lemma InPrefixes(n: Name, p: Name)
    requires IsRef(n) && AboveOrEqual(p, Below(n))
    ensures p in RefPrefixes(n)
  {
    IsRefParts(n);
    RefPrefixesSpec(n);
  }

  // kept above create: kept's own spelling is a prefix of create.
  lemma KeptAbove(k: Keys, rel: Relation, create: Name, kept: Name, refused: Name)
    requires Split(k) && IsRef(create) && IsRef(kept) && IsRef(refused)
    requires KeyFor(k, rel)(kept) == KeyFor(k, rel)(refused) && kept != refused
    requires Above(kept, create)
    ensures Pairs(k, create, refused)
  {
    RefKeyParts(KeyFor(k, rel), kept, refused);
    AboveBelow(kept, create);
    AboveBelow(kept, refused);
    InPrefixes(create, Below(kept));
    InPrefixes(refused, Below(refused));
    assert PairsBy(k, create, refused, Below(kept), Below(refused), rel);
  }

  // create above kept: some prefix of refused has create's key.
  lemma KeptBeneath(k: Keys, rel: Relation, create: Name, kept: Name, refused: Name)
    requires Split(k) && IsRef(create) && IsRef(kept) && IsRef(refused)
    requires KeyFor(k, rel)(kept) == KeyFor(k, rel)(refused)
    requires Above(create, kept)
    ensures Pairs(k, create, refused) || Above(create, refused)
  {
    var key := KeyFor(k, rel);
    RefKeyParts(key, kept, refused);
    AboveBelow(create, kept);
    var y, x, z := Below(create), Below(refused), Below(kept);
    var t := z[|y| + 1..];
    assert z == y + [SLASH] + t;
    var y', t' := SplitTransfer(key, y, t, x);
    assert Above(y', x);
    if y' == y {
      AboveBelow(create, refused);
    } else {
      InPrefixes(create, y);
      InPrefixes(refused, y');
      assert PairsBy(k, create, refused, y, y', rel);
    }
  }

  // A create with no conflict with a refused create, and not nested with it,
  // is not nested with any ref spelled like the refused create either.
  lemma KeptIsHarmless(k: Keys, create: Name, kept: Name, refused: Name)
    requires Split(k) && IsRef(create) && IsRef(kept) && IsRef(refused)
    requires SharesKey(k, kept, refused) && kept != refused
    requires !Nested(refused, create) && !Pairs(k, create, refused)
    ensures !Nested(kept, create)
  {
    var rel := if k.caseOf(kept) == k.caseOf(refused) then RelCase else RelCanon;
    if Above(kept, create) { KeptAbove(k, rel, create, kept, refused); }
    if Above(create, kept) { KeptBeneath(k, rel, create, kept, refused); }
  }

  // ---- the passes

  lemma RefusingShrinksSets(before: seq<Item>, after: seq<Item>)
    requires OnlyRefuses(before, after)
    ensures Written(Elems(after)) <= Written(Elems(before))
    ensures Deleted(Elems(after)) <= Deleted(Elems(before))
  {
    forall e | e in Elems(after) && e.v.Valid? ensures e in Elems(before) {
      var i :| 0 <= i < |after| && after[i] == e;
      assert before[i] == e;
    }
  }

  // The final set only grows by the ref of a delete that was refused.
  lemma FinalGrowsByKept(c: Context, before: seq<Item>, after: seq<Item>, o: Name) returns (j: nat)
    requires OnlyRefuses(before, after) && o in Final(c, after) && o !in Final(c, before)
    ensures o in c.remote && j < |before|
    ensures before[j].ValidDelete() && after[j].v.Refused? && before[j].Dst() == o
  {
    RefusingShrinksSets(before, after);
    assert o in Deleted(Elems(before)) && o !in Deleted(Elems(after));
    var d :| d in Elems(before) && d.ValidDelete() && d.Dst() == o;
    j :| 0 <= j < |before| && before[j] == d;
    assert after[j] in Elems(after);
  }

  // No delete is refused on the way, so nothing is put back.
  lemma FinalOnlyShrinks(c: Context, before: seq<Item>, after: seq<Item>)
    requires OnlyRefuses(before, after)
    requires forall i | 0 <= i < |before| && before[i].del :: after[i] == before[i]
    ensures Final(c, after) <= Final(c, before)
  {
    RefusingShrinksSets(before, after);
    forall o | o in Deleted(Elems(before)) ensures o in Deleted(Elems(after)) {
      var e :| e in Elems(before) && e.ValidDelete() && e.Dst() == o;
      var i :| 0 <= i < |before| && before[i] == e;
      assert after[i] in Elems(after);
    }
  }

  lemma FolderPassFrees(c: Context, items: seq<Item>)
    ensures FolderFree(c, FolderPass(c, items))
  {
    var after := FolderPass(c, items);
    FolderPassRefuses(c, items);
    FinalOnlyShrinks(c, items, after);
    forall i, o | 0 <= i < |after| && after[i].ValidCreate() && o in Final(c, after)
      ensures !Nested(o, after[i].Dst())
    {
      assert FolderConflicts(Final(c, items), items[i].Dst()) == {};
      assert o !in FolderConflicts(Final(c, items), items[i].Dst());
      NestedStrict(o);
    }
  }

  lemma NestedStrict(o: Name)
    ensures !Nested(o, o)
  {
  }

  lemma NoConflicts(c: Context, items: seq<Item>, x: Name, o: Name)
    requires ContextOk(c) && CaseConflictsOf(c, Elems(items), x) == [] && o in Final(c, items)
    ensures !Pairs(c.keys, x, o)
  {
    ConflictsInComplete(c.keys, Final(c, items), x);
  }

  // A1 puts back only harmless refs, so the preflight need not run again.
  lemma CasePassKeepsFolderFree(c: Context, p: Plan)
    requires ContextOk(c) && ItemsOk(c, p.items) && FolderFree(c, p.items)
    ensures FolderFree(c, CasePass(c, p).items)
  {
    var after := CasePass(c, p).items;
    CasePassRefuses(c, p);
    forall i, o | 0 <= i < |after| && after[i].ValidCreate() && o in Final(c, after)
      ensures !Nested(o, after[i].Dst())
    {
      if o !in Final(c, p.items) {
        var j := FinalGrowsByKept(c, p.items, after, o);
        KeptHasCreate(c, p, i, j);
      }
    }
  }

  // The create a delete was kept for is itself in the batch, valid before the
  // pass, and neither nested with nor spelled like a create that stays valid.
  lemma KeptHasCreate(c: Context, p: Plan, i: nat, j: nat)
    requires ContextOk(c) && ItemsOk(c, p.items) && FolderFree(c, p.items)
    requires i < |p.items| && j < |p.items|
    requires CasePass(c, p).items[i].ValidCreate()
    requires p.items[j].ValidDelete() && CasePass(c, p).items[j].v.Refused?
    ensures !Nested(p.items[j].Dst(), p.items[i].Dst())
  {
    var x := PairedOf(c, p, j);
    CreateSurvives(c, p, i);
    RefusedCreate(c, p.items, x);
    NoConflicts(c, p.items, p.items[i].Dst(), x);
    KeptIsHarmless(c.keys, p.items[i].Dst(), p.items[j].Dst(), x);
  }

  lemma CreateSurvives(c: Context, p: Plan, i: nat)
    requires i < |p.items| && CasePass(c, p).items[i].ValidCreate()
    ensures p.items[i].ValidCreate() && CaseConflictsOf(c, Elems(p.items), p.items[i].Dst()) == []
  {
    CasePassRefuses(c, p);
    var judged := JudgeCases(c, p.items, p.kept);
    assert judged[i] == JudgeCase(c, Elems(p.items), p.kept, p.items[i]);
  }

  lemma RefusedCreate(c: Context, items: seq<Item>, x: Name)
    requires ItemsOk(c, items) && x in CaseRefusals(c, Elems(items))
    ensures x in Final(c, items) && x !in c.remote && IsRef(x)
  {
    var es := Elems(items);
    var e :| e in es && CaseRefuses(c, es, e) && e.Dst() == x;
    var m :| 0 <= m < |items| && items[m] == e;
    assert x in Written(es);
  }

  ghost function PairedOf(c: Context, p: Plan, j: nat): (x: Name)
    requires j < |p.items| && p.items[j].ValidDelete() && CasePass(c, p).items[j].v.Refused?
    ensures x in CaseRefusals(c, Elems(p.items)) && SharesKey(c.keys, p.items[j].Dst(), x)
    ensures p.items[j].Dst() in c.remote
  {
    var es := Elems(p.items);
    var judged := JudgeCases(c, p.items, p.kept);
    assert judged[j] == p.items[j];
    PairedCreate(c.keys, CaseRefusals(c, es), p.items[j].Dst()).value
  }

  lemma {:induction false} CaseFixedPointKeepsFolderFree(c: Context, p: Plan)
    requires ContextOk(c) && ItemsOk(c, p.items) && FolderFree(c, p.items)
    ensures FolderFree(c, CaseFixedPoint(c, p).items)
    decreases ValidCount(p.items)
  {
    if !CaseStable(c, p.items) {
      CasePassRefuses(c, p);
      RefusingShrinks(p.items, CasePass(c, p).items);
      OnlyRefusesKeepsItemsOk(c, p.items, CasePass(c, p).items);
      CasePassKeepsFolderFree(c, p);
      CaseFixedPointKeepsFolderFree(c, CasePass(c, p));
    }
  }

  lemma RefusesIsListed(c: Context, es: set<Item>, e: Item)
    requires e in es
    ensures CaseRefuses(c, es, e) ==> e.Dst() in CaseRefusals(c, es)
  {
  }

  lemma StableIsPairFree(c: Context, items: seq<Item>)
    requires ContextOk(c) && CaseStable(c, items)
    ensures PairFree(c, items)
  {
    forall i, o | 0 <= i < |items| && items[i].ValidCreate() && o in Final(c, items)
      ensures !Pairs(c.keys, items[i].Dst(), o)
    {
      assert items[i] in Elems(items);
      RefusesIsListed(c, Elems(items), items[i]);
      NoConflicts(c, items, items[i].Dst(), o);
    }
  }

  lemma RoundIsSound(c: Context, p: Plan)
    requires ContextOk(c) && ItemsOk(c, p.items)
    ensures FolderFree(c, Round(c, p).items) && PairFree(c, Round(c, p).items)
  {
    var q := p.(items := FolderPass(c, p.items));
    FolderPassRefuses(c, p.items);
    OnlyRefusesKeepsItemsOk(c, p.items, q.items);
    FolderPassFrees(c, p.items);
    CaseFixedPointKeepsFolderFree(c, q);
    CaseFixedPointRefuses(c, q);
    StableIsPairFree(c, Round(c, p).items);
  }

  lemma {:induction false} SettleIsSound(c: Context, p: Plan)
    requires ContextOk(c) && ItemsOk(c, p.items)
    ensures FolderFree(c, Settle(c, p).items) && PairFree(c, Settle(c, p).items)
    decreases ValidCount(p.items)
  {
    var q := Round(c, p);
    RoundIsSound(c, p);
    RoundRefuses(c, p);
    OnlyRefusesKeepsItemsOk(c, p.items, q.items);
    if c.local.Some? {
      var r := MacPass(c, c.local.value, q);
      if r.items != q.items {
        MacPassRefuses(c, c.local.value, q);
        RefusingShrinks(q.items, r.items);
        OnlyRefusesKeepsItemsOk(c, q.items, r.items);
        SettleIsSound(c, r);
      }
    }
  }

  // No valid create is nested with, or spelled like, another ref the batch
  // would leave on the remote.
  lemma DecideIsSound(c: Context, ups: seq<Update>)
    requires ContextOk(c)
    ensures FolderFree(c, Decide(c, ups)) && PairFree(c, Decide(c, ups))
  {
    ValidateOk(c, ups);
    SettleIsSound(c, Plan(Validate(c, ups), {}, {}));
  }
}
