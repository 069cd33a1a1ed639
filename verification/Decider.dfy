/** The verdicts of one batch, updated in place by the three checks of phase 2
    and the loops around them (push.go, phase 2; macpush.go, macPass). */
module Decider {
  import opened Names
  import opened Wrappers
  import opened Keys
  import opened CaseConflicts
  import opened Batch
  import opened Phase2
  import opened Planner
  import opened MacSound

  // The first loop of phase 2.
  method ValidateAll(c: Context, ups: seq<Update>) returns (items: seq<Item>)
    ensures items == Validate(c, ups)
  {
    ghost var want := Validate(c, ups);
    var count := CountDestinations(ups);
    var occupied := IndexSkipped(c.skipped);
    items := [];
    var i := 0;
    while i < |ups|
      invariant 0 <= i <= |ups| && |items| == i
      invariant forall j | 0 <= j < i :: items[j] == want[j]
    {
      var d := ups[i].dst;
      var duplicated := d in count && count[d] > 1;
      assert duplicated == Duplicated(ups, d);
      var e := CheckEntry(c, occupied, duplicated, ups[i]);
      assert e == want[i];
      items := items + [e];
      i := i + 1;
    }
  }

  lemma ElemsAt(items: seq<Item>, i: nat)
    requires i < |items|
    ensures items[i] in Elems(items)
  {
  }

  // The valid creates, in batch order.
  method Candidates(items: seq<Item>) returns (xs: seq<Name>)
    ensures forall x :: x in xs <==> exists i | 0 <= i < |items| :: items[i].ValidCreate() && items[i].Dst() == x
  {
    xs := [];
    for i := 0 to |items|
      invariant forall x :: x in xs <==> exists j | 0 <= j < i :: items[j].ValidCreate() && items[j].Dst() == x
    {
      if items[i].ValidCreate() { xs := xs + [items[i].Dst()]; }
    }
  }

  // The destinations of the valid updates, in batch order.
  method Updates(items: seq<Item>) returns (xs: seq<Name>)
    ensures forall i | 0 <= i < |items| && items[i].ValidWrite() && !items[i].create :: items[i].Dst() in xs
  {
    xs := [];
    for i := 0 to |items|
      invariant forall j | 0 <= j < i && items[j].ValidWrite() && !items[j].create :: items[j].Dst() in xs
    {
      if items[i].ValidWrite() && !items[i].create { xs := xs + [items[i].Dst()]; }
    }
  }

  // m answers, for every valid create, what it conflicts with.
  ghost predicate Decides(c: Context, items: seq<Item>, m: map<Name, seq<Conflict>>)
  {
    forall i | 0 <= i < |items| :: DecidesEntry(c, Elems(items), m, items[i])
  }

  predicate DecidesEntry(c: Context, es: set<Item>, m: map<Name, seq<Conflict>>, e: Item)
  {
    e.ValidCreate() ==>
      (e.Dst() in m <==> CaseRefuses(c, es, e)) && (e.Dst() in m ==> m[e.Dst()] == CaseConflictsOf(c, es, e.Dst()))
  }

  // What a conflict map over the valid creates says of one entry.
  lemma MapDecidesEntry(c: Context, items: seq<Item>, cands: seq<Name>, m: map<Name, seq<Conflict>>, e: Item)
    requires IsConflictMap(c.keys, FinalSet(c.remote.Keys, Elems(items)), cands, m)
    requires e.ValidCreate() ==> e.Dst() in cands
    ensures DecidesEntry(c, Elems(items), m, e)
  {
  }

  lemma MapDecides(c: Context, items: seq<Item>, cands: seq<Name>, m: map<Name, seq<Conflict>>)
    requires IsConflictMap(c.keys, FinalSet(c.remote.Keys, Elems(items)), cands, m)
    requires forall x :: x in cands <==> exists i | 0 <= i < |items| :: items[i].ValidCreate() && items[i].Dst() == x
    ensures Decides(c, items, m)
    ensures m == map[] <==> CaseStable(c, items)
  {
    var es := Elems(items);
    forall i | 0 <= i < |items| ensures DecidesEntry(c, es, m, items[i]) {
      MapDecidesEntry(c, items, cands, m, items[i]);
    }
    forall x ensures x in m <==> x in CaseRefusals(c, es) {
      if x in m {
        var i :| 0 <= i < |items| && items[i].ValidCreate() && items[i].Dst() == x;
        ElemsAt(items, i);
      }
      if x in CaseRefusals(c, es) {
        var e :| e in es && CaseRefuses(c, es, e) && e.Dst() == x;
        var i :| 0 <= i < |items| && items[i] == e;
      }
    }
    assert m.Keys == CaseRefusals(c, es);
  }

  class Verdicts {
    const c: Context
    const items: array<Item>
    // Deletes the Mac rule kept, and creates refused because of one.
    var kept: set<Name>
    var macCreates: set<Name>
    // How many passes of the case rule, and rounds of the outer loop, began.
    ghost var passes: nat
    ghost var rounds: nat

    constructor (c: Context, start: seq<Item>)
      ensures this.c == c && fresh(items) && Now() == Plan(start, {}, {}) && passes == rounds == 0
    {
      this.c := c;
      passes, rounds := 0, 0;
      items := new Item[|start|](i requires 0 <= i < |start| => start[i]);
      kept, macCreates := {}, {};
    }

    function Now(): Plan
      reads this`kept, this`macCreates, items
    {
      Plan(items[..], kept, macCreates)
    }

    // One entry of the preflight.
    method RefuseNested(i: nat, final: set<Name>, ghost es: set<Item>)
      requires i < items.Length && final == FinalSet(c.remote.Keys, es)
      modifies items
      ensures items[..] == old(items[..])[i := JudgeFolders(c, es, old(items[i]))]
    {
      if items[i].ValidCreate() {
        var conflict := SmallestNested(final, items[i].Dst());
        if conflict.Some? { items[i] := items[i].Refuse(FolderConflict(conflict.value)); }
      }
    }

    // Each round of the outer loop begins here.
    method FolderPreflight()
      modifies items, this`rounds
      ensures rounds == old(rounds) + 1
      ensures Now() == old(Now()).(items := FolderPass(c, old(items[..])))
    {
      var final := ComputeFinalSet(c.remote.Keys, items[..]);
      ghost var was := items[..];
      ghost var es := Elems(was);
      var i := 0;
      while i < items.Length
        invariant 0 <= i <= items.Length
        invariant forall j | 0 <= j < i :: items[j] == JudgeFolders(c, es, was[j])
        invariant forall j | i <= j < items.Length :: items[j] == was[j]
        invariant rounds == old(rounds)
      {
        RefuseNested(i, final, es);
        i := i + 1;
      }
      assert items[..] == FolderPass(c, was);
      rounds := rounds + 1;
    }

    // One entry of a pass of the case rule.
    method TryRefuse(i: nat, conflicts: map<Name, seq<Conflict>>, ghost es: set<Item>)
      returns (refuses: bool, mac: bool)
      requires i < items.Length && DecidesEntry(c, es, conflicts, items[i])
      modifies items
      ensures items[..] == old(items[..])[i := JudgeCase(c, es, kept, old(items[i]))]
      ensures refuses == CaseRefuses(c, es, old(items[i]))
      ensures mac <==> refuses && KeptConflicts(CaseConflictsOf(c, es, old(items[i]).Dst()), kept) != []
    {
      var d := items[i].Dst();
      if !items[i].ValidCreate() || d !in conflicts { return false, false; }
      var keptNames := KeptConflicts(conflicts[d], kept);
      if keptNames != [] {
        items[i] := items[i].Refuse(MacKept(keptNames, conflicts[d]));
      } else {
        items[i] := items[i].Refuse(CaseVariant(conflicts[d]));
      }
      return true, keptNames != [];
    }

    // The creates of one pass of the case rule.
    method RefuseCreates(conflicts: map<Name, seq<Conflict>>) returns (refused: set<Name>)
      requires Decides(c, items[..], conflicts)
      modifies items, this`macCreates
      ensures items[..] == JudgeCases(c, old(items[..]), kept)
      ensures refused == CaseRefusals(c, Elems(old(items[..])))
      ensures macCreates == old(macCreates) + MacRefusals(c, Elems(old(items[..])), kept)
    {
      ghost var was := items[..];
      ghost var es := Elems(was);
      refused := {};
      var forMac := {};
      var i := 0;
      while i < items.Length
        invariant 0 <= i <= items.Length == |was|
        invariant forall j | 0 <= j < i :: items[j] == JudgeCase(c, es, kept, was[j])
        invariant forall j | i <= j < items.Length :: items[j] == was[j]
        invariant macCreates == old(macCreates)
        invariant refused == RefusedBelow(c, was, i) && forMac == MacRefusedBelow(c, was, kept, i)
      {
        BelowStep(c, was, kept, i);
        var d := items[i].Dst();
        var refuses, mac := TryRefuse(i, conflicts, es);
        if mac { forMac := forMac + {d}; }
        if refuses { refused := refused + {d}; }
        i := i + 1;
      }
      assert items[..] == JudgeCases(c, was, kept);
      RefusalsByIndex(c, was, kept);
      macCreates := macCreates + forMac;
    }

    // One entry of the pairing; whether it was kept for the Mac rule.
    method RefuseHalf(i: nat, byCase: map<Name, Name>, byCanon: map<Name, Name>, rewritten: set<Name>,
                      refused: set<Name>, forMac: set<Name>, ghost es: set<Item>) returns (mac: bool)
      requires i < items.Length && rewritten == Written(es)
      requires SmallestByKey(byCase, c.keys.caseOf, refused) && SmallestByKey(byCanon, c.keys.canonOf, refused)
      modifies items
      ensures items[..] == old(items[..])[i := JudgePaired(c, es, refused, forMac, old(items[i]))]
      ensures mac == KeptForMac(c, es, refused, forMac, old(items[i]))
    {
      var d := items[i].Dst();
      if !items[i].ValidDelete() || d !in c.remote || d in rewritten { return false; }
      SmallerIsSmallest(c.keys, refused, byCase, byCanon, d);
      var x := PickSmaller(c.keys, byCase, byCanon, d);
      if x.None? { return false; }
      mac := x.value in forMac;
      items[i] := items[i].Refuse(
        if mac then MacPaired(x.value) else RenameKept(x.value, c.keys.caseOf(d) == c.keys.caseOf(x.value)));
    }

    // The held rename halves of the refused creates.
    method RefusePaired(refused: set<Name>, forMac: set<Name>)
      modifies items, this`kept
      ensures items[..] == JudgePairs(c, old(items[..]), refused, forMac)
      ensures kept == old(kept) + NewlyKept(c, Elems(old(items[..])), refused, forMac)
    {
      ghost var was := items[..];
      ghost var es := Elems(was);
      var byCase := IndexByKey(c.keys.caseOf, refused);
      var byCanon := IndexByKey(c.keys.canonOf, refused);
      var rewritten := ComputeWritten(items[..]);
      var i := 0;
      while i < items.Length
        invariant 0 <= i <= items.Length
        invariant forall j | 0 <= j < i :: items[j] == JudgePaired(c, es, refused, forMac, was[j])
        invariant forall j | i <= j < items.Length :: items[j] == was[j]
        invariant kept == old(kept) + set j | 0 <= j < i && KeptForMac(c, es, refused, forMac, was[j]) :: was[j].Dst()
      {
        var mac := RefuseHalf(i, byCase, byCanon, rewritten, refused, forMac, es);
        if mac { kept := kept + {items[i].Dst()}; }
        i := i + 1;
      }
      assert items[..] == JudgePairs(c, was, refused, forMac);
      KeptByIndex(c, was, refused, forMac);
    }

    // The conflicts of the valid creates in the set the batch would leave.
    method CreateConflicts() returns (conflicts: map<Name, seq<Conflict>>)
      requires Split(c.keys)
      ensures Decides(c, items[..], conflicts)
      ensures conflicts == map[] <==> CaseStable(c, items[..])
    {
      var caseSet := ComputeFinalSet(c.remote.Keys, items[..]);
      var candidates := Candidates(items[..]);
      conflicts := FindConflicts(c.keys, caseSet, candidates);
      MapDecides(c, items[..], candidates, conflicts);
    }

    // One pass of the case rule; false, and nothing changed, when it is stable.
    method TryCasePass() returns (again: bool)
      requires Split(c.keys)
      modifies items, this`kept, this`macCreates, this`passes
      ensures passes == old(passes) + 1
      ensures again <==> !CaseStable(c, old(items[..]))
      ensures Now() == if again then CasePass(c, old(Now())) else old(Now())
    {
      passes := passes + 1;
      var conflicts := CreateConflicts();
      if conflicts == map[] { return false; }
      var refused := RefuseCreates(conflicts);
      RefusePaired(refused, macCreates);
      return true;
    }

    method SettleCases()
      requires Split(c.keys)
      modifies items, this`kept, this`macCreates, this`passes
      ensures Now() == CaseFixedPoint(c, old(Now()))
      ensures passes <= old(passes) + CreateCount(old(items[..])) + 1
    {
      var again := true;
      PassBound(c, Now());
      while again
        invariant passes + (if again then Passes(c, Now()) else 0) == old(passes) + Passes(c, old(Now()))
        invariant CaseFixedPoint(c, Now()) == CaseFixedPoint(c, old(Now()))
        invariant !again ==> CaseStable(c, items[..])
        decreases ValidCount(items[..]), again
      {
        ghost var p := Now();
        CasePassRefuses(c, p);
        RefusingShrinks(p.items, CasePass(c, p).items);
        again := TryCasePass();
      }
    }

    // Part 1 of the Mac rule: writes.
    method MacRefuseWrites(l: LocalSide) returns (writes: set<Name>, creates: set<Name>)
      requires Split(c.keys)
      modifies items
      ensures items[..] == MacWrites(c, l, old(items[..]))
      ensures writes == RefusedWrites(c, l, Elems(old(items[..])))
        && creates == RefusedCreates(c, l, Elems(old(items[..])))
    {
      var was := items[..];
      ghost var es := Elems(was);
      var tables := BuildTables(c, l, was);
      var i := 0;
      while i < items.Length
        invariant 0 <= i <= items.Length == |was|
        invariant forall j | 0 <= j < i :: items[j] == JudgeMacWrite(c, l, es, was[j])
        invariant forall j | i <= j < items.Length :: items[j] == was[j]
      {
        items[i] := JudgeWithTables(c, l, was, tables, items[i]);
        i := i + 1;
      }
      assert items[..] == MacWrites(c, l, was);
      writes, creates := NewlyRefused(was, items[..]);
      MacRefusalsByIndex(c, l, was);
    }

    // Part 2, by exact name.
    method MacRefuseExact(writes: set<Name>)
      modifies items
      ensures items[..] == MacExacts(old(items[..]), writes)
    {
      ghost var was := items[..];
      var i := 0;
      while i < items.Length
        invariant 0 <= i <= items.Length == |was|
        invariant forall j | 0 <= j < i :: items[j] == JudgeMacExact(writes, was[j])
        invariant forall j | i <= j < items.Length :: items[j] == was[j]
      {
        if items[i].ValidDelete() && items[i].Dst() in writes {
          items[i] := items[i].Refuse(MacPaired(items[i].Dst()));
        }
        i := i + 1;
      }
      assert items[..] == MacExacts(was, writes);
    }

    // One entry of part 3.
    method RefuseDelete(i: nat, l: LocalSide, localHalf: map<Name, seq<Conflict>>, ghost cands: seq<Name>)
      requires i < items.Length && IsConflictMap(c.keys, l.refs, cands, localHalf)
      requires items[i].ValidDelete() ==> forall tr | tr in TrackingOf(l, items[i].Dst()) :: tr in cands
      modifies items
      ensures items[..] == old(items[..])[i := JudgeMacDelete(c, l, old(items[i]))]
    {
      if items[i].ValidDelete() {
        var clauses := LocalDeleteClauses(c, l, localHalf, cands, items[i].Dst());
        if clauses != [] { items[i] := items[i].Refuse(MacDelete(clauses)); }
      }
    }

    // Part 3: deletes.
    method MacRefuseDeletes(l: LocalSide)
      requires Split(c.keys)
      modifies items
      ensures items[..] == MacDeletes(c, l, old(items[..]))
    {
      ghost var was := items[..];
      var tracked := DeleteTracked(l, items[..]);
      var cands := SortNames(tracked);
      var localHalf := FindConflicts(c.keys, l.refs, cands);
      var i := 0;
      while i < items.Length
        invariant 0 <= i <= items.Length == |was|
        invariant forall j | 0 <= j < i :: items[j] == JudgeMacDelete(c, l, was[j])
        invariant forall j | i <= j < items.Length :: items[j] == was[j]
      {
        assert was[i] == items[i];
        RefuseDelete(i, l, localHalf, cands);
        i := i + 1;
      }
      assert items[..] == MacDeletes(c, l, was);
    }

    // The three parts once; whether they refused anything.
    method TryMacPass(l: LocalSide) returns (refusedAny: bool)
      requires Split(c.keys)
      modifies items, this`kept
      ensures Now() == MacPass(c, l, old(Now()))
      ensures refusedAny <==> items[..] != old(items[..])
    {
      ghost var p := Now();
      var before, keptBefore := items[..], kept;
      var writes, creates := MacRefuseWrites(l);
      MacRefuseExact(writes);
      ghost var exact := items[..];
      if creates != {} {
        RefusePaired(creates, creates);
      } else {
        NoCreatesNoPairs(c, exact);
      }
      MacRefuseDeletes(l);
      var newly;
      newly, refusedAny := Compare(before, items[..]);
      kept := keptBefore + newly;
    }

    // One round of the outer loop; whether the Mac rule refused anything.
    method OneRound() returns (again: bool)
      requires Split(c.keys)
      modifies items, this`kept, this`macCreates, this`passes, this`rounds
      ensures rounds == old(rounds) + 1
      ensures Now() == AfterRound(c, old(Now())) && again == GoesOn(c, old(Now()))
    {
      FolderPreflight();
      SettleCases();
      again := false;
      if c.local.Some? { again := TryMacPass(c.local.value); }
    }

    // All of phase 2 after the first loop.
    method Settle()
      requires Split(c.keys)
      modifies items, this`kept, this`macCreates, this`passes, this`rounds
      ensures Now() == Phase2.Settle(c, old(Now()))
      ensures rounds <= old(rounds) + ValidCount(old(items[..])) + 1
    {
      var again := true;
      RoundBound(c, Now());
      while again
        invariant rounds + (if again then Rounds(c, Now()) else 0) == old(rounds) + Rounds(c, old(Now()))
        invariant (if again then Phase2.Settle(c, Now()) else Now()) == Phase2.Settle(c, old(Now()))
        decreases ValidCount(items[..]), again
      {
        SettleUnfolds(c, Now());
        again := OneRound();
      }
    }
  }

  // What a round of the outer loop leaves, and whether another follows.
  ghost function AfterRound(c: Context, p: Plan): Plan
  {
    if c.local.None? then Round(c, p) else MacPass(c, c.local.value, Round(c, p))
  }

  ghost predicate GoesOn(c: Context, p: Plan)
  {
    c.local.Some? && MacPass(c, c.local.value, Round(c, p)).items != Round(c, p).items
  }

  lemma SettleUnfolds(c: Context, p: Plan)
    ensures GoesOn(c, p) ==>
      && Phase2.Settle(c, p) == Phase2.Settle(c, AfterRound(c, p)) && Rounds(c, p) == 1 + Rounds(c, AfterRound(c, p))
      && ValidCount(AfterRound(c, p).items) < ValidCount(p.items)
    ensures ValidCount(AfterRound(c, p).items) <= ValidCount(p.items)
    ensures !GoesOn(c, p) ==> Phase2.Settle(c, p) == AfterRound(c, p) && Rounds(c, p) == 1
  {
    RoundShrinks(c, p);
  }

  lemma RoundShrinks(c: Context, p: Plan)
    ensures ValidCount(AfterRound(c, p).items) <= ValidCount(p.items)
    ensures GoesOn(c, p) ==> ValidCount(AfterRound(c, p).items) < ValidCount(p.items)
  {
    RoundRefuses(c, p);
    if c.local.Some? {
      var q := Round(c, p);
      MacPassRefuses(c, c.local.value, q);
      RefusingShrinks(q.items, MacPass(c, c.local.value, q).items);
    }
  }

  ghost predicate KeptForMac(c: Context, es: set<Item>, refused: set<Name>, forMac: set<Name>, e: Item)
  {
    e.v.Valid? && JudgePaired(c, es, refused, forMac, e).v.Refused?
      && JudgePaired(c, es, refused, forMac, e).v.why.MacPaired?
  }

  ghost function RefusedBelow(c: Context, items: seq<Item>, n: nat): set<Name>
    requires n <= |items|
  {
    set j | 0 <= j < n && CaseRefuses(c, Elems(items), items[j]) :: items[j].Dst()
  }

  ghost function MacRefusedBelow(c: Context, items: seq<Item>, kept: set<Name>, n: nat): set<Name>
    requires n <= |items|
  {
    set j | 0 <= j < n && MacRefuses(c, Elems(items), kept, items[j]) :: items[j].Dst()
  }

  // The entries of a pass the Mac rule is to blame for.
  ghost predicate MacRefuses(c: Context, es: set<Item>, kept: set<Name>, e: Item)
  {
    CaseRefuses(c, es, e) && KeptConflicts(CaseConflictsOf(c, es, e.Dst()), kept) != []
  }

  lemma BelowStep(c: Context, items: seq<Item>, kept: set<Name>, n: nat)
    requires n < |items|
    ensures var e := items[n];
            && RefusedBelow(c, items, n + 1) == RefusedBelow(c, items, n)
              + (if CaseRefuses(c, Elems(items), e) then {e.Dst()} else {})
            && MacRefusedBelow(c, items, kept, n + 1) == MacRefusedBelow(c, items, kept, n) +
                 (if MacRefuses(c, Elems(items), kept, e) then {e.Dst()} else {})
  {
  }

  lemma RefusalsByIndex(c: Context, items: seq<Item>, kept: set<Name>)
    ensures CaseRefusals(c, Elems(items)) == RefusedBelow(c, items, |items|)
    ensures MacRefusals(c, Elems(items), kept) == MacRefusedBelow(c, items, kept, |items|)
  {
    forall e | e in Elems(items) ensures exists j | 0 <= j < |items| :: items[j] == e {
    }
  }

  lemma KeptByIndex(c: Context, items: seq<Item>, refused: set<Name>, forMac: set<Name>)
    ensures NewlyKept(c, Elems(items), refused, forMac) ==
              set j | 0 <= j < |items| && KeptForMac(c, Elems(items), refused, forMac, items[j]) :: items[j].Dst()
  {
    forall e | e in Elems(items) ensures exists j | 0 <= j < |items| :: items[j] == e {
    }
  }

  ghost function NewlyRefusedNames(before: seq<Item>, after: seq<Item>, n: nat): set<Name>
    requires n <= |before| == |after|
  {
    set j | 0 <= j < n && before[j].v.Valid? && after[j].v.Refused? :: before[j].Dst()
  }

  ghost function NewlyRefusedCreates(before: seq<Item>, after: seq<Item>, n: nat): set<Name>
    requires n <= |before| == |after|
  {
    set j | 0 <= j < n && before[j].v.Valid? && after[j].v.Refused? && before[j].create :: before[j].Dst()
  }

  // The names a pass refused, and those of them that are creates.
  method NewlyRefused(before: seq<Item>, after: seq<Item>) returns (names: set<Name>, creates: set<Name>)
    requires |before| == |after|
    ensures names == NewlyRefusedNames(before, after, |before|)
      && creates == NewlyRefusedCreates(before, after, |before|)
  {
    names, creates := {}, {};
    for i := 0 to |before|
      invariant names == NewlyRefusedNames(before, after, i) && creates == NewlyRefusedCreates(before, after, i)
    {
      if before[i].v.Valid? && after[i].v.Refused? {
        names := names + {before[i].Dst()};
        if before[i].create { creates := creates + {before[i].Dst()}; }
      }
    }
  }

  lemma MacRefusalsByIndex(c: Context, l: LocalSide, items: seq<Item>)
    ensures RefusedWrites(c, l, Elems(items)) == NewlyRefusedNames(items, MacWrites(c, l, items), |items|)
    ensures RefusedCreates(c, l, Elems(items)) == NewlyRefusedCreates(items, MacWrites(c, l, items), |items|)
  {
    forall e | e in Elems(items) ensures exists j | 0 <= j < |items| :: items[j] == e {
    }
    forall j | 0 <= j < |items|
      ensures items[j].v.Valid? && MacWrites(c, l, items)[j].v.Refused? <==>
        MacRefusesWrite(c, l, Elems(items), items[j])
      ensures items[j] in Elems(items)
    {
      assert MacWrites(c, l, items)[j] == JudgeMacWrite(c, l, Elems(items), items[j]);
    }
  }

  lemma NoCreatesNoPairs(c: Context, items: seq<Item>)
    ensures MacRenames(c, items, {}) == items
  {
    forall i | 0 <= i < |items| ensures JudgePaired(c, Elems(items), {}, {}, items[i]) == items[i] {
    }
  }

  // The deletes refused on the way, and whether anything was.
  method Compare(before: seq<Item>, after: seq<Item>) returns (deletes: set<Name>, changed: bool)
    requires |before| == |after|
    ensures deletes == DeletesRefused(before, after) && (changed <==> after != before)
  {
    deletes, changed := {}, false;
    for i := 0 to |before|
      invariant deletes == set j | 0 <= j < i && before[j].ValidDelete() && after[j].v.Refused? :: before[j].Dst()
      invariant changed <==> exists j | 0 <= j < i :: after[j] != before[j]
    {
      if before[i].ValidDelete() && after[i].v.Refused? { deletes := deletes + {before[i].Dst()}; }
      if after[i] != before[i] { changed := true; }
    }
  }

  // What part 1 looks entries up in.
  datatype Tables = Tables(owners: map<Name, set<Name>>, deleters: map<Name, set<Name>>,
                           byTracking: map<Name, seq<Conflict>>, updates: seq<Name>,
                           remoteHalf: map<Name, seq<Conflict>>)

  ghost predicate TablesFor(c: Context, l: LocalSide, items: seq<Item>, t: Tables)
  {
    var es := Elems(items);
    && TracksTo(t.owners, l, Written(es)) && TracksTo(t.deleters, l, Deleted(es))
    && IsConflictMap(c.keys, TrackedSet(l, es), SortedNames(t.owners.Keys), t.byTracking)
    && IsConflictMap(c.keys, FinalSet(c.remote.Keys, es), t.updates, t.remoteHalf)
    && forall i | 0 <= i < |items| && items[i].ValidWrite() && !items[i].create :: items[i].Dst() in t.updates
  }

  method BuildTables(c: Context, l: LocalSide, items: seq<Item>) returns (t: Tables)
    requires Split(c.keys)
    ensures TablesFor(c, l, items, t)
  {
    var owners, deleters := BuildTracking(l, items);
    TablesMeanOwners(l, Elems(items), owners, deleters);
    var tracked := SortNames(owners.Keys);
    var byTracking := FindConflicts(c.keys, l.refs + owners.Keys + deleters.Keys, tracked);
    var final := ComputeFinalSet(c.remote.Keys, items);
    var updates := Updates(items);
    var remoteHalf := FindConflicts(c.keys, final, updates);
    t := Tables(owners, deleters, byTracking, updates, remoteHalf);
  }

  method JudgeWithTables(c: Context, l: LocalSide, ghost items: seq<Item>, t: Tables, e: Item) returns (judged: Item)
    requires TablesFor(c, l, items, t) && e in items
    ensures judged == JudgeMacWrite(c, l, Elems(items), e)
  {
    judged := e;
    if e.ValidWrite() {
      var clauses := LocalClauses(c, l, Elems(items), t.owners, t.deleters, t.byTracking, e);
      if !e.create { ConflictMapAt(c.keys, FinalSet(c.remote.Keys, Elems(items)), t.updates, t.remoteHalf, e.Dst()); }
      var remote := if e.create then [] else ConflictsAt(t.remoteHalf, e.Dst());
      if clauses != [] || remote != [] { judged := e.Refuse(MacWrite(clauses, remote)); }
    }
  }

  // Every tracking ref of a still-valid delete.
  method DeleteTracked(l: LocalSide, items: seq<Item>) returns (trs: set<Name>)
    ensures forall i, tr | 0 <= i < |items| && items[i].ValidDelete() && tr in TrackingOf(l, items[i].Dst()) ::
      tr in trs
  {
    trs := {};
    for i := 0 to |items|
      invariant forall j, tr | 0 <= j < i && items[j].ValidDelete() && tr in TrackingOf(l, items[j].Dst()) :: tr in trs
    {
      if items[i].ValidDelete() { trs := trs + TrackingOf(l, items[i].Dst()); }
    }
  }

  // The whole of phase 2.
  method DecideBatch(c: Context, ups: seq<Update>) returns (items: seq<Item>)
    requires Split(c.keys)
    ensures items == Decide(c, ups)
  {
    var start := ValidateAll(c, ups);
    var v := new Verdicts(c, start);
    v.Settle();
    items := v.items[..];
  }
}
