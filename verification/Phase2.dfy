/** Phase 2 of a push as functions of the whole batch (push.go, phase 2;
    macpush.go): each check judges every entry against sets read off the batch,
    so its result cannot depend on the order of the entries. Module Planner
    holds the loops that compute it. */
module Phase2 {
  import opened Names
  import opened Wrappers
  import opened Keys
  import opened CaseConflicts
  import opened Batch

  // ---- the first loop: each entry by itself

  // Some other write of the batch has the same destination.
  predicate Duplicated(ups: seq<Update>, dst: Name)
  {
    exists i, j :: 0 <= i < j < |ups| && ups[i].src != [] && ups[j].src != [] && ups[i].dst == dst && ups[j].dst == dst
  }

  // The skipped entry at exactly this path, the last one listed.
  function OccupantAt(skipped: seq<Skipped>, p: Name): Option<Skipped>
  {
    if skipped == [] then None
    else if skipped[|skipped| - 1].path == p then Some(skipped[|skipped| - 1])
    else OccupantAt(skipped[..|skipped| - 1], p)
  }

  // The nearest skipped path strictly above dst.
  function OccupiedAncestor(skipped: seq<Skipped>, dst: Name): Option<Skipped>
    decreases |dst|
  {
    var p := ParentOf(dst);
    if p == [] then None
    else if OccupantAt(skipped, p).Some? then OccupantAt(skipped, p)
    else OccupiedAncestor(skipped, p)
  }

  // The first skipped path listed strictly beneath dst.
  function OccupiedDescendant(skipped: seq<Skipped>, dst: Name): Option<Skipped>
  {
    if skipped == [] then None
    else if Above(dst, skipped[0].path) then Some(skipped[0])
    else OccupiedDescendant(skipped[1..], dst)
  }

  // A skipped path at, above or beneath dst, in that order.
  function Occupancy(skipped: seq<Skipped>, dst: Name): Option<Skipped>
  {
    if OccupantAt(skipped, dst).Some? then OccupantAt(skipped, dst)
    else if OccupiedAncestor(skipped, dst).Some? then OccupiedAncestor(skipped, dst)
    else OccupiedDescendant(skipped, dst)
  }

  function JudgeDelete(c: Context, u: Update): Verdict
  {
    if OccupantAt(c.skipped, u.dst).Some? then Refused(Occupied(OccupantAt(c.skipped, u.dst).value))
    else if u.dst !in c.remote then Valid
    else if IsBranch(u.dst) && c.head.HeadUnreadable? then Refused(HeadNotReadable)
    else if IsBranch(u.dst) && c.head == HeadAt(u.dst) then Refused(IsHead)
    else Valid
  }

  // The namespace rules: branches need commits and fast-forwards, anything
  // else that exists needs force.
  function JudgeTransition(c: Context, u: Update, sha: Sha): Verdict
  {
    var exists' := u.dst in c.remote;
    if IsBranch(u.dst) then
      match c.git.typeOf(sha)
      case None => Refused(UnknownType)
      case Some(NotCommit) => Refused(BranchNotCommit)
      case Some(Commit) =>
        if !exists' || u.force then Valid
        else if !c.git.has(c.remote[u.dst]) then Refused(FetchFirst)
        else
          match c.git.ancestor(c.remote[u.dst], sha)
          case None => Refused(AncestryUnknown)
          case Some(anc) => if anc then Valid else Refused(NonFastForward)
    else if !exists' || u.force then Valid
    else if IsTag(u.dst) then Refused(TagNeedsForce)
    else Refused(OtherNeedsForce)
  }

  function JudgeWrite(c: Context, duplicated: bool, u: Update): Item
  {
    var refused := (why: Reason) => Item(u, false, false, "", Refused(why));
    if duplicated then refused(DuplicateDestination)
    else if Occupancy(c.skipped, u.dst).Some? then refused(Occupied(Occupancy(c.skipped, u.dst).value))
    else
      match c.git.resolve(u.src)
      case None => refused(Unresolved)
      case Some(sha) =>
        match JudgeTransition(c, u, sha)
        case Refused(why) => refused(why)
        case Valid => Item(u, false, u.dst !in c.remote, sha, Valid)
  }

  function Judge(c: Context, duplicated: bool, u: Update): Item
  {
    if !GoodDestination(c.rules, u.dst) then Item(u, false, false, "", Refused(InvalidDestination))
    else if u.src == [] then Item(u, true, false, "", JudgeDelete(c, u))
    else JudgeWrite(c, duplicated, u)
  }

  function JudgeEntry(c: Context, ups: seq<Update>, u: Update): Item
  {
    Judge(c, Duplicated(ups, u.dst), u)
  }

  function Validate(c: Context, ups: seq<Update>): (items: seq<Item>)
    ensures |items| == |ups|
    ensures forall i | 0 <= i < |ups| :: items[i] == JudgeEntry(c, ups, ups[i])
  {
    seq(|ups|, i requires 0 <= i < |ups| => JudgeEntry(c, ups, ups[i]))
  }

  // ---- the directory/file preflight

  function FolderConflicts(final: set<Name>, dst: Name): set<Name>
  {
    set o | o in final && o != dst && Nested(o, dst)
  }

  function JudgeFolders(c: Context, es: set<Item>, e: Item): Item
  {
    var conflicts := FolderConflicts(FinalSet(c.remote.Keys, es), e.Dst());
    if e.ValidCreate() && conflicts != {} then e.Refuse(FolderConflict(MinName(conflicts))) else e
  }

  function FolderPass(c: Context, items: seq<Item>): (items': seq<Item>)
    ensures |items'| == |items|
    ensures forall i | 0 <= i < |items| :: items'[i] == JudgeFolders(c, Elems(items), items[i])
  {
    seq(|items|, i requires 0 <= i < |items| => JudgeFolders(c, Elems(items), items[i]))
  }

  // ---- the case rule and its rename pairing

  // The batch and what the Mac rule has done to it so far: the deletes it
  // kept, and the creates refused because of one.
  datatype Plan = Plan(items: seq<Item>, kept: set<Name>, macCreates: set<Name>)

  function CaseConflictsOf(c: Context, es: set<Item>, dst: Name): seq<Conflict>
  {
    ConflictsIn(c.keys, FinalSet(c.remote.Keys, es), dst)
  }

  // The conflicting refs that are deletes the Mac rule kept, in order.
  function KeptConflicts(cs: seq<Conflict>, kept: set<Name>): seq<Name>
  {
    if cs == [] then []
    else (if cs[0].ref in kept then [cs[0].ref] else []) + KeptConflicts(cs[1..], kept)
  }

  predicate CaseRefuses(c: Context, es: set<Item>, e: Item)
  {
    e.ValidCreate() && CaseConflictsOf(c, es, e.Dst()) != []
  }

  function JudgeCase(c: Context, es: set<Item>, kept: set<Name>, e: Item): Item
  {
    if CaseRefuses(c, es, e) then
      var cs := CaseConflictsOf(c, es, e.Dst());
      if KeptConflicts(cs, kept) != [] then e.Refuse(MacKept(KeptConflicts(cs, kept), cs))
      else e.Refuse(CaseVariant(cs))
    else e
  }

  // The creates this pass refuses, and those of them refused for the Mac rule.
  function CaseRefusals(c: Context, es: set<Item>): set<Name>
  {
    set e | e in es && CaseRefuses(c, es, e) :: e.Dst()
  }

  function MacRefusals(c: Context, es: set<Item>, kept: set<Name>): set<Name>
  {
    set e | e in es && CaseRefuses(c, es, e) && KeptConflicts(CaseConflictsOf(c, es, e.Dst()), kept) != [] :: e.Dst()
  }

  function JudgeCases(c: Context, items: seq<Item>, kept: set<Name>): (items': seq<Item>)
    ensures |items'| == |items|
    ensures forall i | 0 <= i < |items| :: items'[i] == JudgeCase(c, Elems(items), kept, items[i])
  {
    seq(|items|, i requires 0 <= i < |items| => JudgeCase(c, Elems(items), kept, items[i]))
  }

  predicate SharesKey(k: Keys, a: Name, b: Name)
  {
    k.caseOf(a) == k.caseOf(b) || k.canonOf(a) == k.canonOf(b)
  }

  // The smallest refused create that d is the rename half of.
  function PairedCreate(k: Keys, refused: set<Name>, d: Name): Option<Name>
  {
    var xs := set x | x in refused && SharesKey(k, x, d);
    if xs == {} then None else Some(MinName(xs))
  }

  // A delete of a ref the remote holds that no valid write puts back.
  predicate HeldDelete(c: Context, es: set<Item>, e: Item)
  {
    e.ValidDelete() && e.Dst() in c.remote && e.Dst() !in Written(es)
  }

  // es is the batch after the creates were judged.
  function JudgePaired(c: Context, es: set<Item>, refused: set<Name>, macCreates: set<Name>, e: Item): Item
  {
    if HeldDelete(c, es, e) && PairedCreate(c.keys, refused, e.Dst()).Some? then
      var x := PairedCreate(c.keys, refused, e.Dst()).value;
      if x in macCreates then e.Refuse(MacPaired(x))
      else e.Refuse(RenameKept(x, c.keys.caseOf(e.Dst()) == c.keys.caseOf(x)))
    else e
  }

  function JudgePairs(c: Context, items: seq<Item>, refused: set<Name>, macCreates: set<Name>): (items': seq<Item>)
    ensures |items'| == |items|
    ensures forall i | 0 <= i < |items| :: items'[i] == JudgePaired(c, Elems(items), refused, macCreates, items[i])
  {
    seq(|items|, i requires 0 <= i < |items| => JudgePaired(c, Elems(items), refused, macCreates, items[i]))
  }

  // The deletes just kept for the Mac rule.
  function NewlyKept(c: Context, es: set<Item>, refused: set<Name>, macCreates: set<Name>): set<Name>
  {
    set e | e in es && JudgePaired(c, es, refused, macCreates, e).v.Refused?
         && JudgePaired(c, es, refused, macCreates, e).v.why.MacPaired? && e.v.Valid? :: e.Dst()
  }

  function CasePass(c: Context, p: Plan): Plan
  {
    var es := Elems(p.items);
    var refused := CaseRefusals(c, es);
    var macCreates := p.macCreates + MacRefusals(c, es, p.kept);
    var judged := JudgeCases(c, p.items, p.kept);
    Plan(JudgePairs(c, judged, refused, macCreates),
         p.kept + NewlyKept(c, Elems(judged), refused, macCreates), macCreates)
  }

  // Nothing left for the case rule to refuse.
  predicate CaseStable(c: Context, items: seq<Item>)
  {
    CaseRefusals(c, Elems(items)) == {}
  }

  lemma JudgeCasesRefuses(c: Context, items: seq<Item>, kept: set<Name>)
    ensures OnlyRefuses(items, JudgeCases(c, items, kept))
    ensures !CaseStable(c, items) ==> JudgeCases(c, items, kept) != items
  {
    var es, judged := Elems(items), JudgeCases(c, items, kept);
    forall i | 0 <= i < |items|
      ensures judged[i] == items[i] || (items[i].v.Valid? && judged[i] == items[i].Refuse(judged[i].v.why))
    {
      JudgedOnce(c, es, kept, items[i]);
    }
    if !CaseStable(c, items) {
      var d :| d in CaseRefusals(c, es);
      var e :| e in es && CaseRefuses(c, es, e) && e.Dst() == d;
      var i :| 0 <= i < |items| && items[i] == e;
      CaseRefusalShows(c, es, kept, e);
    }
  }

  lemma JudgedOnce(c: Context, es: set<Item>, kept: set<Name>, e: Item)
    ensures var j := JudgeCase(c, es, kept, e); j == e || (e.v.Valid? && j.v.Refused? && j == e.Refuse(j.v.why))
  {
  }

  lemma CaseRefusalShows(c: Context, es: set<Item>, kept: set<Name>, e: Item)
    requires CaseRefuses(c, es, e)
    ensures JudgeCase(c, es, kept, e).v.Refused? && e.v.Valid?
  {
  }

  lemma JudgePairsRefuses(c: Context, items: seq<Item>, refused: set<Name>, macCreates: set<Name>)
    ensures OnlyRefuses(items, JudgePairs(c, items, refused, macCreates))
  {
  }

  lemma CasePassRefuses(c: Context, p: Plan)
    ensures OnlyRefuses(p.items, CasePass(c, p).items)
    ensures !CaseStable(c, p.items) ==> CasePass(c, p).items != p.items
  {
    var es := Elems(p.items);
    var refused := CaseRefusals(c, es);
    var macCreates := p.macCreates + MacRefusals(c, es, p.kept);
    var judged := JudgeCases(c, p.items, p.kept);
    JudgeCasesRefuses(c, p.items, p.kept);
    JudgePairsRefuses(c, judged, refused, macCreates);
    var after := JudgePairs(c, judged, refused, macCreates);
    OnlyRefusesTransitive(p.items, judged, after);
    if judged != p.items { RefusingTwice(p.items, judged, after); }
  }

  lemma RefusingTwice(a: seq<Item>, b: seq<Item>, c: seq<Item>)
    requires OnlyRefuses(a, b) && OnlyRefuses(b, c) && a != b
    ensures a != c
  {
    var i :| 0 <= i < |a| && a[i] != b[i];
    assert c[i] == b[i] || (b[i].v.Valid? && c[i].v.Refused?);
  }

  function CaseFixedPoint(c: Context, p: Plan): Plan
    decreases ValidCount(p.items)
  {
    if CaseStable(c, p.items) then p
    else
      CasePassRefuses(c, p);
      RefusingShrinks(p.items, CasePass(c, p).items);
      CaseFixedPoint(c, CasePass(c, p))
  }

  // ---- the Mac push rule

  function TrackingOf(l: LocalSide, dst: Name): set<Name>
  {
    if dst in l.tracking then l.tracking[dst] else {}
  }

  // The valid writes, and the valid deletes, whose tracking ref tr is.
  function Owners(l: LocalSide, es: set<Item>, tr: Name): set<Name>
  {
    set e | e in es && e.ValidWrite() && tr in TrackingOf(l, e.Dst()) :: e.Dst()
  }

  function Deleters(l: LocalSide, es: set<Item>, tr: Name): set<Name>
  {
    set e | e in es && e.ValidDelete() && tr in TrackingOf(l, e.Dst()) :: e.Dst()
  }

  // Local refs and every tracking ref of a still-valid entry.
  function TrackedSet(l: LocalSide, es: set<Item>): set<Name>
  {
    l.refs + set e, tr | e in es && e.v.Valid? && tr in TrackingOf(l, e.Dst()) :: tr
  }

  function SmallestOther(names: set<Name>, x: Name): Option<Name>
  {
    if names - {x} == {} then None else Some(MinName(names - {x}))
  }

  // The conflicts of one tracking ref of write e that count: a local ref,
  // another write's tracking ref, or, for an update, a delete's.
  function Meetings(l: LocalSide, es: set<Item>, e: Item, cs: seq<Conflict>): seq<Meeting>
  {
    if cs == [] then []
    else
      var other := SmallestOther(Owners(l, es, cs[0].ref), e.Dst());
      var deleter := if e.create then None else SmallestOther(Deleters(l, es, cs[0].ref), e.Dst());
      var rest := Meetings(l, es, e, cs[1..]);
      if cs[0].ref in l.refs || other.Some? || deleter.Some? then [Meeting(cs[0], other, deleter)] + rest
      else rest
  }

  function WriteClauses(c: Context, l: LocalSide, es: set<Item>, e: Item, trs: seq<Name>): seq<Clause>
  {
    if trs == [] then []
    else
      var meets := Meetings(l, es, e, ConflictsIn(c.keys, TrackedSet(l, es), trs[0]));
      (if meets != [] then [Clause(trs[0], meets)] else []) + WriteClauses(c, l, es, e, trs[1..])
  }

  // Part 1(a): what e's tracking refs would meet locally.
  function LocalHalf(c: Context, l: LocalSide, es: set<Item>, e: Item): seq<Clause>
  {
    WriteClauses(c, l, es, e, SortedNames(TrackingOf(l, e.Dst())))
  }

  // Part 1(b): what an update would leave beside itself on the remote.
  function RemoteHalf(c: Context, es: set<Item>, e: Item): seq<Conflict>
  {
    if e.create then [] else CaseConflictsOf(c, es, e.Dst())
  }

  predicate MacRefusesWrite(c: Context, l: LocalSide, es: set<Item>, e: Item)
  {
    e.ValidWrite() && (LocalHalf(c, l, es, e) != [] || RemoteHalf(c, es, e) != [])
  }

  function JudgeMacWrite(c: Context, l: LocalSide, es: set<Item>, e: Item): Item
  {
    if MacRefusesWrite(c, l, es, e) then e.Refuse(MacWrite(LocalHalf(c, l, es, e), RemoteHalf(c, es, e))) else e
  }

  function MacWrites(c: Context, l: LocalSide, items: seq<Item>): (items': seq<Item>)
    ensures |items'| == |items|
    ensures forall i | 0 <= i < |items| :: items'[i] == JudgeMacWrite(c, l, Elems(items), items[i])
  {
    seq(|items|, i requires 0 <= i < |items| => JudgeMacWrite(c, l, Elems(items), items[i]))
  }

  function RefusedWrites(c: Context, l: LocalSide, es: set<Item>): set<Name>
  {
    set e | e in es && MacRefusesWrite(c, l, es, e) :: e.Dst()
  }

  function RefusedCreates(c: Context, l: LocalSide, es: set<Item>): set<Name>
  {
    set e | e in es && MacRefusesWrite(c, l, es, e) && e.create :: e.Dst()
  }

  // Part 2, by exact name: the delete half of a replacement.
  function JudgeMacExact(writes: set<Name>, e: Item): Item
  {
    if e.ValidDelete() && e.Dst() in writes then e.Refuse(MacPaired(e.Dst())) else e
  }

  function MacExacts(items: seq<Item>, writes: set<Name>): (items': seq<Item>)
    ensures |items'| == |items|
    ensures forall i | 0 <= i < |items| :: items'[i] == JudgeMacExact(writes, items[i])
  {
    seq(|items|, i requires 0 <= i < |items| => JudgeMacExact(writes, items[i]))
  }

  // Part 2, by key: the delete half of a rename to a refused create.
  function MacRenames(c: Context, items: seq<Item>, creates: set<Name>): seq<Item>
  {
    JudgePairs(c, items, creates, creates)
  }

  // Part 3: a delete whose tracking ref shares its file with a local ref.
  function DeleteClauses(c: Context, l: LocalSide, trs: seq<Name>): seq<Clause>
  {
    if trs == [] then []
    else
      var cs := ConflictsIn(c.keys, l.refs, trs[0]);
      (if cs != [] then [Clause(trs[0], Plain(cs))] else []) + DeleteClauses(c, l, trs[1..])
  }

  function Plain(cs: seq<Conflict>): (ms: seq<Meeting>)
    ensures |ms| == |cs|
  {
    seq(|cs|, i requires 0 <= i < |cs| => Meeting(cs[i], None, None))
  }

  function DeleteHalf(c: Context, l: LocalSide, dst: Name): seq<Clause>
  {
    DeleteClauses(c, l, SortedNames(TrackingOf(l, dst)))
  }

  function JudgeMacDelete(c: Context, l: LocalSide, e: Item): Item
  {
    if e.ValidDelete() && DeleteHalf(c, l, e.Dst()) != [] then e.Refuse(MacDelete(DeleteHalf(c, l, e.Dst()))) else e
  }

  function MacDeletes(c: Context, l: LocalSide, items: seq<Item>): (items': seq<Item>)
    ensures |items'| == |items|
    ensures forall i | 0 <= i < |items| :: items'[i] == JudgeMacDelete(c, l, items[i])
  {
    seq(|items|, i requires 0 <= i < |items| => JudgeMacDelete(c, l, items[i]))
  }

  // The deletes refused on the way from one batch to another.
  function DeletesRefused(before: seq<Item>, after: seq<Item>): set<Name>
    requires |before| == |after|
  {
    set i | 0 <= i < |before| && before[i].ValidDelete() && after[i].v.Refused? :: before[i].Dst()
  }

  function MacPass(c: Context, l: LocalSide, p: Plan): Plan
  {
    var es := Elems(p.items);
    var one := MacWrites(c, l, p.items);
    var exact := MacExacts(one, RefusedWrites(c, l, es));
    var two := MacRenames(c, exact, RefusedCreates(c, l, es));
    var three := MacDeletes(c, l, two);
    Plan(three, p.kept + DeletesRefused(p.items, three), p.macCreates)
  }

  lemma MacPassRefuses(c: Context, l: LocalSide, p: Plan)
    ensures OnlyRefuses(p.items, MacPass(c, l, p).items)
  {
    var es := Elems(p.items);
    var one := MacWrites(c, l, p.items);
    var exact := MacExacts(one, RefusedWrites(c, l, es));
    var two := MacRenames(c, exact, RefusedCreates(c, l, es));
    var three := MacDeletes(c, l, two);
    assert OnlyRefuses(p.items, one) && OnlyRefuses(one, exact) && OnlyRefuses(exact, two) && OnlyRefuses(two, three);
    OnlyRefusesTransitive(p.items, one, exact);
    OnlyRefusesTransitive(p.items, exact, two);
    OnlyRefusesTransitive(p.items, two, three);
  }

  lemma FolderPassRefuses(c: Context, items: seq<Item>)
    ensures OnlyRefuses(items, FolderPass(c, items))
  {
  }

  lemma {:induction false} CaseFixedPointRefuses(c: Context, p: Plan)
    ensures OnlyRefuses(p.items, CaseFixedPoint(c, p).items)
    ensures CaseStable(c, CaseFixedPoint(c, p).items)
    decreases ValidCount(p.items)
  {
    if !CaseStable(c, p.items) {
      var q := CasePass(c, p);
      CasePassRefuses(c, p);
      RefusingShrinks(p.items, q.items);
      CaseFixedPointRefuses(c, q);
      OnlyRefusesTransitive(p.items, q.items, CaseFixedPoint(c, q).items);
    }
  }

  // ---- the outer loop

  function Round(c: Context, p: Plan): Plan
  {
    CaseFixedPoint(c, p.(items := FolderPass(c, p.items)))
  }

  lemma RoundRefuses(c: Context, p: Plan)
    ensures OnlyRefuses(p.items, Round(c, p).items)
    ensures ValidCount(Round(c, p).items) <= ValidCount(p.items)
  {
    FolderPassRefuses(c, p.items);
    CaseFixedPointRefuses(c, p.(items := FolderPass(c, p.items)));
    OnlyRefusesTransitive(p.items, FolderPass(c, p.items), Round(c, p).items);
    RefusingShrinks(p.items, Round(c, p).items);
  }

  function Settle(c: Context, p: Plan): Plan
    decreases ValidCount(p.items)
  {
    var q := Round(c, p);
    if c.local.None? || MacPass(c, c.local.value, q).items == q.items then q
    else
      RoundRefuses(c, p);
      MacPassRefuses(c, c.local.value, q);
      RefusingShrinks(q.items, MacPass(c, c.local.value, q).items);
      Settle(c, MacPass(c, c.local.value, q))
  }

  // All of phase 2.
  function Decide(c: Context, ups: seq<Update>): seq<Item>
  {
    Settle(c, Plan(Validate(c, ups), {}, {})).items
  }

  lemma {:induction false} SettleRefuses(c: Context, p: Plan)
    ensures OnlyRefuses(p.items, Settle(c, p).items)
    decreases ValidCount(p.items)
  {
    var q := Round(c, p);
    RoundRefuses(c, p);
    if c.local.Some? {
      var r := MacPass(c, c.local.value, q);
      if r.items != q.items {
        MacPassRefuses(c, c.local.value, q);
        RefusingShrinks(q.items, r.items);
        SettleRefuses(c, r);
        OnlyRefusesTransitive(p.items, q.items, r.items);
        OnlyRefusesTransitive(p.items, r.items, Settle(c, r).items);
      }
    }
  }

  lemma JudgeEntryOk(c: Context, ups: seq<Update>, u: Update)
    ensures JudgeEntry(c, ups, u).u == u
    ensures var e := JudgeEntry(c, ups, u);
            e.ValidWrite() ==>
              GoodDestination(c.rules, u.dst) && (e.create <==> u.dst !in c.remote) && u.src != []
                && !Duplicated(ups, u.dst)
  {
  }

  lemma ValidateOk(c: Context, ups: seq<Update>)
    requires ContextOk(c)
    ensures ItemsOk(c, Validate(c, ups))
    ensures forall i | 0 <= i < |ups| :: Validate(c, ups)[i].u == ups[i]
  {
    var items := Validate(c, ups);
    forall i | 0 <= i < |items|
      ensures items[i].u == ups[i]
      ensures items[i].ValidWrite() ==> IsRef(items[i].Dst()) && (items[i].create <==> items[i].Dst() !in c.remote)
      ensures items[i].ValidWrite() ==> ups[i].src != [] && !Duplicated(ups, ups[i].dst)
    {
      JudgeEntryOk(c, ups, ups[i]);
      if items[i].ValidWrite() { GoodIsRef(c.rules, ups[i].dst); }
    }
    forall i, j | 0 <= i < j < |items| && items[i].ValidWrite() && items[j].ValidWrite()
      ensures items[i].Dst() != items[j].Dst()
    {
      assert !Duplicated(ups, ups[i].dst) && ups[i].src != [] && ups[j].src != [];
    }
  }

  lemma DecideOk(c: Context, ups: seq<Update>)
    requires ContextOk(c)
    ensures ItemsOk(c, Decide(c, ups)) && |Decide(c, ups)| == |ups|
    ensures OnlyRefuses(Validate(c, ups), Decide(c, ups))
    ensures forall i | 0 <= i < |ups| :: Decide(c, ups)[i].u == ups[i]
  {
    ValidateOk(c, ups);
    SettleRefuses(c, Plan(Validate(c, ups), {}, {}));
    OnlyRefusesKeepsItemsOk(c, Validate(c, ups), Decide(c, ups));
    OnlyRefusesKeepsUpdates(Validate(c, ups), Decide(c, ups));
  }

  lemma OnlyRefusesKeepsUpdates(a: seq<Item>, b: seq<Item>)
    requires OnlyRefuses(a, b)
    ensures forall i | 0 <= i < |a| ::
      b[i].u == a[i].u && b[i].del == a[i].del && b[i].create == a[i].create && b[i].sha == a[i].sha
  {
    forall i | 0 <= i < |a|
      ensures b[i].u == a[i].u && b[i].del == a[i].del && b[i].create == a[i].create && b[i].sha == a[i].sha
    {
      assert b[i] == a[i] || b[i].(v := Valid) == a[i];
    }
  }
}
