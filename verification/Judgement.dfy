/** What validation approves and why it refuses, and what each check of phase 2
    refuses (push.go, phase 2; macpush.go), said of the results in terms of the
    batch, the remote and the local repository. */
module Judgement {
  import opened Names
  import opened Wrappers
  import opened Keys
  import opened CaseConflicts
  import opened Batch
  import opened Phase2
  import Planner
  import MacSound

  // ---- validation

  // A ref name git and the in-process checks accept, component by component.
  ghost predicate WellAimed(r: Rules, n: Name)
  {
    && REFS + [SLASH] <= n && r.gitOk(n) && r.wholeOk(n)
    && forall p | AboveOrEqual(p, n) :: r.compOk(LeafOf(p))
  }

  // Nothing skipped stands at n, above it or beneath it.
  ghost predicate Free(skipped: seq<Skipped>, n: Name)
  {
    forall x | x in skipped ::
      x.path != n && (x.path != [] ==> !(x.path + [SLASH] <= n)) && !(n + [SLASH] <= x.path)
  }

  ghost predicate WrittenTwice(ups: seq<Update>, i: nat)
    requires i < |ups|
  {
    exists j :: 0 <= j < |ups| && j != i && ups[j].src != [] && ups[j].dst == ups[i].dst
  }

  // u may take its destination to sha: a branch holds commits and only moves
  // forward unless forced; anything else that is there needs force.
  ghost predicate MayMove(c: Context, u: Update, sha: Sha)
  {
    if REFS_HEADS + [SLASH] <= u.dst then
      && c.git.typeOf(sha) == Some(Commit)
      && (u.dst in c.remote && !u.force ==>
            c.git.has(c.remote[u.dst]) && c.git.ancestor(c.remote[u.dst], sha) == Some(true))
    else u.dst in c.remote ==> u.force
  }

  // HEAD is known not to name n, if it could.
  ghost predicate HeadSpares(c: Context, n: Name)
  {
    n in c.remote && REFS_HEADS + [SLASH] <= n ==> c.head.HeadAbsent? || (c.head.HeadAt? && c.head.branch != n)
  }

  lemma WellAimedIff(r: Rules, n: Name)
    ensures GoodDestination(r, n) <==> WellAimed(r, n)
  {
    CleanIff(r, n);
  }

  lemma FreeIff(skipped: seq<Skipped>, n: Name)
    ensures Occupancy(skipped, n).None? <==> Free(skipped, n)
    ensures Occupancy(skipped, n).Some? ==> InTheWay(skipped, n, Occupancy(skipped, n).value)
  {
    Planner.OccupantIff(skipped, n);
    Planner.AncestorIsNearest(skipped, n);
    Planner.DescendantIsFirst(skipped, n);
    if Occupancy(skipped, n).Some? { ItIsInTheWay(skipped, n); }
    if Occupancy(skipped, n).None? {
      forall x | x in skipped ensures x.path != n {
        var i :| 0 <= i < |skipped| && skipped[i] == x;
      }
    }
  }

  ghost predicate InTheWay(skipped: seq<Skipped>, n: Name, x: Skipped)
  {
    x in skipped && (x.path == n || (x.path != [] && x.path + [SLASH] <= n) || n + [SLASH] <= x.path)
  }

  lemma ItIsInTheWay(skipped: seq<Skipped>, n: Name)
    requires Occupancy(skipped, n).Some?
    ensures InTheWay(skipped, n, Occupancy(skipped, n).value)
  {
    Planner.OccupantIff(skipped, n);
    Planner.AncestorIsNearest(skipped, n);
    AncestorNamed(skipped, n);
    Planner.DescendantIsFirst(skipped, n);
  }

  lemma {:induction false} AncestorNamed(skipped: seq<Skipped>, n: Name)
    ensures OccupiedAncestor(skipped, n).Some? ==> OccupiedAncestor(skipped, n).value.path != []
    decreases |n|
  {
    var p := ParentOf(n);
    if p != [] {
      Planner.OccupantIff(skipped, p);
      AncestorNamed(skipped, p);
    }
  }

  lemma TwiceIff(ups: seq<Update>, i: nat)
    requires i < |ups| && ups[i].src != []
    ensures Duplicated(ups, ups[i].dst) <==> WrittenTwice(ups, i)
  {
    if Duplicated(ups, ups[i].dst) {
      var a, b :| 0 <= a < b < |ups| && ups[a].src != [] && ups[b].src != [] && ups[a].dst == ups[i].dst
        && ups[b].dst == ups[i].dst;
      if a == i { assert b != i; } else { assert a != i; }
    }
    if WrittenTwice(ups, i) {
      var j :| 0 <= j < |ups| && j != i && ups[j].src != [] && ups[j].dst == ups[i].dst;
      var a, b := if i < j then i else j, if i < j then j else i;
      assert 0 <= a < b < |ups| && ups[a].dst == ups[i].dst && ups[b].dst == ups[i].dst;
    }
  }

  lemma MayMoveIff(c: Context, u: Update, sha: Sha)
    ensures JudgeTransition(c, u, sha).Valid? <==> MayMove(c, u, sha)
  {
  }

  // Exactly which writes are approved, and as what.
  lemma ApprovedWriteIff(c: Context, ups: seq<Update>, i: nat)
    requires i < |ups| && ups[i].src != []
    ensures var u, e := ups[i], Validate(c, ups)[i];
            && (e.v.Valid? <==> WellAimed(c.rules, u.dst) && !WrittenTwice(ups, i) && Free(c.skipped, u.dst)
                                && c.git.resolve(u.src).Some? && MayMove(c, u, c.git.resolve(u.src).value))
            && (e.v.Valid? ==> e == Item(u, false, u.dst !in c.remote, c.git.resolve(u.src).value, Valid))
  {
    var u := ups[i];
    WellAimedIff(c.rules, u.dst);
    TwiceIff(ups, i);
    FreeIff(c.skipped, u.dst);
    assert Validate(c, ups)[i] == JudgeEntry(c, ups, u);
    if c.git.resolve(u.src).Some? { MayMoveIff(c, u, c.git.resolve(u.src).value); }
  }

  // Exactly which deletes are approved.
  lemma ApprovedDeleteIff(c: Context, ups: seq<Update>, i: nat)
    requires i < |ups| && ups[i].src == []
    ensures var u, e := ups[i], Validate(c, ups)[i];
            && (e.v.Valid? <==> WellAimed(c.rules, u.dst) && (forall x | x in c.skipped :: x.path != u.dst)
                                && HeadSpares(c, u.dst))
            && (e.v.Valid? ==> e == Item(u, true, false, "", Valid))
  {
    var u := ups[i];
    WellAimedIff(c.rules, u.dst);
    Planner.OccupantIff(c.skipped, u.dst);
    assert Validate(c, ups)[i] == JudgeEntry(c, ups, u);
    assert (forall x | x in c.skipped :: x.path != u.dst) <==>
      !exists k :: 0 <= k < |c.skipped| && c.skipped[k].path == u.dst;
  }

  // What a refusal in validation tells is so.
  ghost predicate ValidationTells(c: Context, ups: seq<Update>, i: nat, why: Reason)
    requires i < |ups|
  {
    var u := ups[i];
    var held, branch := u.dst in c.remote, REFS_HEADS + [SLASH] <= u.dst;
    match why
    case InvalidDestination => !WellAimed(c.rules, u.dst)
    case Occupied(x) => InTheWay(c.skipped, u.dst, x) && (u.src == [] ==> x.path == u.dst)
    case HeadNotReadable => u.src == [] && held && branch && c.head.HeadUnreadable?
    case IsHead => u.src == [] && held && branch && c.head == HeadAt(u.dst)
    case DuplicateDestination => u.src != [] && WrittenTwice(ups, i)
    case Unresolved => u.src != [] && c.git.resolve(u.src).None?
    case UnknownType => WriteTo(c, u) && branch && c.git.typeOf(NewOf(c, u)).None?
    case BranchNotCommit => WriteTo(c, u) && branch && c.git.typeOf(NewOf(c, u)) == Some(NotCommit)
    case FetchFirst => WriteTo(c, u) && branch && held && !u.force && !c.git.has(c.remote[u.dst])
    case AncestryUnknown =>
      WriteTo(c, u) && branch && held && !u.force && c.git.ancestor(c.remote[u.dst], NewOf(c, u)).None?
    case NonFastForward =>
      WriteTo(c, u) && branch && held && !u.force && c.git.ancestor(c.remote[u.dst], NewOf(c, u)) == Some(false)
    case TagNeedsForce => WriteTo(c, u) && !branch && REFS_TAGS + [SLASH] <= u.dst && held && !u.force
    case OtherNeedsForce => WriteTo(c, u) && !branch && !(REFS_TAGS + [SLASH] <= u.dst) && held && !u.force
    case _ => false
  }

  predicate WriteTo(c: Context, u: Update)
  {
    u.src != [] && c.git.resolve(u.src).Some?
  }

  function NewOf(c: Context, u: Update): Sha
    requires WriteTo(c, u)
  {
    c.git.resolve(u.src).value
  }

  lemma TransitionTells(c: Context, ups: seq<Update>, i: nat, sha: Sha)
    requires i < |ups| && WriteTo(c, ups[i]) && NewOf(c, ups[i]) == sha && JudgeTransition(c, ups[i], sha).Refused?
    ensures ValidationTells(c, ups, i, JudgeTransition(c, ups[i], sha).why)
  {
  }

  lemma ValidateTells(c: Context, ups: seq<Update>, i: nat)
    requires i < |ups| && Validate(c, ups)[i].v.Refused?
    ensures ValidationTells(c, ups, i, Validate(c, ups)[i].v.why)
  {
    var u := ups[i];
    WellAimedIff(c.rules, u.dst);
    assert Validate(c, ups)[i] == JudgeEntry(c, ups, u);
    if u.src == [] {
      Planner.OccupantIff(c.skipped, u.dst);
    } else {
      TwiceIff(ups, i);
      FreeIff(c.skipped, u.dst);
      if WriteTo(c, u) && JudgeTransition(c, u, NewOf(c, u)).Refused? { TransitionTells(c, ups, i, NewOf(c, u)); }
    }
  }

  // ---- one pass of each check

  // One name is a folder on the way to the other.
  ghost predicate InFolder(a: Name, b: Name)
  {
    a + [SLASH] <= b || b + [SLASH] <= a
  }

  // The preflight refuses exactly the valid creates nested with a ref of the
  // set, each with the least such ref.
  lemma FolderPassIff(c: Context, items: seq<Item>, i: nat)
    requires i < |items|
    ensures var e, after, final := items[i], FolderPass(c, items)[i], FinalSet(c.remote.Keys, Elems(items));
            && (after != e <==> e.ValidCreate() && exists o :: o in final && InFolder(o, e.Dst()))
            && (after != e ==> after.v.Refused? && after.v.why.FolderConflict?
                               && IsMin(after.v.why.other, set o | o in final && InFolder(o, e.Dst())))
  {
    var e, final := items[i], FinalSet(c.remote.Keys, Elems(items));
    assert FolderPass(c, items)[i] == JudgeFolders(c, Elems(items), e);
    assert FolderConflicts(final, e.Dst()) == set o | o in final && InFolder(o, e.Dst());
    if o :| o in final && InFolder(o, e.Dst()) { assert o in FolderConflicts(final, e.Dst()); }
  }

  // When there is something in d's way, and when the Mac rule kept it there.
  lemma InWayIff(c: Context, es: set<Item>, kept: set<Name>, d: Name)
    requires Split(c.keys)
    ensures var final, cs := FinalSet(c.remote.Keys, es), CaseConflictsOf(c, es, d);
            && (cs != [] <==> exists o :: o in final && Pairs(c.keys, d, o))
            && (KeptConflicts(cs, kept) != [] <==> exists o :: o in final && Pairs(c.keys, d, o) && o in kept)
  {
    var cs := CaseConflictsOf(c, es, d);
    ConflictsInComplete(c.keys, FinalSet(c.remote.Keys, es), d);
    KeptIff(cs, kept);
  }

  // The creates a pass of the case rule refuses: exactly the valid ones with
  // another spelling in the set. Mac is to blame exactly when one of the refs
  // in the way is a delete it kept.
  lemma CasePassCreateIff(c: Context, p: Plan, i: nat)
    requires Split(c.keys) && i < |p.items| && !p.items[i].del
    ensures var e, after, final := p.items[i], CasePass(c, p).items[i], FinalSet(c.remote.Keys, Elems(p.items));
            && (after != e <==> e.ValidCreate() && exists o :: o in final && Pairs(c.keys, e.Dst(), o))
            && (after != e ==> after.v.Refused? && (after.v.why.CaseVariant? || after.v.why.MacKept?))
            && (after != e ==> (after.v.why.MacKept? <==>
                                exists o :: o in final && Pairs(c.keys, e.Dst(), o) && o in p.kept))
  {
    var es, e := Elems(p.items), p.items[i];
    CaseSteps(c, p, i);
    CaseVerdict(c, es, p.kept, e);
    InWayIff(c, es, p.kept, e.Dst());
  }

  // And the refs the refusal names are exactly those.
  lemma CasePassNames(c: Context, p: Plan, i: nat, o: Name)
    requires Split(c.keys) && i < |p.items| && !p.items[i].del && CasePass(c, p).items[i] != p.items[i]
    ensures var d, why := p.items[i].Dst(), CasePass(c, p).items[i].v.why;
            var there := o in FinalSet(c.remote.Keys, Elems(p.items)) && Pairs(c.keys, d, o);
      match why
      case CaseVariant(cs) => (exists k :: 0 <= k < |cs| && cs[k].ref == o) <==> there
      case MacKept(kept, cs) =>
        && ((exists k :: 0 <= k < |cs| && cs[k].ref == o) <==> there)
        && (o in kept <==> there && o in p.kept)
      case _ => false
  {
    var es, e := Elems(p.items), p.items[i];
    CaseSteps(c, p, i);
    CaseVerdict(c, es, p.kept, e);
    ConflictsInComplete(c.keys, FinalSet(c.remote.Keys, es), e.Dst());
    KeptIff(CaseConflictsOf(c, es, e.Dst()), p.kept);
  }

  lemma {:induction false} KeptIff(cs: seq<Conflict>, kept: set<Name>)
    ensures forall n :: n in KeptConflicts(cs, kept) <==> n in kept && exists k :: 0 <= k < |cs| && cs[k].ref == n
    ensures KeptConflicts(cs, kept) != [] <==> exists k :: 0 <= k < |cs| && cs[k].ref in kept
  {
    if cs != [] {
      KeptIff(cs[1..], kept);
      forall n ensures n in KeptConflicts(cs, kept) <==> n in kept && exists k :: 0 <= k < |cs| && cs[k].ref == n {
        if k :| 0 <= k < |cs| && cs[k].ref == n { assert k > 0 ==> cs[1..][k - 1] == cs[k]; }
        if k :| 0 <= k < |cs[1..]| && cs[1..][k].ref == n { assert cs[k + 1].ref == n; }
      }
      if k :| 0 <= k < |cs| && cs[k].ref in kept { assert k > 0 ==> cs[1..][k - 1] == cs[k]; }
      if k :| 0 <= k < |cs[1..]| && cs[1..][k].ref in kept { assert cs[k + 1].ref in kept; }
    }
  }

  // The names of the writes, or of the creates alone, that fell in a pass.
  ghost function FellNow(before: seq<Item>, after: seq<Item>): set<Name>
    requires |before| == |after|
  {
    set i | 0 <= i < |before| && !before[i].del && after[i] != before[i] :: before[i].Dst()
  }

  ghost function CreatesFellNow(before: seq<Item>, after: seq<Item>): set<Name>
    requires |before| == |after|
  {
    set i | 0 <= i < |before| && !before[i].del && before[i].create && after[i] != before[i] :: before[i].Dst()
  }

  // The names of those that fell that n is another spelling of, by either key.
  ghost function Twins(k: Keys, names: set<Name>, n: Name): set<Name>
  {
    set x | x in names && (k.caseOf(x) == k.caseOf(n) || k.canonOf(x) == k.canonOf(n))
  }

  // Entry e deletes a ref the remote holds that no write still valid puts back.
  ghost predicate Loses(c: Context, after: seq<Item>, e: Item)
  {
    && e.v.Valid? && e.del && e.Dst() in c.remote
    && forall i | 0 <= i < |after| :: !(after[i].v.Valid? && !after[i].del && after[i].Dst() == e.Dst())
  }

  lemma LosesIff(c: Context, items: seq<Item>, after: seq<Item>, e: Item)
    requires |items| == |after| && forall i | 0 <= i < |items| && !items[i].del :: after[i] == items[i]
    requires forall i | 0 <= i < |items| && items[i].del :: after[i].del
    ensures Loses(c, after, e) <==> HeldDelete(c, Elems(items), e)
  {
    if HeldDelete(c, Elems(items), e) {
      forall i | 0 <= i < |after| ensures !(after[i].v.Valid? && !after[i].del && after[i].Dst() == e.Dst()) {
        if !after[i].del && after[i].v.Valid? {
          assert items[i] in Elems(items) && items[i].Dst() in Written(Elems(items));
        }
      }
    }
    if Loses(c, after, e) {
      forall w | w in Elems(items) && w.ValidWrite() ensures w.Dst() != e.Dst() {
        var i :| 0 <= i < |items| && items[i] == w;
        assert after[i] == items[i];
      }
    }
  }

  // What the case rule makes of one entry.
  lemma CaseVerdict(c: Context, es: set<Item>, kept: set<Name>, e: Item)
    ensures var a, cs := JudgeCase(c, es, kept, e), CaseConflictsOf(c, es, e.Dst());
            && (a != e <==> CaseRefuses(c, es, e))
            && (a != e ==> a == e.Refuse(a.v.why)
                           && a.v.why == (if KeptConflicts(cs, kept) != [] then MacKept(KeptConflicts(cs, kept), cs)
                                          else CaseVariant(cs)))
  {
  }

  // Writes are judged by the case rule, deletes by the pairing.
  lemma CaseSteps(c: Context, p: Plan, i: nat)
    requires i < |p.items|
    ensures var judged := JudgeCases(c, p.items, p.kept);
            var refused, mac := CaseRefusals(c, Elems(p.items)), p.macCreates + MacRefusals(c, Elems(p.items), p.kept);
            var after := CasePass(c, p).items[i];
            && (p.items[i].del ==> judged[i] == p.items[i]
                                   && after == JudgePaired(c, Elems(judged), refused, mac, p.items[i]))
            && (!p.items[i].del ==> judged[i] == after == JudgeCase(c, Elems(p.items), p.kept, p.items[i]))
  {
    var judged := JudgeCases(c, p.items, p.kept);
    assert judged[i] == JudgeCase(c, Elems(p.items), p.kept, p.items[i]);
  }

  lemma FallsIff(c: Context, p: Plan, i: nat)
    requires i < |p.items| && !p.items[i].del
    ensures CasePass(c, p).items[i] != p.items[i] <==> CaseRefuses(c, Elems(p.items), p.items[i])
  {
    CaseSteps(c, p, i);
    CaseVerdict(c, Elems(p.items), p.kept, p.items[i]);
  }

  lemma RefusalFell(c: Context, p: Plan, n: Name)
    requires n in CaseRefusals(c, Elems(p.items))
    ensures n in FellNow(p.items, CasePass(c, p).items)
  {
    var e :| e in Elems(p.items) && CaseRefuses(c, Elems(p.items), e) && e.Dst() == n;
    var i :| 0 <= i < |p.items| && p.items[i] == e;
    FallsIff(c, p, i);
  }

  lemma FellIsRefusal(c: Context, p: Plan, n: Name)
    requires n in FellNow(p.items, CasePass(c, p).items)
    ensures n in CaseRefusals(c, Elems(p.items))
  {
    var i :| 0 <= i < |p.items| && !p.items[i].del && CasePass(c, p).items[i] != p.items[i] && p.items[i].Dst() == n;
    FallsIff(c, p, i);
    assert p.items[i] in Elems(p.items);
  }

  lemma CaseFellIff(c: Context, p: Plan)
    ensures FellNow(p.items, CasePass(c, p).items) == CaseRefusals(c, Elems(p.items))
  {
    var fell := FellNow(p.items, CasePass(c, p).items);
    forall n | n in CaseRefusals(c, Elems(p.items)) ensures n in fell { RefusalFell(c, p, n); }
    forall n | n in fell ensures n in CaseRefusals(c, Elems(p.items)) { FellIsRefusal(c, p, n); }
  }

  // What a judgement of one delete says.
  ghost predicate PairTells(c: Context, twins: set<Name>, mac: set<Name>, e: Item, why: Reason)
  {
    match why
    case RenameKept(x, caseChanging) =>
      IsMin(x, twins) && x !in mac && (caseChanging <==> c.keys.caseOf(x) == c.keys.caseOf(e.Dst()))
    case MacPaired(x) => IsMin(x, twins) && x in mac
    case _ => false
  }

  lemma PairedIff(c: Context, es: set<Item>, refused: set<Name>, mac: set<Name>, e: Item)
    ensures var twins, after := Twins(c.keys, refused, e.Dst()), JudgePaired(c, es, refused, mac, e);
            && (after != e <==> HeldDelete(c, es, e) && twins != {})
            && (after != e ==> after.v.Refused? && PairTells(c, twins, mac, e, after.v.why))
  {
    assert Twins(c.keys, refused, e.Dst()) == set x | x in refused && SharesKey(c.keys, x, e.Dst());
  }

  // Judging the deletes of a batch leaves its writes, and each delete a delete.
  lemma PairsSpareWrites(c: Context, items: seq<Item>, refused: set<Name>, mac: set<Name>)
    ensures var after := JudgePairs(c, items, refused, mac);
      forall i | 0 <= i < |items| :: after[i].del == items[i].del && (!items[i].del ==> after[i] == items[i])
  {
    var after := JudgePairs(c, items, refused, mac);
    forall i | 0 <= i < |items| ensures after[i].del == items[i].del && (!items[i].del ==> after[i] == items[i]) {
      assert after[i] == JudgePaired(c, Elems(items), refused, mac, items[i]);
    }
  }

  // The deletes a pass of the case rule refuses: exactly those that would lose
  // a ref whose new spelling fell in this pass. The smallest such spelling is
  // named, and the Mac rule with it exactly when it is why that one fell.
  lemma CasePassDeleteIff(c: Context, p: Plan, j: nat)
    requires j < |p.items| && p.items[j].del
    ensures var e, after := p.items[j], CasePass(c, p);
            var twins := Twins(c.keys, FellNow(p.items, after.items), e.Dst());
            && (after.items[j] != e <==> Loses(c, after.items, e) && twins != {})
            && (after.items[j] != e ==> after.items[j].v.Refused?
                                        && PairTells(c, twins, after.macCreates, e, after.items[j].v.why))
  {
    var es, e, after := Elems(p.items), p.items[j], CasePass(c, p).items;
    var judged := JudgeCases(c, p.items, p.kept);
    var refused, mac := CaseRefusals(c, es), p.macCreates + MacRefusals(c, es, p.kept);
    CaseFellIff(c, p);
    assert judged[j] == JudgeCase(c, es, p.kept, e) == e;
    assert after[j] == JudgePaired(c, Elems(judged), refused, mac, e);
    PairsSpareWrites(c, judged, refused, mac);
    LosesIff(c, judged, after, e);
    PairedIff(c, Elems(judged), refused, mac, e);
  }

  // Something e would meet: on a Mac one of its tracking refs another spelling,
  // or, for an update, on the remote the ref itself.
  ghost predicate Collides(c: Context, l: LocalSide, es: set<Item>, e: Item)
  {
    || (exists tr, o :: MacSound.MeetsAt(c, l, es, e, tr, o))
    || (!e.create && exists o :: o in FinalSet(c.remote.Keys, es) && Pairs(c.keys, e.Dst(), o))
  }

  // Some tracking ref of d shares its file with a local ref.
  ghost predicate Shadowed(c: Context, l: LocalSide, d: Name)
  {
    exists tr, o :: d in l.tracking && tr in l.tracking[d] && o in l.refs && Pairs(c.keys, tr, o)
  }

  // The writes the Mac rule refuses: exactly those that collide.
  lemma MacWritesIff(c: Context, l: LocalSide, items: seq<Item>, i: nat)
    requires Split(c.keys) && i < |items|
    ensures var e, after := items[i], MacWrites(c, l, items)[i];
            && (after != e <==> e.v.Valid? && !e.del && Collides(c, l, Elems(items), e))
            && (after != e ==> after.v.Refused? && after.v.why.MacWrite?)
  {
    MacSound.MacRefusesWriteIff(c, l, Elems(items), items[i]);
    assert MacWrites(c, l, items)[i] == JudgeMacWrite(c, l, Elems(items), items[i]);
  }

  lemma MacPassWriteIff(c: Context, l: LocalSide, p: Plan, i: nat)
    requires Split(c.keys) && i < |p.items| && !p.items[i].del
    ensures var e, after := p.items[i], MacPass(c, l, p).items[i];
            && (after != e <==> e.v.Valid? && Collides(c, l, Elems(p.items), e))
            && (after != e ==> after.v.Refused? && after.v.why.MacWrite?)
  {
    MacWritesIff(c, l, p.items, i);
    MacSound.MacPassAt(c, l, p, i);
    assert MacWrites(c, l, p.items)[i] == JudgeMacWrite(c, l, Elems(p.items), p.items[i]);
  }

  lemma MacFellIff(c: Context, l: LocalSide, p: Plan)
    ensures FellNow(p.items, MacPass(c, l, p).items) == RefusedWrites(c, l, Elems(p.items))
    ensures CreatesFellNow(p.items, MacPass(c, l, p).items) == RefusedCreates(c, l, Elems(p.items))
  {
    var es, after := Elems(p.items), MacPass(c, l, p).items;
    forall i | 0 <= i < |p.items| && !p.items[i].del
      ensures after[i] != p.items[i] <==> MacRefusesWrite(c, l, es, p.items[i])
    {
      MacSound.MacPassAt(c, l, p, i);
    }
    forall e | e in es && MacRefusesWrite(c, l, es, e)
      ensures exists i :: 0 <= i < |p.items| && p.items[i] == e && !e.del
    {
      var i :| 0 <= i < |p.items| && p.items[i] == e;
    }
    forall i | 0 <= i < |p.items| ensures p.items[i] in es { }
  }

  // The deletes the Mac rule refuses: exactly those of the very name of a write
  // that fell with them, those that would lose a ref whose new spelling did,
  // and those a tracking ref of which shares its file with a local ref.
  lemma MacPassDeleteIff(c: Context, l: LocalSide, p: Plan, j: nat)
    requires Split(c.keys) && j < |p.items| && p.items[j].del
    ensures var e, after := p.items[j], MacPass(c, l, p).items;
            var fell, twins := FellNow(p.items, after), Twins(c.keys, CreatesFellNow(p.items, after), e.Dst());
            && (after[j] != e <==>
                  e.v.Valid? && (e.Dst() in fell || (Loses(c, after, e) && twins != {}) || Shadowed(c, l, e.Dst())))
            && (after[j] != e ==> after[j].v.Refused? && match after[j].v.why
                  case MacPaired(x) => (x == e.Dst() && x in fell)
                    || (e.Dst() !in fell && Loses(c, after, e) && IsMin(x, twins))
                  case MacDelete(_) => e.Dst() !in fell && Shadowed(c, l, e.Dst())
                  case _ => false)
  {
    var es, e, after := Elems(p.items), p.items[j], MacPass(c, l, p).items;
    var creates := RefusedCreates(c, l, es);
    var exact := MacExacts(MacWrites(c, l, p.items), RefusedWrites(c, l, es));
    var two := MacRenames(c, exact, creates);
    MacFellIff(c, l, p);
    MacDeleteSteps(c, l, p, j);
    MacSpares(c, l, p);
    PairedIff(c, Elems(exact), creates, creates, exact[j]);
    LosesIff(c, exact, after, e);
    MacSound.DeleteHalfIff(c, l, e.Dst());
  }

  // The three parts, for one delete.
  lemma MacDeleteSteps(c: Context, l: LocalSide, p: Plan, j: nat)
    requires j < |p.items| && p.items[j].del
    ensures var es, e := Elems(p.items), p.items[j];
            var exact := MacExacts(MacWrites(c, l, p.items), RefusedWrites(c, l, es));
            var creates := RefusedCreates(c, l, es);
            && exact[j] == JudgeMacExact(RefusedWrites(c, l, es), e)
            && MacPass(c, l, p).items[j]
              == JudgeMacDelete(c, l, JudgePaired(c, Elems(exact), creates, creates, exact[j]))
  {
    var es := Elems(p.items);
    var one := MacWrites(c, l, p.items);
    var exact := MacExacts(one, RefusedWrites(c, l, es));
    var two := MacRenames(c, exact, RefusedCreates(c, l, es));
    assert one[j] == JudgeMacWrite(c, l, es, p.items[j]);
    assert two[j] == JudgePaired(c, Elems(exact), RefusedCreates(c, l, es), RefusedCreates(c, l, es), exact[j]);
  }

  // Parts 2 and 3 leave the writes as part 1 judged them.
  lemma MacSpares(c: Context, l: LocalSide, p: Plan)
    ensures var exact := MacExacts(MacWrites(c, l, p.items), RefusedWrites(c, l, Elems(p.items)));
            var after := MacPass(c, l, p).items;
      forall i | 0 <= i < |exact| :: after[i].del == exact[i].del && (!exact[i].del ==> after[i] == exact[i])
  {
    var es := Elems(p.items);
    var exact := MacExacts(MacWrites(c, l, p.items), RefusedWrites(c, l, es));
    var two := MacRenames(c, exact, RefusedCreates(c, l, es));
    PairsSpareWrites(c, exact, RefusedCreates(c, l, es), RefusedCreates(c, l, es));
    forall i | 0 <= i < |two|
      ensures MacPass(c, l, p).items[i].del == two[i].del && (!two[i].del ==> MacPass(c, l, p).items[i] == two[i])
    {
      assert MacPass(c, l, p).items[i] == JudgeMacDelete(c, l, two[i]);
    }
  }
}
