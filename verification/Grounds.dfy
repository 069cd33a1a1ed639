/** Every refusal of phase 2 tells the truth, and a batch nothing is wrong with
    is left alone (push.go, phase 2; macpush.go). */
module Grounds {
  import opened Names
  import opened Wrappers
  import opened Keys
  import opened CaseConflicts
  import opened Batch
  import opened Phase2
  import opened Judgement
  import MacSound

  // A ref the remote holds or the batch writes.
  ghost predicate Named(c: Context, items: seq<Item>, o: Name)
  {
    o in c.remote || exists j :: 0 <= j < |items| && !items[j].del && items[j].Dst() == o
  }

  // Refs in the way of d, each another spelling of it.
  ghost predicate InWay(c: Context, items: seq<Item>, d: Name, cs: seq<Conflict>)
  {
    forall k | 0 <= k < |cs| :: Pairs(c.keys, d, cs[k].ref) && Named(c, items, cs[k].ref)
  }

  // A delete of n was refused for the Mac rule's sake.
  ghost predicate MacKeeps(items: seq<Item>, n: Name)
  {
    exists j :: KeepsAt(items, j, n)
  }

  ghost predicate KeepsAt(items: seq<Item>, j: int, n: Name)
  {
    && 0 <= j < |items| && items[j].del && items[j].Dst() == n && items[j].v.Refused?
    && (items[j].v.why.MacPaired? || items[j].v.why.MacDelete?)
  }

  // How a write of n fell.
  datatype Fall = ByCase | ByKept | ByMac

  ghost predicate FellBy(items: seq<Item>, n: Name, how: Fall, create: bool)
  {
    exists j :: FellAt(items, j, n, how) && (create ==> items[j].create)
  }

  ghost predicate FellAt(items: seq<Item>, j: int, n: Name, how: Fall)
  {
    && 0 <= j < |items| && !items[j].del && items[j].Dst() == n && items[j].v.Refused?
    && match how
       case ByCase => items[j].v.why.CaseVariant?
       case ByKept => items[j].v.why.MacKept?
       case ByMac => items[j].v.why.MacWrite?
  }

  ghost predicate Spells(k: Keys, a: Name, b: Name)
  {
    k.caseOf(a) == k.caseOf(b) || k.canonOf(a) == k.canonOf(b)
  }

  ghost predicate PutBack(items: seq<Item>, d: Name)
  {
    exists j :: 0 <= j < |items| && items[j].v.Valid? && !items[j].del && items[j].Dst() == d
  }

  // What tracking ref tr of an entry that writes d names is there: a local ref,
  // or another entry's tracking ref; a delete's only beside an update.
  ghost predicate LocallyThere(l: LocalSide, items: seq<Item>, e: Item, o: Name)
  {
    o in l.refs || exists j :: 0 <= j < |items| && items[j].Dst() != e.Dst() && o in TrackingOf(l, items[j].Dst())
                               && (items[j].del ==> !e.create)
  }

  ghost predicate ClauseTells(c: Context, l: LocalSide, items: seq<Item>, e: Item, x: Clause)
  {
    && x.tracking in TrackingOf(l, e.Dst()) && x.meets != []
    && forall m | m in x.meets :: Pairs(c.keys, x.tracking, m.c.ref)
         && (if e.del then m.c.ref in l.refs else LocallyThere(l, items, e, m.c.ref))
  }

  // What a refusal after validation tells is so.
  ghost predicate RuleTells(c: Context, items: seq<Item>, e: Item, why: Reason)
  {
    var d := e.Dst();
    match why
    case FolderConflict(o) => !e.del && e.create && Named(c, items, o) && InFolder(o, d)
    case CaseVariant(cs) => !e.del && e.create && cs != [] && InWay(c, items, d, cs)
    case MacKept(kept, cs) =>
      && !e.del && e.create && kept != [] && InWay(c, items, d, cs)
      && forall n | n in kept :: MacKeeps(items, n) && exists k :: 0 <= k < |cs| && cs[k].ref == n
    case RenameKept(x, caseChanging) =>
      && e.del && d in c.remote && !PutBack(items, d) && FellBy(items, x, ByCase, true) && Spells(c.keys, x, d)
      && (caseChanging <==> c.keys.caseOf(x) == c.keys.caseOf(d))
    case MacPaired(x) =>
      && e.del
      && ((x == d && FellBy(items, x, ByMac, false))
          || (d in c.remote && !PutBack(items, d) && Spells(c.keys, x, d)
              && (FellBy(items, x, ByKept, true) || FellBy(items, x, ByMac, true))))
    case MacWrite(clauses, remoteHalf) =>
      && !e.del && c.local.Some? && (clauses != [] || remoteHalf != [])
      && (forall x | x in clauses :: ClauseTells(c, c.local.value, items, e, x))
      && (remoteHalf != [] ==> !e.create) && InWay(c, items, d, remoteHalf)
    case MacDelete(clauses) =>
      && e.del && c.local.Some? && clauses != []
      && forall x | x in clauses :: ClauseTells(c, c.local.value, items, e, x)
    case _ => false
  }

  // What a refusal tells stays so while more is refused.
  lemma TellsStays(c: Context, a: seq<Item>, b: seq<Item>, e: Item, why: Reason)
    requires OnlyRefuses(a, b) && RuleTells(c, a, e, why)
    ensures RuleTells(c, b, e, why)
  {
    forall j | 0 <= j < |a|
      ensures b[j].del == a[j].del && b[j].create == a[j].create && b[j].Dst() == a[j].Dst()
      ensures b[j].v.Valid? ==> a[j] == b[j]
      ensures a[j].v.Refused? ==> b[j] == a[j]
    {
      assert b[j] == a[j] || b[j].(v := Valid) == a[j];
    }
    forall o | Named(c, a, o) ensures Named(c, b, o) {
      if o !in c.remote {
        var j :| 0 <= j < |a| && !a[j].del && a[j].Dst() == o;
        assert b[j].Dst() == o;
      }
    }
    forall n | MacKeeps(a, n) ensures MacKeeps(b, n) {
      var j :| KeepsAt(a, j, n);
      assert KeepsAt(b, j, n);
    }
    forall n, how, create | FellBy(a, n, how, create) ensures FellBy(b, n, how, create) {
      var j :| FellAt(a, j, n, how) && (create ==> a[j].create);
      assert FellAt(b, j, n, how);
    }
    forall l, o | LocallyThere(l, a, e, o) ensures LocallyThere(l, b, e, o) {
      if o !in l.refs {
        var j :| 0 <= j < |a| && a[j].Dst() != e.Dst() && o in TrackingOf(l, a[j].Dst()) && (a[j].del ==> !e.create);
        assert b[j].Dst() == a[j].Dst();
      }
    }
  }

  // The plan's books: the deletes kept, and the creates refused, for the Mac
  // rule's sake.
  ghost predicate BooksOk(p: Plan)
  {
    && (forall n :: n in p.kept <==> MacKeeps(p.items, n))
    && (forall x :: x in p.macCreates <==> FellBy(p.items, x, ByKept, true))
    && forall i | 0 <= i < |p.items| && p.items[i].v.Refused? && p.items[i].v.why.MacKept? ::
         !p.items[i].del && p.items[i].create
  }

  // Whatever has been refused since start tells the truth.
  ghost predicate Told(c: Context, start: seq<Item>, p: Plan)
  {
    && OnlyRefuses(start, p.items) && BooksOk(p)
    && forall i | 0 <= i < |start| && p.items[i] != start[i] ::
         p.items[i].v.Refused? && RuleTells(c, p.items, p.items[i], p.items[i].v.why)
  }

  // One more pass.
  lemma ToldThen(c: Context, start: seq<Item>, p: Plan, q: Plan)
    requires Told(c, start, p) && OnlyRefuses(p.items, q.items) && BooksOk(q)
    requires forall i | 0 <= i < |p.items| && q.items[i] != p.items[i] ::
      q.items[i].v.Refused? && RuleTells(c, q.items, q.items[i], q.items[i].v.why)
    ensures Told(c, start, q)
  {
    OnlyRefusesTransitive(start, p.items, q.items);
    forall i | 0 <= i < |start| && q.items[i] != start[i]
      ensures q.items[i].v.Refused? && RuleTells(c, q.items, q.items[i], q.items[i].v.why)
    {
      if q.items[i] == p.items[i] { TellsStays(c, p.items, q.items, p.items[i], p.items[i].v.why); }
    }
  }

  lemma FinalIsNamed(c: Context, items: seq<Item>, o: Name)
    requires o in FinalSet(c.remote.Keys, Elems(items))
    ensures Named(c, items, o)
  {
    if o !in c.remote {
      var e :| e in Elems(items) && e.ValidWrite() && e.Dst() == o;
      var j :| 0 <= j < |items| && items[j] == e;
    }
  }

  lemma NamedStays(c: Context, a: seq<Item>, b: seq<Item>, o: Name)
    requires OnlyRefuses(a, b) && Named(c, a, o)
    ensures Named(c, b, o)
  {
    if o !in c.remote {
      var j :| 0 <= j < |a| && !a[j].del && a[j].Dst() == o;
      assert b[j] == a[j] || b[j].(v := Valid) == a[j];
      assert !b[j].del && b[j].Dst() == o;
    }
  }

  ghost predicate UnbookedRefusal(e: Item)
  {
    e.v.Refused? && !e.v.why.MacPaired? && !e.v.why.MacDelete? && !e.v.why.MacKept?
  }

  // A pass that refuses for neither of the two reasons leaves the books right.
  lemma BooksStay(p: Plan, q: Plan)
    requires BooksOk(p) && OnlyRefuses(p.items, q.items) && q.kept == p.kept && q.macCreates == p.macCreates
    requires forall i | 0 <= i < |p.items| && q.items[i] != p.items[i] :: UnbookedRefusal(q.items[i])
    ensures BooksOk(q)
  {
    forall n ensures MacKeeps(q.items, n) <==> MacKeeps(p.items, n) {
      if j :| KeepsAt(q.items, j, n) { assert KeepsAt(p.items, j, n); }
      if j :| KeepsAt(p.items, j, n) { assert KeepsAt(q.items, j, n); }
    }
    forall x ensures FellBy(q.items, x, ByKept, true) <==> FellBy(p.items, x, ByKept, true) {
      if j :| FellAt(q.items, j, x, ByKept) && q.items[j].create { assert FellAt(p.items, j, x, ByKept); }
      if j :| FellAt(p.items, j, x, ByKept) && p.items[j].create { assert FellAt(q.items, j, x, ByKept); }
    }
  }

  lemma FolderTold(c: Context, start: seq<Item>, p: Plan)
    requires Told(c, start, p)
    ensures Told(c, start, p.(items := FolderPass(c, p.items)))
  {
    var q := p.(items := FolderPass(c, p.items));
    FolderPassRefuses(c, p.items);
    forall i | 0 <= i < |p.items| && q.items[i] != p.items[i]
      ensures q.items[i].v.Refused? && q.items[i].v.why.FolderConflict?
      ensures RuleTells(c, q.items, q.items[i], q.items[i].v.why)
    {
      FolderPassIff(c, p.items, i);
      FinalIsNamed(c, p.items, q.items[i].v.why.other);
      NamedStays(c, p.items, q.items, q.items[i].v.why.other);
    }
    BooksStay(p, q);
    ToldThen(c, start, p, q);
  }

  // ---- the case rule

  lemma ConflictsInWay(c: Context, a: seq<Item>, b: seq<Item>, d: Name)
    requires Split(c.keys) && OnlyRefuses(a, b)
    ensures InWay(c, b, d, CaseConflictsOf(c, Elems(a), d))
  {
    var cs := CaseConflictsOf(c, Elems(a), d);
    ConflictsInComplete(c.keys, FinalSet(c.remote.Keys, Elems(a)), d);
    forall k | 0 <= k < |cs| ensures Named(c, b, cs[k].ref) {
      FinalIsNamed(c, a, cs[k].ref);
      NamedStays(c, a, b, cs[k].ref);
    }
  }

  lemma KeptTell(p: Plan, b: seq<Item>, cs: seq<Conflict>)
    requires BooksOk(p) && OnlyRefuses(p.items, b)
    ensures forall n | n in KeptConflicts(cs, p.kept) :: MacKeeps(b, n) && exists k :: 0 <= k < |cs| && cs[k].ref == n
  {
    KeptIff(cs, p.kept);
    forall n | n in KeptConflicts(cs, p.kept) ensures MacKeeps(b, n) { KeepsStay(p.items, b, n); }
  }

  lemma CaseCreateTells(c: Context, start: seq<Item>, p: Plan, i: nat)
    requires Split(c.keys) && Told(c, start, p) && i < |p.items| && !p.items[i].del
    requires CasePass(c, p).items[i] != p.items[i]
    ensures CasePass(c, p).items[i].v.Refused?
    ensures RuleTells(c, CasePass(c, p).items, CasePass(c, p).items[i], CasePass(c, p).items[i].v.why)
  {
    var es, e, after := Elems(p.items), p.items[i], CasePass(c, p).items;
    CasePassRefuses(c, p);
    CaseSteps(c, p, i);
    CaseVerdict(c, es, p.kept, e);
    ConflictsInWay(c, p.items, after, e.Dst());
    KeptTell(p, after, CaseConflictsOf(c, es, e.Dst()));
  }

  lemma KeepsStay(a: seq<Item>, b: seq<Item>, n: Name)
    requires OnlyRefuses(a, b) && MacKeeps(a, n)
    ensures MacKeeps(b, n)
  {
    var j :| KeepsAt(a, j, n);
    assert b[j] == a[j];
    assert KeepsAt(b, j, n);
  }

  lemma FellStays(a: seq<Item>, b: seq<Item>, n: Name, how: Fall, create: bool)
    requires OnlyRefuses(a, b) && FellBy(a, n, how, create)
    ensures FellBy(b, n, how, create)
  {
    var j :| FellAt(a, j, n, how) && (create ==> a[j].create);
    assert b[j] == a[j];
    assert FellAt(b, j, n, how);
  }

  // The creates that fall for a kept delete in a pass.
  lemma FallsForKept(c: Context, p: Plan, i: nat)
    requires i < |p.items| && !p.items[i].del
    ensures var after := CasePass(c, p).items[i]; var cs := CaseConflictsOf(c, Elems(p.items), p.items[i].Dst());
      after != p.items[i] && after.v.Refused? && after.v.why.MacKept? <==>
        CaseRefuses(c, Elems(p.items), p.items[i]) && KeptConflicts(cs, p.kept) != []
  {
    CaseSteps(c, p, i);
    CaseVerdict(c, Elems(p.items), p.kept, p.items[i]);
  }

  lemma FallenIsNew(c: Context, p: Plan, x: Name) returns (i: nat)
    requires x in MacRefusals(c, Elems(p.items), p.kept)
    ensures FellAt(CasePass(c, p).items, i, x, ByKept) && CasePass(c, p).items[i] != p.items[i]
  {
    var es := Elems(p.items);
    var e :| e in es && CaseRefuses(c, es, e) && KeptConflicts(CaseConflictsOf(c, es, e.Dst()), p.kept) != []
      && e.Dst() == x;
    i :| 0 <= i < |p.items| && p.items[i] == e;
    FallsForKept(c, p, i);
    CasePassRefuses(c, p);
  }

  lemma NewIsFallen(c: Context, p: Plan, x: Name, i: nat)
    requires FellAt(CasePass(c, p).items, i, x, ByKept) && CasePass(c, p).items[i] != p.items[i]
    ensures x in MacRefusals(c, Elems(p.items), p.kept)
  {
    CasePassRefuses(c, p);
    FallsForKept(c, p, i);
    assert p.items[i] in Elems(p.items);
  }

  lemma NewlyFallenIff(c: Context, p: Plan, x: Name)
    ensures x in MacRefusals(c, Elems(p.items), p.kept) <==>
      exists i :: FellAt(CasePass(c, p).items, i, x, ByKept) && CasePass(c, p).items[i] != p.items[i]
  {
    if x in MacRefusals(c, Elems(p.items), p.kept) { var i := FallenIsNew(c, p, x); }
    if i :| FellAt(CasePass(c, p).items, i, x, ByKept) && CasePass(c, p).items[i] != p.items[i] {
      NewIsFallen(c, p, x, i);
    }
  }

  // The names booked as refused for a kept delete are those that were.
  lemma CaseBooksCreates(c: Context, p: Plan, x: Name)
    requires BooksOk(p)
    ensures x in CasePass(c, p).macCreates <==> FellBy(CasePass(c, p).items, x, ByKept, true)
  {
    var after := CasePass(c, p).items;
    CasePassRefuses(c, p);
    NewlyFallenIff(c, p, x);
    if x in p.macCreates { FellStays(p.items, after, x, ByKept, true); }
    if i :| FellAt(after, i, x, ByKept) && after[i] != p.items[i] { NewIsCreate(c, p, i); }
    if i :| FellAt(after, i, x, ByKept) && after[i].create && after[i] == p.items[i] {
      assert FellAt(p.items, i, x, ByKept);
    }
  }

  lemma NewIsCreate(c: Context, p: Plan, i: nat)
    requires i < |p.items| && !CasePass(c, p).items[i].del && CasePass(c, p).items[i] != p.items[i]
    ensures CasePass(c, p).items[i].create
  {
    CasePassRefuses(c, p);
    CaseSteps(c, p, i);
    CaseVerdict(c, Elems(p.items), p.kept, p.items[i]);
  }

  lemma NewlyKeptIff(c: Context, judged: seq<Item>, refused: set<Name>, mac: set<Name>, n: Name)
    ensures n in NewlyKept(c, Elems(judged), refused, mac) <==>
      exists j :: 0 <= j < |judged| && judged[j].v.Valid? && judged[j].Dst() == n
        && PairedForMac(c, judged, refused, mac, j)
  {
    var es := Elems(judged);
    if n in NewlyKept(c, es, refused, mac) {
      var e :| e in es && JudgePaired(c, es, refused, mac, e).v.Refused?
        && JudgePaired(c, es, refused, mac, e).v.why.MacPaired?
        && e.v.Valid? && e.Dst() == n;
      var j :| 0 <= j < |judged| && judged[j] == e;
    }
  }

  ghost predicate PairedForMac(c: Context, judged: seq<Item>, refused: set<Name>, mac: set<Name>, j: nat)
    requires j < |judged|
  {
    var after := JudgePaired(c, Elems(judged), refused, mac, judged[j]);
    judged[j].del && after.v.Refused? && after.v.why.MacPaired?
  }

  lemma KeepsAfter(c: Context, p: Plan, j: nat, n: Name)
    requires j < |p.items|
    ensures var judged := JudgeCases(c, p.items, p.kept);
            var refused, mac := CaseRefusals(c, Elems(p.items)), p.macCreates + MacRefusals(c, Elems(p.items), p.kept);
            KeepsAt(CasePass(c, p).items, j, n) <==>
              KeepsAt(p.items, j, n)
                || (judged[j].v.Valid? && judged[j].Dst() == n && PairedForMac(c, judged, refused, mac, j))
  {
    CasePassRefuses(c, p);
    JudgeCasesRefuses(c, p.items, p.kept);
    CaseSteps(c, p, j);
  }

  lemma CaseBooksDeletes(c: Context, p: Plan, n: Name)
    requires BooksOk(p)
    ensures n in CasePass(c, p).kept <==> MacKeeps(CasePass(c, p).items, n)
  {
    var es, after := Elems(p.items), CasePass(c, p).items;
    var judged := JudgeCases(c, p.items, p.kept);
    var refused, mac := CaseRefusals(c, es), p.macCreates + MacRefusals(c, es, p.kept);
    NewlyKeptIff(c, judged, refused, mac, n);
    forall j: nat | j < |p.items| ensures KeepsAt(after, j, n) <==>
      KeepsAt(p.items, j, n) || (judged[j].v.Valid? && judged[j].Dst() == n && PairedForMac(c, judged, refused, mac, j))
    {
      KeepsAfter(c, p, j, n);
    }
  }

  // A spelling that fell in the pass fell for the reason its delete names.
  lemma TwinFell(c: Context, p: Plan, x: Name)
    requires Split(c.keys) && BooksOk(p) && x in FellNow(p.items, CasePass(c, p).items)
    ensures FellBy(CasePass(c, p).items, x, if x in CasePass(c, p).macCreates then ByKept else ByCase, true)
  {
    var after := CasePass(c, p).items;
    var i :| 0 <= i < |p.items| && !p.items[i].del && after[i] != p.items[i] && p.items[i].Dst() == x;
    CasePassRefuses(c, p);
    CasePassCreateIff(c, p, i);
    NewIsCreate(c, p, i);
    CaseBooksCreates(c, p, x);
    if x !in CasePass(c, p).macCreates {
      assert !FellAt(after, i, x, ByKept);
      assert FellAt(after, i, x, ByCase);
    }
  }

  lemma CaseDeleteTells(c: Context, p: Plan, j: nat)
    requires Split(c.keys) && BooksOk(p) && j < |p.items| && p.items[j].del && CasePass(c, p).items[j] != p.items[j]
    ensures CasePass(c, p).items[j].v.Refused?
    ensures RuleTells(c, CasePass(c, p).items, CasePass(c, p).items[j], CasePass(c, p).items[j].v.why)
  {
    var after, d := CasePass(c, p).items, p.items[j].Dst();
    CasePassRefuses(c, p);
    CasePassDeleteIff(c, p, j);
    match after[j].v.why
    case RenameKept(x, _) => TwinFell(c, p, x);
    case MacPaired(x) => TwinFell(c, p, x);
  }

  lemma CaseTold(c: Context, start: seq<Item>, p: Plan)
    requires Split(c.keys) && Told(c, start, p)
    ensures Told(c, start, CasePass(c, p))
  {
    var q := CasePass(c, p);
    CasePassRefuses(c, p);
    forall i | 0 <= i < |p.items| && q.items[i] != p.items[i]
      ensures q.items[i].v.Refused? && RuleTells(c, q.items, q.items[i], q.items[i].v.why)
    {
      if p.items[i].del { CaseDeleteTells(c, p, i); } else { CaseCreateTells(c, start, p, i); }
    }
    CaseBooks(c, p);
    ToldThen(c, start, p, q);
  }

  lemma CaseBooks(c: Context, p: Plan)
    requires Split(c.keys) && BooksOk(p)
    ensures BooksOk(CasePass(c, p))
  {
    var q := CasePass(c, p);
    CasePassRefuses(c, p);
    forall n ensures n in q.kept <==> MacKeeps(q.items, n) { CaseBooksDeletes(c, p, n); }
    forall x ensures x in q.macCreates <==> FellBy(q.items, x, ByKept, true) { CaseBooksCreates(c, p, x); }
    forall i | 0 <= i < |q.items| && q.items[i].v.Refused? && q.items[i].v.why.MacKept?
      ensures !q.items[i].del && q.items[i].create
    {
      if q.items[i] != p.items[i] {
        if p.items[i].del { CasePassDeleteIff(c, p, i); } else { NewIsCreate(c, p, i); }
      }
    }
  }

  lemma {:induction false} FixedPointTold(c: Context, start: seq<Item>, p: Plan)
    requires Split(c.keys) && Told(c, start, p)
    ensures Told(c, start, CaseFixedPoint(c, p))
    decreases ValidCount(p.items)
  {
    if !CaseStable(c, p.items) {
      CasePassRefuses(c, p);
      RefusingShrinks(p.items, CasePass(c, p).items);
      CaseTold(c, start, p);
      FixedPointTold(c, start, CasePass(c, p));
    }
  }

  // ---- the Mac rule

  // What an entry would meet is there still after the pass.
  lemma MetIsThere(c: Context, l: LocalSide, a: seq<Item>, b: seq<Item>, e: Item, tr: Name, o: Name)
    requires OnlyRefuses(a, b) && MacSound.MeetsAt(c, l, Elems(a), e, tr, o)
    ensures LocallyThere(l, b, e, o)
  {
    if o !in l.refs {
      var x :| x in Elems(a) && x.v.Valid? && x.Dst() != e.Dst() && o in TrackingOf(l, x.Dst())
        && (x.del ==> !e.create);
      var j :| 0 <= j < |a| && a[j] == x;
      assert b[j] == a[j] || b[j].(v := Valid) == a[j];
    }
  }

  lemma ClausesTell(c: Context, l: LocalSide, a: seq<Item>, b: seq<Item>, e: Item)
    requires Split(c.keys) && OnlyRefuses(a, b) && !e.del
    ensures forall x | x in LocalHalf(c, l, Elems(a), e) :: ClauseTells(c, l, b, e, x)
  {
    var es := Elems(a);
    forall x | x in LocalHalf(c, l, es, e) ensures ClauseTells(c, l, b, e, x) {
      MacSound.ClauseListed(c, l, es, e, SortedNames(TrackingOf(l, e.Dst())), x);
      forall m | m in x.meets ensures Pairs(c.keys, x.tracking, m.c.ref) && LocallyThere(l, b, e, m.c.ref) {
        MacSound.LocalHalfLists(c, l, es, e, x.tracking, m.c.ref);
        MetIsThere(c, l, a, b, e, x.tracking, m.c.ref);
      }
    }
  }

  lemma {:induction false} DeleteClauseListed(c: Context, l: LocalSide, trs: seq<Name>, x: Clause)
    requires Split(c.keys) && x in DeleteClauses(c, l, trs)
    ensures x.tracking in trs && x.meets != []
    ensures forall m | m in x.meets :: m.c.ref in l.refs && Pairs(c.keys, x.tracking, m.c.ref)
  {
    var cs := ConflictsIn(c.keys, l.refs, trs[0]);
    if x in DeleteClauses(c, l, trs[1..]) {
      DeleteClauseListed(c, l, trs[1..], x);
    } else {
      ConflictsInComplete(c.keys, l.refs, trs[0]);
    }
  }

  // The same pass, entry by entry.
  lemma MacWriteTells(c: Context, l: LocalSide, p: Plan, i: nat)
    requires Split(c.keys) && c.local == Some(l) && i < |p.items| && !p.items[i].del
    requires MacPass(c, l, p).items[i] != p.items[i]
    ensures var q := MacPass(c, l, p).items;
      q[i].v.Refused? && q[i].v.why.MacWrite? && RuleTells(c, q, q[i], q[i].v.why)
  {
    var q, es := MacPass(c, l, p).items, Elems(p.items);
    MacPassRefuses(c, l, p);
    MacSound.MacPassAt(c, l, p, i);
    assert q[i] == JudgeMacWrite(c, l, es, p.items[i]);
    ClausesTell(c, l, p.items, q, p.items[i]);
    TellsOfRefused(c, l, q, p.items[i], q[i]);
    ConflictsInWay(c, p.items, q, p.items[i].Dst());
  }

  // Being refused changes nothing of what a clause says.
  lemma TellsOfRefused(c: Context, l: LocalSide, items: seq<Item>, e: Item, e': Item)
    requires e'.Dst() == e.Dst() && e'.del == e.del && e'.create == e.create
    ensures forall x | ClauseTells(c, l, items, e, x) :: ClauseTells(c, l, items, e', x)
  {
    forall o | LocallyThere(l, items, e, o) ensures LocallyThere(l, items, e', o) { }
  }

  lemma MacFell(c: Context, l: LocalSide, p: Plan, x: Name, create: bool)
    requires Split(c.keys)
    requires x in (if create then CreatesFellNow(p.items, MacPass(c, l, p).items)
      else FellNow(p.items, MacPass(c, l, p).items))
    ensures FellBy(MacPass(c, l, p).items, x, ByMac, create)
  {
    var q := MacPass(c, l, p).items;
    var i :| 0 <= i < |p.items| && !p.items[i].del && q[i] != p.items[i] && p.items[i].Dst() == x
      && (create ==> p.items[i].create);
    MacPassWriteIff(c, l, p, i);
    MacSound.MacPassAt(c, l, p, i);
    assert FellAt(q, i, x, ByMac);
  }

  lemma MacDeleteTells(c: Context, l: LocalSide, p: Plan, j: nat)
    requires Split(c.keys) && c.local == Some(l) && j < |p.items| && p.items[j].del
    requires MacPass(c, l, p).items[j] != p.items[j]
    ensures var q := MacPass(c, l, p).items;
      q[j].v.Refused? && (q[j].v.why.MacPaired? || q[j].v.why.MacDelete?) && RuleTells(c, q, q[j], q[j].v.why)
  {
    var q := MacPass(c, l, p).items;
    MacPassRefuses(c, l, p);
    MacPassDeleteIff(c, l, p, j);
    match q[j].v.why
    case MacPaired(x) => MacPairTells(c, l, p, j, x);
    case MacDelete(clauses) =>
      MacDeleteSays(c, l, p, j);
      forall x | x in clauses ensures ClauseTells(c, l, q, q[j], x) {
        DeleteClauseListed(c, l, SortedNames(TrackingOf(l, q[j].Dst())), x);
      }
  }

  lemma MacPairTells(c: Context, l: LocalSide, p: Plan, j: nat, x: Name)
    requires Split(c.keys) && c.local == Some(l) && j < |p.items| && p.items[j].del
    requires MacPass(c, l, p).items[j] != p.items[j] && MacPass(c, l, p).items[j].v == Refused(MacPaired(x))
    ensures RuleTells(c, MacPass(c, l, p).items, MacPass(c, l, p).items[j], MacPaired(x))
  {
    var q, d := MacPass(c, l, p).items, p.items[j].Dst();
    MacPassRefuses(c, l, p);
    MacPassDeleteIff(c, l, p, j);
    if d in FellNow(p.items, q) {
      MacPairedByName(c, l, p, j, x);
      MacFell(c, l, p, d, false);
    } else {
      MacFell(c, l, p, x, true);
    }
  }

  lemma MacPairedByName(c: Context, l: LocalSide, p: Plan, j: nat, x: Name)
    requires Split(c.keys) && j < |p.items| && p.items[j].del && MacPass(c, l, p).items[j] != p.items[j]
    requires MacPass(c, l, p).items[j].v == Refused(MacPaired(x))
    requires p.items[j].Dst() in FellNow(p.items, MacPass(c, l, p).items)
    ensures x == p.items[j].Dst()
  {
    MacPassDeleteIff(c, l, p, j);
  }

  lemma MacDeleteSays(c: Context, l: LocalSide, p: Plan, j: nat)
    requires j < |p.items| && p.items[j].del && MacPass(c, l, p).items[j] != p.items[j]
    requires MacPass(c, l, p).items[j].v.Refused? && MacPass(c, l, p).items[j].v.why.MacDelete?
    ensures MacPass(c, l, p).items[j].v.why == MacDelete(DeleteHalf(c, l, p.items[j].Dst()))
    ensures DeleteHalf(c, l, p.items[j].Dst()) != []
  {
    MacDeleteSteps(c, l, p, j);
  }

  lemma MacTold(c: Context, l: LocalSide, start: seq<Item>, p: Plan)
    requires Split(c.keys) && c.local == Some(l) && Told(c, start, p)
    ensures Told(c, start, MacPass(c, l, p))
  {
    var q := MacPass(c, l, p);
    MacPassRefuses(c, l, p);
    forall i | 0 <= i < |p.items| && q.items[i] != p.items[i]
      ensures q.items[i].v.Refused? && RuleTells(c, q.items, q.items[i], q.items[i].v.why)
    {
      if p.items[i].del { MacDeleteTells(c, l, p, i); } else { MacWriteTells(c, l, p, i); }
    }
    MacBooks(c, l, p);
    ToldThen(c, start, p, q);
  }

  lemma MacBooks(c: Context, l: LocalSide, p: Plan)
    requires Split(c.keys) && c.local == Some(l) && BooksOk(p)
    ensures BooksOk(MacPass(c, l, p))
  {
    var q := MacPass(c, l, p);
    MacPassRefuses(c, l, p);
    forall i | 0 <= i < |p.items| && q.items[i] != p.items[i] ensures MacNew(p.items[i], q.items[i]) {
      if p.items[i].del { MacDeleteTells(c, l, p, i); } else { MacWriteTells(c, l, p, i); }
    }
    assert q.kept == p.kept + DeletesRefused(p.items, q.items) && q.macCreates == p.macCreates;
    MacBooksFollow(p, q);
  }

  // What a pass of the Mac rule may do to an entry.
  ghost predicate MacNew(e: Item, after: Item)
  {
    && e.v.Valid? && after.v.Refused? && after.del == e.del && after.Dst() == e.Dst()
    && (if e.del then after.v.why.MacPaired? || after.v.why.MacDelete? else after.v.why.MacWrite?)
  }

  lemma MacBooksFollow(p: Plan, q: Plan)
    requires BooksOk(p) && OnlyRefuses(p.items, q.items)
    requires forall i | 0 <= i < |p.items| && q.items[i] != p.items[i] :: MacNew(p.items[i], q.items[i])
    requires q.kept == p.kept + DeletesRefused(p.items, q.items) && q.macCreates == p.macCreates
    ensures BooksOk(q)
  {
    forall n ensures n in q.kept <==> MacKeeps(q.items, n) {
      if n in p.kept { KeepsStay(p.items, q.items, n); }
      if n in DeletesRefused(p.items, q.items) {
        var i :| 0 <= i < |p.items| && p.items[i].ValidDelete() && q.items[i].v.Refused? && p.items[i].Dst() == n;
        assert KeepsAt(q.items, i, n);
      }
      if j :| KeepsAt(q.items, j, n) {
        if q.items[j] == p.items[j] { assert KeepsAt(p.items, j, n); } else { assert MacNew(p.items[j], q.items[j]); }
      }
    }
    forall x ensures FellBy(q.items, x, ByKept, true) <==> FellBy(p.items, x, ByKept, true) {
      if j :| FellAt(q.items, j, x, ByKept) && q.items[j].create { assert FellAt(p.items, j, x, ByKept); }
      if j :| FellAt(p.items, j, x, ByKept) && p.items[j].create { assert FellAt(q.items, j, x, ByKept); }
    }
  }

  // ---- the whole of phase 2

  lemma {:induction false} SettleTold(c: Context, start: seq<Item>, p: Plan)
    requires Split(c.keys) && Told(c, start, p)
    ensures Told(c, start, Settle(c, p))
    decreases ValidCount(p.items)
  {
    var q := Round(c, p);
    FolderTold(c, start, p);
    FixedPointTold(c, start, p.(items := FolderPass(c, p.items)));
    RoundRefuses(c, p);
    if c.local.Some? {
      var r := MacPass(c, c.local.value, q);
      if r.items != q.items {
        MacPassRefuses(c, c.local.value, q);
        RefusingShrinks(q.items, r.items);
        MacTold(c, c.local.value, start, q);
        SettleTold(c, start, r);
      }
    }
  }

  lemma NothingBookedYet(c: Context, ups: seq<Update>)
    ensures BooksOk(Plan(Validate(c, ups), {}, {}))
  {
    var items := Validate(c, ups);
    forall i | 0 <= i < |items| && items[i].v.Refused? ensures UnbookedRefusal(items[i]) { ValidateTells(c, ups, i); }
    forall j: int, n ensures !KeepsAt(items, j, n) { }
    forall j: int, x ensures !FellAt(items, j, x, ByKept) { }
  }

  // Every refusal phase 2 ends with tells the truth: validation's about the
  // entry and the local repository, every other about refs and entries that
  // are there, in the very relation it names.
  lemma DecideTells(c: Context, ups: seq<Update>, i: nat)
    requires ContextOk(c) && i < |ups| == |Decide(c, ups)| && Decide(c, ups)[i].v.Refused?
    ensures if Validate(c, ups)[i].v.Refused?
            then Decide(c, ups)[i] == Validate(c, ups)[i] && ValidationTells(c, ups, i, Decide(c, ups)[i].v.why)
            else RuleTells(c, Decide(c, ups), Decide(c, ups)[i], Decide(c, ups)[i].v.why)
  {
    var start := Validate(c, ups);
    NothingBookedYet(c, ups);
    SettleTold(c, start, Plan(start, {}, {}));
    if start[i].v.Refused? { ValidateTells(c, ups, i); }
  }

  // ---- a batch nothing is wrong with

  function Destinations(ups: seq<Update>): set<Name>
  {
    set u | u in ups :: u.dst
  }

  // No ref of the remote or the batch is in another's way, and, on a Mac, no
  // tracking ref the batch touches is another spelling of a local one or of
  // another of them.
  ghost predicate Harmless(c: Context, ups: seq<Update>)
  {
    && (forall a, b | a in c.remote.Keys + Destinations(ups) && b in c.remote.Keys + Destinations(ups) ::
          !InFolder(a, b) && !Pairs(c.keys, a, b))
    && (c.local.Some? ==> forall d, tr, o | d in Destinations(ups) && tr in TrackingOf(c.local.value, d)
          && (o in c.local.value.refs || exists x :: x in Destinations(ups) && o in TrackingOf(c.local.value, x)) ::
          !Pairs(c.keys, tr, o))
  }

  lemma OnlyThese(c: Context, ups: seq<Update>, o: Name)
    requires o in FinalSet(c.remote.Keys, Elems(Validate(c, ups)))
    ensures o in c.remote.Keys + Destinations(ups)
  {
    if o !in c.remote {
      var e :| e in Elems(Validate(c, ups)) && e.ValidWrite() && e.Dst() == o;
      var j :| 0 <= j < |ups| && Validate(c, ups)[j] == e;
      JudgeEntryOk(c, ups, ups[j]);
      assert ups[j] in ups;
    }
  }

  lemma ItsDestination(c: Context, ups: seq<Update>, e: Item)
    requires e in Elems(Validate(c, ups))
    ensures e.Dst() in Destinations(ups)
  {
    var j :| 0 <= j < |ups| && Validate(c, ups)[j] == e;
    JudgeEntryOk(c, ups, ups[j]);
    assert ups[j] in ups;
  }

  lemma NoneCollides(c: Context, ups: seq<Update>, l: LocalSide, e: Item)
    requires Harmless(c, ups) && c.local == Some(l) && e in Elems(Validate(c, ups))
    ensures !Collides(c, l, Elems(Validate(c, ups)), e) && !Shadowed(c, l, e.Dst())
  {
    var es := Elems(Validate(c, ups));
    ItsDestination(c, ups, e);
    forall x | x in es ensures x.Dst() in Destinations(ups) { ItsDestination(c, ups, x); }
    forall tr, o ensures !MacSound.MeetsAt(c, l, es, e, tr, o) { }
    forall o | o in FinalSet(c.remote.Keys, es) ensures !Pairs(c.keys, e.Dst(), o) { OnlyThese(c, ups, o); }
  }

  lemma HarmlessRound(c: Context, ups: seq<Update>)
    requires Split(c.keys) && Harmless(c, ups)
    ensures FolderPass(c, Validate(c, ups)) == Validate(c, ups) && CaseStable(c, Validate(c, ups))
  {
    var items := Validate(c, ups);
    var p := Plan(items, {}, {});
    forall i | 0 <= i < |items| ensures FolderPass(c, items)[i] == items[i] && !CaseRefuses(c, Elems(items), items[i]) {
      ItsDestination(c, ups, items[i]);
      forall o | o in FinalSet(c.remote.Keys, Elems(items))
        ensures !InFolder(o, items[i].Dst()) && !Pairs(c.keys, items[i].Dst(), o)
      {
        OnlyThese(c, ups, o);
      }
      FolderPassIff(c, items, i);
      ConflictsInComplete(c.keys, FinalSet(c.remote.Keys, Elems(items)), items[i].Dst());
    }
    assert FolderPass(c, items) == items;
  }

  lemma HarmlessMac(c: Context, ups: seq<Update>, l: LocalSide)
    requires Split(c.keys) && Harmless(c, ups) && c.local == Some(l)
    ensures MacPass(c, l, Plan(Validate(c, ups), {}, {})).items == Validate(c, ups)
  {
    var p := Plan(Validate(c, ups), {}, {});
    var after := MacPass(c, l, p).items;
    forall i | 0 <= i < |p.items| && !p.items[i].del ensures after[i] == p.items[i] {
      NoneCollides(c, ups, l, p.items[i]);
      MacPassWriteIff(c, l, p, i);
    }
    assert FellNow(p.items, after) == {} && CreatesFellNow(p.items, after) == {};
    forall j | 0 <= j < |p.items| && p.items[j].del ensures after[j] == p.items[j] {
      NoneCollides(c, ups, l, p.items[j]);
      MacPassDeleteIff(c, l, p, j);
    }
  }

  // Such a batch keeps the verdicts validation gave.
  lemma HarmlessIsApproved(c: Context, ups: seq<Update>)
    requires Split(c.keys) && Harmless(c, ups)
    ensures Decide(c, ups) == Validate(c, ups)
  {
    var p := Plan(Validate(c, ups), {}, {});
    HarmlessRound(c, ups);
    assert p.(items := FolderPass(c, p.items)) == p;
    assert Round(c, p) == p;
    if c.local.Some? { HarmlessMac(c, ups, c.local.value); }
  }
}
