/** The Mac push rule at its fixed point (macpush.go; push.go's outer loop):
    what no longer collides, which deletes are refused together with the write
    they belong to, and how many rounds it takes. */
module MacSound {
  import opened Names
  import opened Wrappers
  import opened Keys
  import opened CaseConflicts
  import opened Batch
  import opened Phase2
  import Phase2Sound

  // ---- what the clauses mean

  // Tracking ref tr of write e would meet o: o is a local ref, or another
  // write's tracking ref, or, for an update, another delete's.
  ghost predicate MeetsAt(c: Context, l: LocalSide, es: set<Item>, e: Item, tr: Name, o: Name)
  {
    && tr in TrackingOf(l, e.Dst()) && Pairs(c.keys, tr, o)
    && (o in l.refs
        || (exists w :: w in es && w.ValidWrite() && w.Dst() != e.Dst() && o in TrackingOf(l, w.Dst()))
        || (!e.create && exists d :: d in es && d.ValidDelete() && d.Dst() != e.Dst() && o in TrackingOf(l, d.Dst())))
  }

  lemma OthersIff(names: set<Name>, x: Name)
    ensures SmallestOther(names, x).Some? <==> exists n :: n in names && n != x
  {
    if n :| n in names && n != x { assert n in names - {x}; }
  }

  ghost predicate Counts(l: LocalSide, es: set<Item>, e: Item, o: Name)
  {
    || o in l.refs
    || SmallestOther(Owners(l, es, o), e.Dst()).Some?
    || (!e.create && SmallestOther(Deleters(l, es, o), e.Dst()).Some?)
  }

  lemma CountsIff(l: LocalSide, es: set<Item>, e: Item, o: Name)
    ensures Counts(l, es, e, o) <==>
      (o in l.refs
       || (exists w :: w in es && w.ValidWrite() && w.Dst() != e.Dst() && o in TrackingOf(l, w.Dst()))
       || (!e.create && exists d :: d in es && d.ValidDelete() && d.Dst() != e.Dst() && o in TrackingOf(l, d.Dst())))
  {
    OthersIff(Owners(l, es, o), e.Dst());
    OthersIff(Deleters(l, es, o), e.Dst());
    if w :| w in es && w.ValidWrite() && w.Dst() != e.Dst() && o in TrackingOf(l, w.Dst()) {
      assert w.Dst() in Owners(l, es, o);
    }
    if d :| d in es && d.ValidDelete() && d.Dst() != e.Dst() && o in TrackingOf(l, d.Dst()) {
      assert d.Dst() in Deleters(l, es, o);
    }
  }

  lemma {:induction false} MeetingsIff(l: LocalSide, es: set<Item>, e: Item, cs: seq<Conflict>)
    ensures Meetings(l, es, e, cs) != [] <==> exists i | 0 <= i < |cs| :: Counts(l, es, e, cs[i].ref)
  {
    if cs != [] {
      MeetingsIff(l, es, e, cs[1..]);
      if i :| 0 <= i < |cs| && Counts(l, es, e, cs[i].ref) {
        if i > 0 { assert cs[1..][i - 1] == cs[i]; }
      }
      if i :| 0 <= i < |cs[1..]| && Counts(l, es, e, cs[1..][i].ref) {
        assert cs[i + 1] == cs[1..][i];
      }
    }
  }

  // A counted ref is in the set the tracking refs are checked against.
  lemma CountedIsTracked(l: LocalSide, es: set<Item>, e: Item, o: Name)
    requires Counts(l, es, e, o)
    ensures o in TrackedSet(l, es)
  {
    if o !in l.refs {
      if SmallestOther(Owners(l, es, o), e.Dst()).Some? {
        var n :| n in Owners(l, es, o);
      } else {
        var n :| n in Deleters(l, es, o);
      }
    }
  }

  lemma MeetsIff(c: Context, l: LocalSide, es: set<Item>, e: Item, tr: Name, o: Name)
    requires tr in TrackingOf(l, e.Dst())
    ensures MeetsAt(c, l, es, e, tr, o) <==> Pairs(c.keys, tr, o) && Counts(l, es, e, o)
  {
    CountsIff(l, es, e, o);
  }

  lemma ConflictListed(k: Keys, refs: set<Name>, x: Name, i: nat)
    requires Split(k) && i < |ConflictsIn(k, refs, x)|
    ensures Pairs(k, x, ConflictsIn(k, refs, x)[i].ref)
  {
    ConflictsInComplete(k, refs, x);
  }

  lemma ListedConflict(k: Keys, refs: set<Name>, x: Name, o: Name) returns (i: nat)
    requires Split(k) && o in refs && Pairs(k, x, o)
    ensures i < |ConflictsIn(k, refs, x)| && ConflictsIn(k, refs, x)[i].ref == o
  {
    ConflictsInComplete(k, refs, x);
    i :| 0 <= i < |ConflictsIn(k, refs, x)| && ConflictsIn(k, refs, x)[i].ref == o;
  }

  lemma TrackingMeets(c: Context, l: LocalSide, es: set<Item>, e: Item, tr: Name)
    requires Split(c.keys) && tr in TrackingOf(l, e.Dst())
    ensures Meetings(l, es, e, ConflictsIn(c.keys, TrackedSet(l, es), tr)) != [] <==>
      exists o :: MeetsAt(c, l, es, e, tr, o)
  {
    var cs := ConflictsIn(c.keys, TrackedSet(l, es), tr);
    MeetingsIff(l, es, e, cs);
    if i :| 0 <= i < |cs| && Counts(l, es, e, cs[i].ref) {
      ConflictListed(c.keys, TrackedSet(l, es), tr, i);
      MeetsIff(c, l, es, e, tr, cs[i].ref);
    }
    if o :| MeetsAt(c, l, es, e, tr, o) {
      MeetsIff(c, l, es, e, tr, o);
      CountedIsTracked(l, es, e, o);
      var i := ListedConflict(c.keys, TrackedSet(l, es), tr, o);
    }
  }

  lemma {:induction false} WriteClausesIff(c: Context, l: LocalSide, es: set<Item>, e: Item, trs: seq<Name>)
    requires Split(c.keys) && forall tr | tr in trs :: tr in TrackingOf(l, e.Dst())
    ensures WriteClauses(c, l, es, e, trs) != [] <==> exists tr, o :: tr in trs && MeetsAt(c, l, es, e, tr, o)
  {
    if trs != [] {
      WriteClausesIff(c, l, es, e, trs[1..]);
      TrackingMeets(c, l, es, e, trs[0]);
      assert forall tr :: tr in trs <==> tr == trs[0] || tr in trs[1..];
    }
  }

  // What a clause says of one conflict that counts.
  function MeetingOf(l: LocalSide, es: set<Item>, e: Item, x: Conflict): Meeting
  {
    Meeting(x, SmallestOther(Owners(l, es, x.ref), e.Dst()),
            if e.create then None else SmallestOther(Deleters(l, es, x.ref), e.Dst()))
  }

  // The other write, and the other delete, that a meeting names: the smallest
  // there is, if there is one.
  lemma MeetingNames(l: LocalSide, es: set<Item>, e: Item, x: Conflict)
    ensures var others := set w | w in es && w.v.Valid? && !w.del && w.Dst() != e.Dst() && TracksRef(l, w, x.ref) ::
      w.Dst();
            var deletes := set d | d in es && d.v.Valid? && d.del && d.Dst() != e.Dst() && TracksRef(l, d, x.ref) ::
              d.Dst();
            var m := MeetingOf(l, es, e, x);
            && (m.owner.None? <==> others == {}) && (m.owner.Some? ==> IsMin(m.owner.value, others))
            && (e.create ==> m.deleter.None?)
            && (!e.create ==>
              (m.deleter.None? <==> deletes == {}) && (m.deleter.Some? ==> IsMin(m.deleter.value, deletes)))
  {
    var others := set w | w in es && w.v.Valid? && !w.del && w.Dst() != e.Dst() && TracksRef(l, w, x.ref) :: w.Dst();
    var deletes := set d | d in es && d.v.Valid? && d.del && d.Dst() != e.Dst() && TracksRef(l, d, x.ref) :: d.Dst();
    assert Owners(l, es, x.ref) - {e.Dst()} == others;
    assert Deleters(l, es, x.ref) - {e.Dst()} == deletes;
  }

  predicate TracksRef(l: LocalSide, e: Item, tr: Name)
  {
    e.Dst() in l.tracking && tr in l.tracking[e.Dst()]
  }

  lemma {:induction false} MeetingListed(l: LocalSide, es: set<Item>, e: Item, cs: seq<Conflict>, m: Meeting)
    ensures m in Meetings(l, es, e, cs) <==> m.c in cs && Counts(l, es, e, m.c.ref) && m == MeetingOf(l, es, e, m.c)
  {
    if cs != [] {
      MeetingListed(l, es, e, cs[1..], m);
      assert m.c in cs <==> m.c == cs[0] || m.c in cs[1..];
    }
  }

  lemma {:induction false} ClauseListed(c: Context, l: LocalSide, es: set<Item>, e: Item, trs: seq<Name>, x: Clause)
    ensures x in WriteClauses(c, l, es, e, trs) <==>
      x.tracking in trs && x.meets != []
        && x.meets == Meetings(l, es, e, ConflictsIn(c.keys, TrackedSet(l, es), x.tracking))
  {
    if trs != [] {
      ClauseListed(c, l, es, e, trs[1..], x);
      assert x.tracking in trs <==> x.tracking == trs[0] || x.tracking in trs[1..];
    }
  }

  ghost predicate ClausesSorted(q: seq<Clause>)
  {
    forall i, j | 0 <= i < j < |q| :: Less(q[i].tracking, q[j].tracking)
  }

  lemma {:induction false} WriteClausesSorted(c: Context, l: LocalSide, es: set<Item>, e: Item, trs: seq<Name>)
    requires SortedBy(trs)
    ensures ClausesSorted(WriteClauses(c, l, es, e, trs))
  {
    if trs != [] {
      var rest := WriteClauses(c, l, es, e, trs[1..]);
      WriteClausesSorted(c, l, es, e, trs[1..]);
      forall j | 0 <= j < |rest| ensures Less(trs[0], rest[j].tracking) {
        ClauseListed(c, l, es, e, trs[1..], rest[j]);
        var k :| 0 <= k < |trs| - 1 && trs[1..][k] == rest[j].tracking;
      }
    }
  }

  // A write's clauses name its colliding tracking refs in order, each with
  // exactly what it meets: the shallowest pair, the smallest other write it
  // belongs to and, for an update, the smallest other delete.
  lemma LocalHalfLists(c: Context, l: LocalSide, es: set<Item>, e: Item, tr: Name, o: Name)
    requires Split(c.keys)
    ensures ClausesSorted(LocalHalf(c, l, es, e))
    ensures MeetsAt(c, l, es, e, tr, o) <==>
      exists x, m :: x in LocalHalf(c, l, es, e) && x.tracking == tr && m in x.meets && m.c.ref == o
    ensures forall x, m | x in LocalHalf(c, l, es, e) && m in x.meets ::
      Some(m.c) == FirstPair(c.keys, x.tracking, m.c.ref) && m == MeetingOf(l, es, e, m.c)
  {
    var trs, clauses := SortedNames(TrackingOf(l, e.Dst())), LocalHalf(c, l, es, e);
    WriteClausesSorted(c, l, es, e, trs);
    forall x, m | x in clauses && m in x.meets
      ensures Some(m.c) == FirstPair(c.keys, x.tracking, m.c.ref) && m == MeetingOf(l, es, e, m.c)
      ensures MeetsAt(c, l, es, e, x.tracking, m.c.ref)
    {
      ClauseListed(c, l, es, e, trs, x);
      var cs := ConflictsIn(c.keys, TrackedSet(l, es), x.tracking);
      MeetingListed(l, es, e, cs, m);
      var i :| 0 <= i < |cs| && cs[i] == m.c;
      ConflictListed(c.keys, TrackedSet(l, es), x.tracking, i);
      MeetsIff(c, l, es, e, x.tracking, m.c.ref);
    }
    if MeetsAt(c, l, es, e, tr, o) {
      MeetsIff(c, l, es, e, tr, o);
      CountedIsTracked(l, es, e, o);
      var cs := ConflictsIn(c.keys, TrackedSet(l, es), tr);
      var i := ListedConflict(c.keys, TrackedSet(l, es), tr, o);
      var m := MeetingOf(l, es, e, cs[i]);
      MeetingListed(l, es, e, cs, m);
      var x := Clause(tr, Meetings(l, es, e, cs));
      ClauseListed(c, l, es, e, trs, x);
      assert x in clauses && m in x.meets && m.c.ref == o;
    }
  }

  // A write is refused locally exactly when one of its tracking refs meets
  // something, and on the remote side exactly when it is an update that would
  // stand beside another spelling.
  lemma MacRefusesWriteIff(c: Context, l: LocalSide, es: set<Item>, e: Item)
    requires Split(c.keys)
    ensures LocalHalf(c, l, es, e) != [] <==> exists tr, o :: MeetsAt(c, l, es, e, tr, o)
    ensures RemoteHalf(c, es, e) != [] <==>
              !e.create && exists o :: o in FinalSet(c.remote.Keys, es) && Pairs(c.keys, e.Dst(), o)
  {
    WriteClausesIff(c, l, es, e, SortedNames(TrackingOf(l, e.Dst())));
    if tr, o :| MeetsAt(c, l, es, e, tr, o) { assert tr in SortedNames(TrackingOf(l, e.Dst())); }
    ConflictsInComplete(c.keys, FinalSet(c.remote.Keys, es), e.Dst());
  }

  lemma {:induction false} DeleteClausesIff(c: Context, l: LocalSide, trs: seq<Name>)
    requires Split(c.keys)
    ensures DeleteClauses(c, l, trs) != [] <==> exists tr, o :: tr in trs && o in l.refs && Pairs(c.keys, tr, o)
  {
    if trs != [] {
      DeleteClausesIff(c, l, trs[1..]);
      ConflictsInComplete(c.keys, l.refs, trs[0]);
      assert forall tr :: tr in trs <==> tr == trs[0] || tr in trs[1..];
    }
  }

  lemma DeleteHalfIff(c: Context, l: LocalSide, dst: Name)
    requires Split(c.keys)
    ensures DeleteHalf(c, l, dst) != [] <==>
      exists tr, o :: tr in TrackingOf(l, dst) && o in l.refs && Pairs(c.keys, tr, o)
  {
    DeleteClausesIff(c, l, SortedNames(TrackingOf(l, dst)));
  }

  lemma {:induction false} DeleteClauseIff(c: Context, l: LocalSide, trs: seq<Name>, tr: Name, o: Name)
    requires Split(c.keys)
    ensures (exists x, m :: x in DeleteClauses(c, l, trs) && x.tracking == tr && m in x.meets && m.c.ref == o) <==>
      tr in trs && o in l.refs && Pairs(c.keys, tr, o)
  {
    if trs != [] {
      var cs := ConflictsIn(c.keys, l.refs, trs[0]);
      DeleteClauseIff(c, l, trs[1..], tr, o);
      ConflictsInComplete(c.keys, l.refs, trs[0]);
      var first := Clause(trs[0], Plain(cs));
      PlainLists(cs, o);
      assert tr in trs <==> tr == trs[0] || tr in trs[1..];
      forall x ensures x in DeleteClauses(c, l, trs) <==>
        (cs != [] && x == first) || x in DeleteClauses(c, l, trs[1..]) { }
    }
  }

  lemma PlainLists(cs: seq<Conflict>, o: Name)
    ensures (exists m :: m in Plain(cs) && m.c.ref == o) <==> exists k :: 0 <= k < |cs| && cs[k].ref == o
  {
    if k :| 0 <= k < |cs| && cs[k].ref == o { assert Plain(cs)[k] in Plain(cs); }
  }

  // The clauses of a delete list exactly the local refs its tracking refs meet.
  lemma DeleteHalfLists(c: Context, l: LocalSide, d: Name, tr: Name, o: Name)
    requires Split(c.keys)
    ensures (exists x, m :: x in DeleteHalf(c, l, d) && x.tracking == tr && m in x.meets && m.c.ref == o) <==>
      tr in TrackingOf(l, d) && o in l.refs && Pairs(c.keys, tr, o)
  {
    DeleteClauseIff(c, l, SortedNames(TrackingOf(l, d)), tr, o);
  }

  // ---- the fixed point

  // No valid write or delete collides as the rule defines.
  ghost predicate NoCollision(c: Context, l: LocalSide, items: seq<Item>)
  {
    forall i | 0 <= i < |items| ::
      && (items[i].ValidWrite() ==> !(exists tr, o :: MeetsAt(c, l, Elems(items), items[i], tr, o)))
      && (items[i].ValidWrite() && !items[i].create ==>
            forall o | o in FinalSet(c.remote.Keys, Elems(items)) :: !Pairs(c.keys, items[i].Dst(), o))
      && (items[i].ValidDelete() ==>
            !exists tr, o :: tr in TrackingOf(l, items[i].Dst()) && o in l.refs && Pairs(c.keys, tr, o))
  }

  // A pass that changes nothing found nothing to refuse in any of its parts.
  lemma MacStable(c: Context, l: LocalSide, p: Plan)
    requires MacPass(c, l, p).items == p.items
    ensures MacWrites(c, l, p.items) == p.items && MacDeletes(c, l, p.items) == p.items
  {
    var es := Elems(p.items);
    var one := MacWrites(c, l, p.items);
    var exact := MacExacts(one, RefusedWrites(c, l, es));
    var two := MacRenames(c, exact, RefusedCreates(c, l, es));
    var three := MacDeletes(c, l, two);
    forall i | 0 <= i < |p.items| ensures one[i] == p.items[i] && two[i] == p.items[i] {
      assert three[i] == JudgeMacDelete(c, l, two[i]) && exact[i] == JudgeMacExact(RefusedWrites(c, l, es), one[i]);
      assert one[i] == JudgeMacWrite(c, l, es, p.items[i]);
      assert two[i] == JudgePaired(c, Elems(exact), RefusedCreates(c, l, es), RefusedCreates(c, l, es), exact[i]);
    }
    assert two == p.items;
  }

  lemma StableHasNoCollision(c: Context, l: LocalSide, p: Plan)
    requires Split(c.keys) && MacPass(c, l, p).items == p.items
    ensures NoCollision(c, l, p.items)
  {
    MacStable(c, l, p);
    var es := Elems(p.items);
    forall i | 0 <= i < |p.items|
      ensures p.items[i].ValidWrite() ==> !(exists tr, o :: MeetsAt(c, l, es, p.items[i], tr, o))
      ensures p.items[i].ValidWrite() && !p.items[i].create ==>
                forall o | o in FinalSet(c.remote.Keys, es) :: !Pairs(c.keys, p.items[i].Dst(), o)
      ensures p.items[i].ValidDelete() ==>
                !exists tr, o :: tr in TrackingOf(l, p.items[i].Dst()) && o in l.refs && Pairs(c.keys, tr, o)
    {
      var e := p.items[i];
      assert e == JudgeMacWrite(c, l, es, e) && e == JudgeMacDelete(c, l, e);
      MacRefusesWriteIff(c, l, es, e);
      DeleteHalfIff(c, l, e.Dst());
    }
  }

  lemma {:induction false} SettleHasNoCollision(c: Context, p: Plan)
    requires Split(c.keys) && c.local.Some?
    ensures NoCollision(c, c.local.value, Settle(c, p).items)
    decreases ValidCount(p.items)
  {
    var q := Round(c, p);
    var r := MacPass(c, c.local.value, q);
    RoundRefuses(c, p);
    MacPassRefuses(c, c.local.value, q);
    RefusingShrinks(q.items, r.items);
    if r.items == q.items {
      StableHasNoCollision(c, c.local.value, q);
    } else {
      SettleHasNoCollision(c, r);
    }
  }

  // ---- deletes stand or fall with the write they belong to

  // Refused by the case rule or by the Mac rule.
  predicate RuleRefused(e: Item)
  {
    e.v.Refused? && !e.del && (e.v.why.CaseVariant? || e.v.why.MacKept? || e.v.why.MacWrite?)
  }

  // d is the held rename half of a create x the rules refused: refused with
  // it, unless a valid write puts d's name back. And a delete of the very name
  // a Mac-refused write was to write is always refused with it.
  ghost predicate Paired(c: Context, items: seq<Item>)
  {
    forall i, j | 0 <= i < |items| && 0 <= j < |items| && RuleRefused(items[i]) && items[j].ValidDelete() ::
      && (items[i].create && items[j].Dst() in c.remote && SharesKey(c.keys, items[j].Dst(), items[i].Dst()) ==>
            items[j].Dst() in Written(Elems(items)))
      && (items[i].v.why.MacWrite? ==> items[j].Dst() != items[i].Dst())
  }

  // Whatever a pass refuses keeps its flags.
  ghost predicate FlagsOk(c: Context, items: seq<Item>)
  {
    && ItemsOk(c, items)
    && forall i | 0 <= i < |items| && RuleRefused(items[i]) :: items[i].create <==> items[i].Dst() !in c.remote
  }

  // The names written keep being written, but for creates, unless the pass is
  // the Mac rule's.
  lemma WrittenHeld(c: Context, before: seq<Item>, after: seq<Item>, d: Name)
    requires ItemsOk(c, before) && OnlyRefuses(before, after)
    requires forall i | 0 <= i < |before| && before[i].ValidWrite() && !before[i].create :: after[i] == before[i]
    requires d in Written(Elems(before)) && d in c.remote
    ensures d in Written(Elems(after))
  {
    var e :| e in Elems(before) && e.ValidWrite() && e.Dst() == d;
    var i :| 0 <= i < |before| && before[i] == e;
    assert after[i] in Elems(after);
  }

  lemma PairedCreateExists(k: Keys, refused: set<Name>, d: Name, x: Name)
    requires x in refused && SharesKey(k, x, d)
    ensures PairedCreate(k, refused, d).Some?
  {
    var xs := set y | y in refused && SharesKey(k, y, d);
    assert x in xs;
  }

  lemma FolderPassKeepsPaired(c: Context, items: seq<Item>)
    requires FlagsOk(c, items) && Paired(c, items)
    ensures FlagsOk(c, FolderPass(c, items)) && Paired(c, FolderPass(c, items))
  {
    var after := FolderPass(c, items);
    FolderPassRefuses(c, items);
    OnlyRefusesKeepsItemsOk(c, items, after);
    forall i, j | 0 <= i < |after| && 0 <= j < |after| && RuleRefused(after[i]) && after[j].ValidDelete()
      ensures after[i].create && after[j].Dst() in c.remote && SharesKey(c.keys, after[j].Dst(), after[i].Dst()) ==>
                after[j].Dst() in Written(Elems(after))
      ensures after[i].v.why.MacWrite? ==> after[j].Dst() != after[i].Dst()
    {
      assert after[i] == items[i] && after[j] == items[j];
      if after[i].create && after[j].Dst() in c.remote && SharesKey(c.keys, after[j].Dst(), after[i].Dst()) {
        WrittenHeld(c, items, after, after[j].Dst());
      }
    }
  }

  lemma CasePassKeepsPaired(c: Context, p: Plan)
    requires FlagsOk(c, p.items) && Paired(c, p.items)
    ensures FlagsOk(c, CasePass(c, p).items) && Paired(c, CasePass(c, p).items)
  {
    var after := CasePass(c, p).items;
    CasePassRefuses(c, p);
    OnlyRefusesKeepsItemsOk(c, p.items, after);
    forall i | 0 <= i < |after| && RuleRefused(after[i]) ensures after[i].create <==> after[i].Dst() !in c.remote {
      CasePassAt(c, p, i);
    }
    forall i, j | 0 <= i < |after| && 0 <= j < |after| && RuleRefused(after[i]) && after[j].ValidDelete()
      ensures after[i].create && after[j].Dst() in c.remote && SharesKey(c.keys, after[j].Dst(), after[i].Dst()) ==>
                after[j].Dst() in Written(Elems(after))
      ensures after[i].v.why.MacWrite? ==> after[j].Dst() != after[i].Dst()
    {
      CasePassAt(c, p, i);
      CasePassAt(c, p, j);
      if after[i].create && after[j].Dst() in c.remote && SharesKey(c.keys, after[j].Dst(), after[i].Dst()) {
        CasePassPairs(c, p, i, j);
      }
    }
  }

  // Where an entry of the pass's result comes from.
  lemma CasePassAt(c: Context, p: Plan, i: nat)
    requires i < |p.items|
    ensures var before, after := p.items[i], CasePass(c, p).items[i];
            && (after.v.Valid? ==> after == before)
            && (before.del || !before.create ==>
              after == before || (before.del && before.v.Valid? && after.v.Refused? && after.del))
            && (RuleRefused(after) && after != before ==>
                  !after.v.why.MacWrite? && after.create && before.ValidCreate()
                    && CaseRefuses(c, Elems(p.items), before)
                  && before.Dst() == after.Dst())
  {
    var judged := JudgeCases(c, p.items, p.kept);
    assert judged[i] == JudgeCase(c, Elems(p.items), p.kept, p.items[i]);
  }

  lemma CasePassPairs(c: Context, p: Plan, i: nat, j: nat)
    requires FlagsOk(c, p.items) && Paired(c, p.items) && i < |p.items| && j < |p.items|
    requires var after := CasePass(c, p).items;
             RuleRefused(after[i]) && after[j].ValidDelete() && after[i].create && after[j].Dst() in c.remote
             && SharesKey(c.keys, after[j].Dst(), after[i].Dst())
    ensures CasePass(c, p).items[j].Dst() in Written(Elems(CasePass(c, p).items))
  {
    var after := CasePass(c, p).items;
    CasePassAt(c, p, i);
    CasePassAt(c, p, j);
    CasePassRefuses(c, p);
    if after[i] != p.items[i] {
      NewRefusalPairs(c, p, i, j);
    }
    CasePassKeepsWritten(c, p);
    WrittenHeld(c, p.items, after, after[j].Dst());
  }

  lemma CasePassKeepsWritten(c: Context, p: Plan)
    ensures forall i | 0 <= i < |p.items| && p.items[i].ValidWrite() && !p.items[i].create ::
      CasePass(c, p).items[i] == p.items[i]
  {
    forall i | 0 <= i < |p.items| && p.items[i].ValidWrite() && !p.items[i].create
      ensures CasePass(c, p).items[i] == p.items[i]
    {
      CasePassAt(c, p, i);
    }
  }

  // A delete that outlives the refusal of its create is put back by a write.
  lemma NewRefusalPairs(c: Context, p: Plan, i: nat, j: nat)
    requires i < |p.items| && j < |p.items| && CaseRefuses(c, Elems(p.items), p.items[i])
    requires CasePass(c, p).items[j].ValidDelete() && p.items[j].Dst() in c.remote
    requires CasePass(c, p).items[j] == p.items[j]
    requires SharesKey(c.keys, p.items[j].Dst(), p.items[i].Dst())
    ensures p.items[j].Dst() in Written(Elems(p.items))
  {
    var es := Elems(p.items);
    var judged := JudgeCases(c, p.items, p.kept);
    var d := p.items[j].Dst();
    var refused, mac := CaseRefusals(c, es), p.macCreates + MacRefusals(c, es, p.kept);
    JudgeCasesRefuses(c, p.items, p.kept);
    Phase2Sound.RefusingShrinksSets(p.items, judged);
    Phase2Sound.RefusesIsListed(c, es, p.items[i]);
    PairedCreateExists(c.keys, refused, d, p.items[i].Dst());
    assert judged[j] == p.items[j];
    UnpairedIsWritten(c, Elems(judged), refused, mac, p.items[j]);
    assert CasePass(c, p).items[j] == JudgePaired(c, Elems(judged), refused, mac, judged[j]);
  }

  lemma UnpairedIsWritten(c: Context, es: set<Item>, refused: set<Name>, mac: set<Name>, e: Item)
    requires e.ValidDelete() && e.Dst() in c.remote && PairedCreate(c.keys, refused, e.Dst()).Some?
    ensures JudgePaired(c, es, refused, mac, e).v.Valid? ==> e.Dst() in Written(es)
  {
  }

  // Where an entry of a Mac pass's result comes from.
  lemma MacPassAt(c: Context, l: LocalSide, p: Plan, i: nat)
    requires i < |p.items|
    ensures var before, after := p.items[i], MacPass(c, l, p).items[i];
            && (after.v.Valid? ==> after == before)
            && (before.ValidWrite() ==> after == JudgeMacWrite(c, l, Elems(p.items), before))
            && (before.v.Refused? ==> after == before)
            && after.Dst() == before.Dst() && after.del == before.del && after.create == before.create
  {
    var es := Elems(p.items);
    var one := MacWrites(c, l, p.items);
    var exact := MacExacts(one, RefusedWrites(c, l, es));
    var two := MacRenames(c, exact, RefusedCreates(c, l, es));
    assert one[i] == JudgeMacWrite(c, l, es, p.items[i]);
    assert exact[i] == JudgeMacExact(RefusedWrites(c, l, es), one[i]);
    assert two[i] == JudgePaired(c, Elems(exact), RefusedCreates(c, l, es), RefusedCreates(c, l, es), exact[i]);
    assert MacPass(c, l, p).items[i] == JudgeMacDelete(c, l, two[i]);
  }

  // A delete that outlives the pass is not of a name the pass refused to
  // write, and if it is the held rename half of a refused create, a write
  // that outlived part 1 puts it back.
  lemma MacPassSpares(c: Context, l: LocalSide, p: Plan, j: nat)
    requires j < |p.items| && MacPass(c, l, p).items[j].ValidDelete()
    ensures p.items[j].Dst() !in RefusedWrites(c, l, Elems(p.items))
    ensures var d := p.items[j].Dst();
            d in c.remote && PairedCreate(c.keys, RefusedCreates(c, l, Elems(p.items)), d).Some? ==>
              d in Written(Elems(MacPass(c, l, p).items))
  {
    var es := Elems(p.items);
    var one := MacWrites(c, l, p.items);
    var exact := MacExacts(one, RefusedWrites(c, l, es));
    var two := MacRenames(c, exact, RefusedCreates(c, l, es));
    var three := MacDeletes(c, l, two);
    assert one[j] == JudgeMacWrite(c, l, es, p.items[j]);
    assert exact[j] == JudgeMacExact(RefusedWrites(c, l, es), one[j]);
    assert two[j] == JudgePaired(c, Elems(exact), RefusedCreates(c, l, es), RefusedCreates(c, l, es), exact[j]);
    assert three[j] == JudgeMacDelete(c, l, two[j]);
    WritesSurvive(exact, two, p.items[j].Dst());
    WritesSurvive(two, three, p.items[j].Dst());
  }

  lemma WritesSurvive(before: seq<Item>, after: seq<Item>, d: Name)
    requires |before| == |after| && forall i | 0 <= i < |before| && before[i].ValidWrite() :: after[i] == before[i]
    ensures d in Written(Elems(before)) ==> d in Written(Elems(after))
  {
    if d in Written(Elems(before)) {
      var e :| e in Elems(before) && e.ValidWrite() && e.Dst() == d;
      var i :| 0 <= i < |before| && before[i] == e;
      assert after[i] in Elems(after);
    }
  }

  // A write the pass did not refuse is still there.
  lemma MacPassWritten(c: Context, l: LocalSide, p: Plan, d: Name)
    requires d in Written(Elems(p.items)) && d !in RefusedWrites(c, l, Elems(p.items))
    ensures d in Written(Elems(MacPass(c, l, p).items))
  {
    var es, after := Elems(p.items), MacPass(c, l, p).items;
    var e :| e in es && e.ValidWrite() && e.Dst() == d;
    var i :| 0 <= i < |p.items| && p.items[i] == e;
    MacPassAt(c, l, p, i);
    assert !MacRefusesWrite(c, l, es, e);
    assert after[i] in Elems(after);
  }

  lemma MacPassKeepsPaired(c: Context, l: LocalSide, p: Plan)
    requires FlagsOk(c, p.items) && Paired(c, p.items)
    ensures FlagsOk(c, MacPass(c, l, p).items) && Paired(c, MacPass(c, l, p).items)
  {
    var after := MacPass(c, l, p).items;
    MacPassRefuses(c, l, p);
    OnlyRefusesKeepsItemsOk(c, p.items, after);
    forall i | 0 <= i < |after| && RuleRefused(after[i]) ensures after[i].create <==> after[i].Dst() !in c.remote {
      MacPassAt(c, l, p, i);
    }
    forall i, j | 0 <= i < |after| && 0 <= j < |after| && RuleRefused(after[i]) && after[j].ValidDelete()
      ensures after[i].create && after[j].Dst() in c.remote && SharesKey(c.keys, after[j].Dst(), after[i].Dst()) ==>
                after[j].Dst() in Written(Elems(after))
      ensures after[i].v.why.MacWrite? ==> after[j].Dst() != after[i].Dst()
    {
      MacPassPairs(c, l, p, i, j);
    }
  }

  lemma MacPassPairs(c: Context, l: LocalSide, p: Plan, i: nat, j: nat)
    requires FlagsOk(c, p.items) && Paired(c, p.items) && i < |p.items| && j < |p.items|
    requires RuleRefused(MacPass(c, l, p).items[i]) && MacPass(c, l, p).items[j].ValidDelete()
    ensures var after := MacPass(c, l, p).items;
            && (after[i].create && after[j].Dst() in c.remote && SharesKey(c.keys, after[j].Dst(), after[i].Dst()) ==>
                  after[j].Dst() in Written(Elems(after)))
            && (after[i].v.why.MacWrite? ==> after[j].Dst() != after[i].Dst())
  {
    var es, after := Elems(p.items), MacPass(c, l, p).items;
    MacPassAt(c, l, p, i);
    MacPassAt(c, l, p, j);
    MacPassSpares(c, l, p, j);
    var d, e := after[j].Dst(), p.items[i];
    if e.v.Refused? {
      if after[i].create && d in c.remote && SharesKey(c.keys, d, after[i].Dst()) { MacPassWritten(c, l, p, d); }
    } else {
      assert e in es && MacRefusesWrite(c, l, es, e);
      assert e.Dst() in RefusedWrites(c, l, es);
      if after[i].create && SharesKey(c.keys, d, after[i].Dst()) {
        assert e.Dst() in RefusedCreates(c, l, es);
        PairedCreateExists(c.keys, RefusedCreates(c, l, es), d, e.Dst());
      }
    }
  }

  lemma {:induction false} CaseFixedPointKeepsPaired(c: Context, p: Plan)
    requires FlagsOk(c, p.items) && Paired(c, p.items)
    ensures FlagsOk(c, CaseFixedPoint(c, p).items) && Paired(c, CaseFixedPoint(c, p).items)
    decreases ValidCount(p.items)
  {
    if !CaseStable(c, p.items) {
      CasePassRefuses(c, p);
      RefusingShrinks(p.items, CasePass(c, p).items);
      CasePassKeepsPaired(c, p);
      CaseFixedPointKeepsPaired(c, CasePass(c, p));
    }
  }

  lemma {:induction false} SettleKeepsPaired(c: Context, p: Plan)
    requires FlagsOk(c, p.items) && Paired(c, p.items)
    ensures Paired(c, Settle(c, p).items)
    decreases ValidCount(p.items)
  {
    var q := Round(c, p);
    FolderPassKeepsPaired(c, p.items);
    CaseFixedPointKeepsPaired(c, p.(items := FolderPass(c, p.items)));
    RoundRefuses(c, p);
    if c.local.Some? {
      var r := MacPass(c, c.local.value, q);
      if r.items != q.items {
        MacPassRefuses(c, c.local.value, q);
        RefusingShrinks(q.items, r.items);
        MacPassKeepsPaired(c, c.local.value, q);
        SettleKeepsPaired(c, r);
      }
    }
  }

  lemma NothingRuleRefusedYet(c: Context, ups: seq<Update>)
    ensures forall i | 0 <= i < |ups| :: !RuleRefused(Validate(c, ups)[i])
  {
    forall i | 0 <= i < |ups| ensures !RuleRefused(Validate(c, ups)[i]) {
      assert Validate(c, ups)[i] == JudgeEntry(c, ups, ups[i]);
      JudgedByNoRule(c, Duplicated(ups, ups[i].dst), ups[i]);
    }
  }

  lemma JudgedByNoRule(c: Context, duplicated: bool, u: Update)
    ensures !RuleRefused(Judge(c, duplicated, u))
  {
    if u.src != [] && !duplicated {
      match c.git.resolve(u.src)
      case None =>
      case Some(sha) => TransitionByNoRule(c, u, sha);
    }
  }

  lemma TransitionByNoRule(c: Context, u: Update, sha: Sha)
    ensures JudgeTransition(c, u, sha).Refused? ==>
      var why := JudgeTransition(c, u, sha).why; !why.CaseVariant? && !why.MacKept? && !why.MacWrite?
  {
  }

  // Phase 2 never leaves half of a rename or replacement it refused.
  lemma DecideKeepsPaired(c: Context, ups: seq<Update>)
    requires ContextOk(c)
    ensures Paired(c, Decide(c, ups))
  {
    ValidateOk(c, ups);
    NothingRuleRefusedYet(c, ups);
    SettleKeepsPaired(c, Plan(Validate(c, ups), {}, {}));
  }

  lemma DecideHasNoCollision(c: Context, ups: seq<Update>)
    requires ContextOk(c) && c.local.Some?
    ensures NoCollision(c, c.local.value, Decide(c, ups))
  {
    SettleHasNoCollision(c, Plan(Validate(c, ups), {}, {}));
  }

  // ---- how long it takes

  // Passes of the case rule, the one that finds nothing included.
  function Passes(c: Context, p: Plan): nat
    decreases ValidCount(p.items)
  {
    if CaseStable(c, p.items) then 1
    else
      CasePassRefuses(c, p);
      RefusingShrinks(p.items, CasePass(c, p).items);
      1 + Passes(c, CasePass(c, p))
  }

  function CreateCount(items: seq<Item>): nat
  {
    if items == [] then 0 else (if items[0].ValidCreate() then 1 else 0) + CreateCount(items[1..])
  }

  lemma {:induction false} RefusingShrinksCreates(before: seq<Item>, after: seq<Item>)
    requires OnlyRefuses(before, after)
    ensures CreateCount(after) <= CreateCount(before)
    ensures (exists i | 0 <= i < |before| :: before[i].ValidCreate() && after[i].v.Refused?) ==>
      CreateCount(after) < CreateCount(before)
  {
    if before != [] {
      assert forall i | 0 <= i < |before| - 1 :: before[1..][i] == before[i + 1] && after[1..][i] == after[i + 1];
      RefusingShrinksCreates(before[1..], after[1..]);
      if i :| 0 <= i < |before| && before[i].ValidCreate() && after[i].v.Refused? {
        if i > 0 { assert before[1..][i - 1].ValidCreate() && after[1..][i - 1].v.Refused?; }
      }
    }
  }

  lemma CasePassRefusesCreate(c: Context, p: Plan)
    requires !CaseStable(c, p.items)
    ensures exists i | 0 <= i < |p.items| :: p.items[i].ValidCreate() && CasePass(c, p).items[i].v.Refused?
  {
    var es := Elems(p.items);
    var d :| d in CaseRefusals(c, es);
    var e :| e in es && CaseRefuses(c, es, e) && e.Dst() == d;
    var i :| 0 <= i < |p.items| && p.items[i] == e;
    CasePassAt(c, p, i);
    if CasePass(c, p).items[i].v.Valid? { Phase2Sound.CreateSurvives(c, p, i); }
  }

  // Each pass that continues refuses a create.
  lemma {:induction false} PassBound(c: Context, p: Plan)
    ensures Passes(c, p) <= CreateCount(p.items) + 1
    decreases ValidCount(p.items)
  {
    if !CaseStable(c, p.items) {
      CasePassRefuses(c, p);
      RefusingShrinks(p.items, CasePass(c, p).items);
      CasePassRefusesCreate(c, p);
      RefusingShrinksCreates(p.items, CasePass(c, p).items);
      PassBound(c, CasePass(c, p));
    }
  }

  function Rounds(c: Context, p: Plan): nat
    decreases ValidCount(p.items)
  {
    var q := Round(c, p);
    if c.local.None? || MacPass(c, c.local.value, q).items == q.items then 1
    else
      RoundRefuses(c, p);
      MacPassRefuses(c, c.local.value, q);
      RefusingShrinks(q.items, MacPass(c, c.local.value, q).items);
      1 + Rounds(c, MacPass(c, c.local.value, q))
  }

  // Each round that continues refuses an entry.
  lemma {:induction false} RoundBound(c: Context, p: Plan)
    ensures Rounds(c, p) <= ValidCount(p.items) + 1 <= |p.items| + 1
    decreases ValidCount(p.items)
  {
    var q := Round(c, p);
    RefusingShrinks(p.items, p.items);
    if c.local.Some? && MacPass(c, c.local.value, q).items != q.items {
      RoundRefuses(c, p);
      MacPassRefuses(c, c.local.value, q);
      RefusingShrinks(q.items, MacPass(c, c.local.value, q).items);
      RoundBound(c, MacPass(c, c.local.value, q));
    }
  }
}
