/** Phase 2 as the source runs it: verdicts updated in place, entry by entry,
    against sets computed first (push.go, phase 2; macpush.go, macPass and
    renamePairs). Every method computes the function of the same step in
    Phase2. */
module Planner {
  import opened Names
  import opened Wrappers
  import opened Keys
  import opened CaseConflicts
  import opened Batch
  import opened Phase2

  // ---- helpers of the first loop

  ghost predicate WritesTwice(ups: seq<Update>, n: nat, d: Name)
    requires n <= |ups|
  {
    exists i, j :: 0 <= i < j < n && ups[i].src != [] && ups[j].src != [] && ups[i].dst == d && ups[j].dst == d
  }

  ghost predicate WritesOnce(ups: seq<Update>, n: nat, d: Name)
    requires n <= |ups|
  {
    exists i :: 0 <= i < n && ups[i].src != [] && ups[i].dst == d
  }

  lemma WritesStep(ups: seq<Update>, i: nat, d: Name)
    requires i < |ups|
    ensures WritesOnce(ups, i + 1, d) <==> WritesOnce(ups, i, d) || (ups[i].src != [] && ups[i].dst == d)
    ensures WritesTwice(ups, i + 1, d) <==>
      WritesTwice(ups, i, d) || (ups[i].src != [] && ups[i].dst == d && WritesOnce(ups, i, d))
  {
  }

  ghost predicate Counts(count: map<Name, nat>, ups: seq<Update>, n: nat)
    requires n <= |ups|
  {
    forall d :: (d in count <==> WritesOnce(ups, n, d)) && (d in count ==> count[d] >= 1)
             && ((d in count && count[d] > 1) <==> WritesTwice(ups, n, d))
  }

  lemma CountsStep(count: map<Name, nat>, ups: seq<Update>, i: nat)
    requires i < |ups| && Counts(count, ups, i)
    ensures var d := ups[i].dst;
            Counts(if ups[i].src == [] then count else count[d := (if d in count then count[d] else 0) + 1], ups, i + 1)
  {
    forall d ensures WritesOnce(ups, i + 1, d) <==> WritesOnce(ups, i, d) || (ups[i].src != [] && ups[i].dst == d)
      ensures WritesTwice(ups, i + 1, d) <==>
        WritesTwice(ups, i, d) || (ups[i].src != [] && ups[i].dst == d && WritesOnce(ups, i, d))
    {
      WritesStep(ups, i, d);
    }
  }

  // How many writes name each destination.
  method CountDestinations(ups: seq<Update>) returns (count: map<Name, nat>)
    ensures forall d :: (d in count && count[d] > 1) <==> Duplicated(ups, d)
  {
    count := map[];
    var i := 0;
    while i < |ups|
      invariant 0 <= i <= |ups| && Counts(count, ups, i)
    {
      var d := ups[i].dst;
      CountsStep(count, ups, i);
      if ups[i].src != [] { count := count[d := (if d in count then count[d] else 0) + 1]; }
      i := i + 1;
    }
    assert forall d :: WritesTwice(ups, |ups|, d) <==> Duplicated(ups, d);
  }

  // ---- occupancy

  // The index of the skipped paths, the last entry of a path winning.
  ghost predicate Occupies(occupied: map<Name, Skipped>, skipped: seq<Skipped>)
  {
    forall p :: OccupantAt(skipped, p) == if p in occupied then Some(occupied[p]) else None
  }

  method IndexSkipped(skipped: seq<Skipped>) returns (occupied: map<Name, Skipped>)
    ensures Occupies(occupied, skipped)
    ensures forall p :: p in occupied <==> exists i :: 0 <= i < |skipped| && skipped[i].path == p
    ensures forall p | p in occupied :: occupied[p] in skipped && occupied[p].path == p
  {
    occupied := map[];
    for i := 0 to |skipped|
      invariant Occupies(occupied, skipped[..i])
    {
      assert skipped[..i + 1][..i] == skipped[..i];
      occupied := occupied[skipped[i].path := skipped[i]];
    }
    assert skipped[..|skipped|] == skipped;
    forall p ensures p in occupied <==> exists i :: 0 <= i < |skipped| && skipped[i].path == p {
      OccupantIff(skipped, p);
    }
    forall p | p in occupied ensures occupied[p] in skipped && occupied[p].path == p { OccupantIff(skipped, p); }
  }

  ghost predicate IsLastAt(skipped: seq<Skipped>, p: Name, i: int)
  {
    0 <= i < |skipped| && skipped[i].path == p && forall j | i < j < |skipped| :: skipped[j].path != p
  }

  lemma {:induction false} OccupantIff(skipped: seq<Skipped>, p: Name)
    ensures OccupantAt(skipped, p).Some? <==> exists i :: 0 <= i < |skipped| && skipped[i].path == p
    ensures OccupantAt(skipped, p).Some? ==>
      OccupantAt(skipped, p).value in skipped && OccupantAt(skipped, p).value.path == p
    ensures OccupantAt(skipped, p).Some? ==>
      exists i :: IsLastAt(skipped, p, i) && skipped[i] == OccupantAt(skipped, p).value
  {
    if skipped != [] {
      var n := |skipped| - 1;
      OccupantIff(skipped[..n], p);
      if skipped[n].path != p {
        if i :| 0 <= i < |skipped| && skipped[i].path == p { assert skipped[..n][i].path == p; }
        if i :| 0 <= i < n && skipped[..n][i].path == p { assert skipped[i].path == p; }
        if i :| IsLastAt(skipped[..n], p, i) && OccupantAt(skipped[..n], p) == Some(skipped[..n][i]) {
          assert IsLastAt(skipped, p, i);
        }
      } else {
        assert IsLastAt(skipped, p, n);
      }
    }
  }

  // s is skipped strictly above dst, and nothing skipped lies between.
  ghost predicate NearestAbove(skipped: seq<Skipped>, dst: Name, s: Skipped)
  {
    && s in skipped && Above(s.path, dst)
    && forall x | x in skipped && x.path != [] && Above(x.path, dst) :: AboveOrEqual(x.path, s.path)
  }

  ghost predicate NoneAbove(skipped: seq<Skipped>, dst: Name)
  {
    forall x | x in skipped && x.path != [] :: !Above(x.path, dst)
  }

  lemma {:induction false} AncestorIsNearest(skipped: seq<Skipped>, dst: Name)
    ensures OccupiedAncestor(skipped, dst).None? ==> NoneAbove(skipped, dst)
    ensures OccupiedAncestor(skipped, dst).Some? ==> NearestAbove(skipped, dst, OccupiedAncestor(skipped, dst).value)
    decreases |dst|
  {
    var p := ParentOf(dst);
    forall x | x in skipped && x.path != [] && Above(x.path, dst) ensures p != [] && AboveOrEqual(x.path, p) {
      AboveParent(x.path, dst);
    }
    if p != [] {
      OccupantIff(skipped, p);
      ParentIsAbove(dst);
      if OccupantAt(skipped, p).None? {
        AncestorIsNearest(skipped, p);
        forall x | x in skipped && x.path != [] && Above(x.path, dst) ensures Above(x.path, p) { }
        if OccupiedAncestor(skipped, p).Some? {
          AboveTransitive(OccupiedAncestor(skipped, p).value.path, p, dst);
        }
      }
    }
  }

  lemma ParentIsAbove(n: Name)
    requires ParentOf(n) != []
    ensures Above(ParentOf(n), n)
  {
  }

  // Walking up from dst, the first level that is itself skipped.
  method FindOccupiedAncestor(occupied: map<Name, Skipped>, ghost skipped: seq<Skipped>, dst: Name)
    returns (o: Option<Skipped>)
    requires Occupies(occupied, skipped)
    ensures o == OccupiedAncestor(skipped, dst)
    ensures o.None? ==> NoneAbove(skipped, dst)
    ensures o.Some? ==> NearestAbove(skipped, dst, o.value)
  {
    AncestorIsNearest(skipped, dst);
    var p := ParentOf(dst);
    while p != []
      invariant OccupiedAncestor(skipped, dst) ==
        if p == [] then None else if OccupantAt(skipped, p).Some? then OccupantAt(skipped, p)
          else OccupiedAncestor(skipped, p)
      decreases |p|
    {
      if p in occupied { return Some(occupied[p]); }
      p := ParentOf(p);
    }
    return None;
  }

  // s is the first of the skipped paths, as listed, strictly beneath dst.
  ghost predicate FirstBeneath(skipped: seq<Skipped>, dst: Name, s: Skipped)
  {
    exists i :: 0 <= i < |skipped| && skipped[i] == s && Above(dst, s.path)
      && forall j | 0 <= j < i :: !Above(dst, skipped[j].path)
  }

  lemma {:induction false} DescendantIsFirst(skipped: seq<Skipped>, dst: Name)
    ensures OccupiedDescendant(skipped, dst).None? ==> forall x | x in skipped :: !Above(dst, x.path)
    ensures OccupiedDescendant(skipped, dst).Some? ==>
      FirstBeneath(skipped, dst, OccupiedDescendant(skipped, dst).value)
  {
    if skipped != [] && !Above(dst, skipped[0].path) {
      DescendantIsFirst(skipped[1..], dst);
      if s :| FirstBeneath(skipped[1..], dst, s) && OccupiedDescendant(skipped[1..], dst) == Some(s) {
        var i :| 0 <= i < |skipped| - 1 && skipped[1..][i] == s
          && forall j | 0 <= j < i :: !Above(dst, skipped[1..][j].path);
        assert forall j | 1 <= j < i + 1 :: skipped[j] == skipped[1..][j - 1];
        assert skipped[i + 1] == s;
      }
    }
  }

  method FindOccupiedDescendant(skipped: seq<Skipped>, dst: Name) returns (o: Option<Skipped>)
    ensures o == OccupiedDescendant(skipped, dst)
    ensures o.None? ==> forall x | x in skipped :: !Above(dst, x.path)
    ensures o.Some? ==> FirstBeneath(skipped, dst, o.value)
  {
    DescendantIsFirst(skipped, dst);
    var i := 0;
    while i < |skipped|
      invariant 0 <= i <= |skipped|
      invariant OccupiedDescendant(skipped, dst) == OccupiedDescendant(skipped[i..], dst)
    {
      if Above(dst, skipped[i].path) { return Some(skipped[i]); }
      i := i + 1;
    }
    return None;
  }

  // A skipped path at dst, above it or beneath it, looked for in that order.
  method FindOccupant(occupied: map<Name, Skipped>, skipped: seq<Skipped>, dst: Name) returns (o: Option<Skipped>)
    requires Occupies(occupied, skipped)
    ensures o == Occupancy(skipped, dst)
  {
    if dst in occupied { return Some(occupied[dst]); }
    o := FindOccupiedAncestor(occupied, skipped, dst);
    if o.None? { o := FindOccupiedDescendant(skipped, dst); }
  }

  // ---- the judgement of one entry

  // A delete: what occupies the name, then the branch HEAD points at.
  method CheckDelete(c: Context, occupied: map<Name, Skipped>, u: Update) returns (v: Verdict)
    requires Occupies(occupied, c.skipped)
    ensures v == JudgeDelete(c, u)
  {
    if u.dst in occupied { return Refused(Occupied(occupied[u.dst])); }
    if u.dst !in c.remote { return Valid; }
    if IsBranch(u.dst) {
      if c.head.HeadUnreadable? { return Refused(HeadNotReadable); }
      if c.head == HeadAt(u.dst) { return Refused(IsHead); }
    }
    return Valid;
  }

  // A branch takes commits and fast-forwards only.
  method CheckBranch(c: Context, u: Update, sha: Sha) returns (v: Verdict)
    requires IsBranch(u.dst)
    ensures v == JudgeTransition(c, u, sha)
  {
    var typ := c.git.typeOf(sha);
    if typ.None? { return Refused(UnknownType); }
    if typ.value != Commit { return Refused(BranchNotCommit); }
    if u.dst in c.remote && !u.force {
      if !c.git.has(c.remote[u.dst]) { return Refused(FetchFirst); }
      var anc := c.git.ancestor(c.remote[u.dst], sha);
      if anc.None? { return Refused(AncestryUnknown); }
      if !anc.value { return Refused(NonFastForward); }
    }
    return Valid;
  }

  // Anything else that is there already needs force.
  method CheckOther(c: Context, u: Update, sha: Sha) returns (v: Verdict)
    requires !IsBranch(u.dst)
    ensures v == JudgeTransition(c, u, sha)
  {
    if u.dst !in c.remote || u.force { return Valid; }
    return Refused(if IsTag(u.dst) then TagNeedsForce else OtherNeedsForce);
  }

  method CheckEntry(c: Context, occupied: map<Name, Skipped>, duplicated: bool, u: Update) returns (e: Item)
    requires Occupies(occupied, c.skipped)
    ensures e == Judge(c, duplicated, u)
  {
    if !GoodDestination(c.rules, u.dst) { return Item(u, false, false, "", Refused(InvalidDestination)); }
    if u.src == [] {
      var v := CheckDelete(c, occupied, u);
      return Item(u, true, false, "", v);
    }
    if duplicated { return Item(u, false, false, "", Refused(DuplicateDestination)); }
    var occupant := FindOccupant(occupied, c.skipped, u.dst);
    if occupant.Some? { return Item(u, false, false, "", Refused(Occupied(occupant.value))); }
    var sha := c.git.resolve(u.src);
    if sha.None? { return Item(u, false, false, "", Refused(Unresolved)); }
    var v;
    if IsBranch(u.dst) { v := CheckBranch(c, u, sha.value); } else { v := CheckOther(c, u, sha.value); }
    if v.Refused? { return Item(u, false, false, "", v); }
    return Item(u, false, u.dst !in c.remote, sha.value, Valid);
  }

  // The smallest ref nested with dst, the loop of dfPreflight.
  method SmallestNested(final: set<Name>, dst: Name) returns (o: Option<Name>)
    ensures o == if FolderConflicts(final, dst) == {} then None else Some(MinName(FolderConflicts(final, dst)))
    ensures o.None? <==> forall x | x in final :: !(x + [SLASH] <= dst || dst + [SLASH] <= x)
    ensures o.Some? ==> IsMin(o.value, set x | x in final && (x + [SLASH] <= dst || dst + [SLASH] <= x))
  {
    o := None;
    var rest := final;
    while rest != {}
      invariant rest <= final
      invariant o.None? ==> FolderConflicts(final - rest, dst) == {}
      invariant o.Some? ==> IsMin(o.value, FolderConflicts(final - rest, dst))
      decreases rest
    {
      var other :| other in rest;
      ghost var seen := FolderConflicts(final - rest, dst);
      rest := rest - {other};
      if other != dst && Nested(other, dst) {
        assert FolderConflicts(final - rest, dst) == seen + {other};
        if o.None? {
          o := Some(other);
        } else {
          LessTotal(other, o.value);
          if Less(other, o.value) {
            forall x | x in seen ensures Less(other, x) {
              if x != o.value { LessTransitive(other, o.value, x); }
            }
            o := Some(other);
          }
        }
      } else {
        assert FolderConflicts(final - rest, dst) == seen;
      }
    }
    assert final - rest == final;
    assert FolderConflicts(final, dst) == set x | x in final && (x + [SLASH] <= dst || dst + [SLASH] <= x);
    assert forall x | x in final && (x + [SLASH] <= dst || dst + [SLASH] <= x) :: x in FolderConflicts(final, dst);
    if o.Some? { MinUnique(FolderConflicts(final, dst), o.value, MinName(FolderConflicts(final, dst))); }
  }

  // ---- renamePairs

  function WithKey(keyOf: Name -> Name, names: set<Name>, key: Name): set<Name>
  {
    set x | x in names && keyOf(x) == key
  }

  // An index of the refused creates by one key, each key's smallest.
  ghost predicate SmallestByKey(ix: map<Name, Name>, keyOf: Name -> Name, names: set<Name>)
  {
    forall key :: (key in ix <==> WithKey(keyOf, names, key) != {})
               && (key in ix ==> IsMin(ix[key], WithKey(keyOf, names, key)))
  }

  lemma IndexStep(ix: map<Name, Name>, keyOf: Name -> Name, names: set<Name>, x: Name)
    requires SmallestByKey(ix, keyOf, names) && forall n | n in names :: Less(n, x)
    ensures SmallestByKey(if keyOf(x) in ix then ix else ix[keyOf(x) := x], keyOf, names + {x})
  {
    forall key
      ensures WithKey(keyOf, names + {x}, key) == WithKey(keyOf, names, key) + (if keyOf(x) == key then {x} else {})
    {
    }
  }

  method IndexByKey(keyOf: Name -> Name, names: set<Name>) returns (ix: map<Name, Name>)
    ensures SmallestByKey(ix, keyOf, names)
  {
    ix := map[];
    var rest := names;
    while rest != {}
      invariant rest <= names && SmallestByKey(ix, keyOf, names - rest)
      invariant forall n, x | n in names - rest && x in rest :: Less(n, x)
      decreases rest
    {
      var x := MinName(rest);
      IndexStep(ix, keyOf, names - rest, x);
      assert names - rest + {x} == names - (rest - {x});
      if keyOf(x) !in ix { ix := ix[keyOf(x) := x]; }
      rest := rest - {x};
    }
    assert names - rest == names;
  }

  function PickSmaller(k: Keys, byCase: map<Name, Name>, byCanon: map<Name, Name>, d: Name): Option<Name>
  {
    var x := if k.caseOf(d) in byCase then Some(byCase[k.caseOf(d)]) else None;
    if k.canonOf(d) in byCanon && (x.None? || Less(byCanon[k.canonOf(d)], x.value)) then Some(byCanon[k.canonOf(d)])
    else x
  }

  lemma UnionMin(a: set<Name>, b: set<Name>, m: Name, n: Name)
    requires IsMin(m, a) && IsMin(n, b) && !Less(n, m)
    ensures IsMin(m, a + b)
  {
    LessTotal(m, n);
    forall x | x in b ensures x == m || Less(m, x) {
      if m != n && x != n { LessTransitive(m, n, x); }
    }
  }

  // The smaller of the two indexes' answers is the smallest create d pairs with.
  lemma SmallerIsSmallest(k: Keys, refused: set<Name>, byCase: map<Name, Name>, byCanon: map<Name, Name>, d: Name)
    requires SmallestByKey(byCase, k.caseOf, refused) && SmallestByKey(byCanon, k.canonOf, refused)
    ensures PairedCreate(k, refused, d) == PickSmaller(k, byCase, byCanon, d)
  {
    var xs := set x | x in refused && SharesKey(k, x, d);
    var a, b := WithKey(k.caseOf, refused, k.caseOf(d)), WithKey(k.canonOf, refused, k.canonOf(d));
    assert xs == a + b;
    if a != {} && b != {} {
      var m, n := byCase[k.caseOf(d)], byCanon[k.canonOf(d)];
      LessTotal(m, n);
      if Less(n, m) { UnionMin(b, a, n, m); assert b + a == a + b; } else { UnionMin(a, b, m, n); }
    } else {
      assert a + b == (if a == {} then b else a);
    }
    var o := PickSmaller(k, byCase, byCanon, d);
    if o.Some? { MinUnique(xs, o.value, MinName(xs)); }
  }

  // ---- the Mac rule's tables and clauses

  function At(m: map<Name, set<Name>>, key: Name): set<Name>
  {
    if key in m then m[key] else {}
  }

  // Each tracking ref with the destinations of the entries it belongs to.
  ghost predicate TracksTo(m: map<Name, set<Name>>, l: LocalSide, names: set<Name>)
  {
    forall tr :: At(m, tr) == (set d | d in names && tr in TrackingOf(l, d)) && (tr in m ==> m[tr] != {})
  }

  method AddTracking(m: map<Name, set<Name>>, l: LocalSide, ghost names: set<Name>, d: Name)
    returns (m': map<Name, set<Name>>)
    requires TracksTo(m, l, names)
    ensures TracksTo(m', l, names + {d})
  {
    m' := m;
    var rest := TrackingOf(l, d);
    while rest != {}
      invariant rest <= TrackingOf(l, d)
      invariant forall tr :: At(m', tr) == if tr in TrackingOf(l, d) - rest then At(m, tr) + {d} else At(m, tr)
      invariant forall tr | tr in m' :: m'[tr] != {}
      decreases rest
    {
      var tr :| tr in rest;
      m' := m'[tr := At(m', tr) + {d}];
      rest := rest - {tr};
    }
    forall tr ensures At(m', tr) == (set x | x in names + {d} && tr in TrackingOf(l, x)) {
      TrackOneMore(m, m', l, names, d, tr);
    }
  }

  lemma TrackOneMore(m: map<Name, set<Name>>, m': map<Name, set<Name>>, l: LocalSide, names: set<Name>, d: Name,
                     tr: Name)
    requires At(m, tr) == set x | x in names && tr in TrackingOf(l, x)
    requires At(m', tr) == if tr in TrackingOf(l, d) then At(m, tr) + {d} else At(m, tr)
    ensures At(m', tr) == set x | x in names + {d} && tr in TrackingOf(l, x)
  {
  }

  // owners, from the valid writes, and deleters, from the valid deletes.
  method BuildTracking(l: LocalSide, items: seq<Item>)
    returns (owners: map<Name, set<Name>>, deleters: map<Name, set<Name>>)
    ensures TracksTo(owners, l, Written(Elems(items))) && TracksTo(deleters, l, Deleted(Elems(items)))
  {
    owners, deleters := map[], map[];
    var i := 0;
    while i < |items|
      invariant 0 <= i <= |items|
      invariant TracksTo(owners, l, Written(Elems(items[..i]))) && TracksTo(deleters, l, Deleted(Elems(items[..i])))
    {
      ElemsSnoc(items, i);
      if items[i].ValidDelete() {
        deleters := AddTracking(deleters, l, Deleted(Elems(items[..i])), items[i].Dst());
      } else if items[i].ValidWrite() {
        owners := AddTracking(owners, l, Written(Elems(items[..i])), items[i].Dst());
      }
      i := i + 1;
    }
    assert items[..i] == items;
  }

  lemma ElemsSnoc(items: seq<Item>, i: nat)
    requires i < |items|
    ensures Written(Elems(items[..i + 1])) == Written(Elems(items[..i]))
      + (if items[i].ValidWrite() then {items[i].Dst()} else {})
    ensures Deleted(Elems(items[..i + 1])) == Deleted(Elems(items[..i]))
      + (if items[i].ValidDelete() then {items[i].Dst()} else {})
  {
    assert items[..i + 1] == items[..i] + [items[i]];
    assert Elems(items[..i + 1]) == Elems(items[..i]) + {items[i]};
  }

  lemma TablesMeanOwners(l: LocalSide, es: set<Item>, owners: map<Name, set<Name>>, deleters: map<Name, set<Name>>)
    requires TracksTo(owners, l, Written(es)) && TracksTo(deleters, l, Deleted(es))
    ensures forall tr :: At(owners, tr) == Owners(l, es, tr) && At(deleters, tr) == Deleters(l, es, tr)
    ensures l.refs + owners.Keys + deleters.Keys == TrackedSet(l, es)
  {
    forall tr ensures At(owners, tr) == Owners(l, es, tr) && At(deleters, tr) == Deleters(l, es, tr) {
    }
    forall tr
      ensures tr in owners || tr in deleters <==> exists e :: e in es && e.v.Valid? && tr in TrackingOf(l, e.Dst())
    {
      if tr in owners { var d :| d in owners[tr]; }
      if tr in deleters { var d :| d in deleters[tr]; }
      if e :| e in es && e.v.Valid? && tr in TrackingOf(l, e.Dst()) {
        if e.del { assert e.Dst() in At(deleters, tr); } else { assert e.Dst() in At(owners, tr); }
      }
    }
  }

  // The conflicts of one tracking ref that count against e.
  method CountMeetings(l: LocalSide, ghost es: set<Item>, owners: map<Name, set<Name>>, deleters: map<Name, set<Name>>,
                       e: Item, cs: seq<Conflict>) returns (ms: seq<Meeting>)
    requires TracksTo(owners, l, Written(es)) && TracksTo(deleters, l, Deleted(es))
    ensures ms == Meetings(l, es, e, cs)
  {
    TablesMeanOwners(l, es, owners, deleters);
    ms := [];
    for i := |cs| downto 0
      invariant ms == Meetings(l, es, e, cs[i..])
    {
      var other := SmallestOther(At(owners, cs[i].ref), e.Dst());
      var deleter := if e.create then None else SmallestOther(At(deleters, cs[i].ref), e.Dst());
      assert cs[i..][1..] == cs[i + 1..];
      if cs[i].ref in l.refs || other.Some? || deleter.Some? { ms := [Meeting(cs[i], other, deleter)] + ms; }
    }
  }

  function ConflictsAt(m: map<Name, seq<Conflict>>, key: Name): seq<Conflict>
  {
    if key in m then m[key] else []
  }

  lemma ConflictMapAt(k: Keys, refs: set<Name>, cands: seq<Name>, m: map<Name, seq<Conflict>>, x: Name)
    requires IsConflictMap(k, refs, cands, m) && x in cands
    ensures ConflictsAt(m, x) == ConflictsIn(k, refs, x)
  {
  }

  function OneClause(tr: Name, meets: seq<Meeting>): seq<Clause>
  {
    if meets != [] then [Clause(tr, meets)] else []
  }

  // Part 1(a) for one write.
  method LocalClauses(c: Context, l: LocalSide, ghost es: set<Item>, owners: map<Name, set<Name>>,
                      deleters: map<Name, set<Name>>, byTracking: map<Name, seq<Conflict>>, e: Item)
    returns (clauses: seq<Clause>)
    requires TracksTo(owners, l, Written(es)) && TracksTo(deleters, l, Deleted(es))
    requires IsConflictMap(c.keys, TrackedSet(l, es), SortedNames(owners.Keys), byTracking)
    requires e in es && e.ValidWrite()
    ensures clauses == LocalHalf(c, l, es, e)
  {
    var trs := SortNames(TrackingOf(l, e.Dst()));
    clauses := [];
    for i := |trs| downto 0
      invariant clauses == WriteClauses(c, l, es, e, trs[i..])
    {
      assert trs[i] in trs && trs[i..][1..] == trs[i + 1..];
      var part := ClauseOf(c, l, es, owners, deleters, byTracking, e, trs[i]);
      clauses := part + clauses;
    }
  }

  // What one of its tracking refs adds.
  method ClauseOf(c: Context, l: LocalSide, ghost es: set<Item>, owners: map<Name, set<Name>>,
                  deleters: map<Name, set<Name>>, byTracking: map<Name, seq<Conflict>>, e: Item, tr: Name)
    returns (part: seq<Clause>)
    requires TracksTo(owners, l, Written(es)) && TracksTo(deleters, l, Deleted(es))
    requires IsConflictMap(c.keys, TrackedSet(l, es), SortedNames(owners.Keys), byTracking)
    requires e in es && e.ValidWrite() && tr in TrackingOf(l, e.Dst())
    ensures part == OneClause(tr, Meetings(l, es, e, ConflictsIn(c.keys, TrackedSet(l, es), tr)))
  {
    TrackedIsOwned(l, es, owners, e, tr);
    ConflictMapAt(c.keys, TrackedSet(l, es), SortedNames(owners.Keys), byTracking, tr);
    var meets := CountMeetings(l, es, owners, deleters, e, ConflictsAt(byTracking, tr));
    part := OneClause(tr, meets);
  }

  lemma TrackedIsOwned(l: LocalSide, es: set<Item>, owners: map<Name, set<Name>>, e: Item, tr: Name)
    requires TracksTo(owners, l, Written(es)) && e in es && e.ValidWrite() && tr in TrackingOf(l, e.Dst())
    ensures tr in SortedNames(owners.Keys)
  {
    assert e.Dst() in At(owners, tr);
  }

  // Part 3's clauses for one delete.
  method LocalDeleteClauses(c: Context, l: LocalSide, localHalf: map<Name, seq<Conflict>>, ghost cands: seq<Name>,
                            dst: Name)
    returns (clauses: seq<Clause>)
    requires IsConflictMap(c.keys, l.refs, cands, localHalf) && forall tr | tr in TrackingOf(l, dst) :: tr in cands
    ensures clauses == DeleteHalf(c, l, dst)
  {
    var trs := SortNames(TrackingOf(l, dst));
    clauses := [];
    for i := |trs| downto 0
      invariant clauses == DeleteClauses(c, l, trs[i..])
    {
      assert trs[i] in trs && trs[i..][1..] == trs[i + 1..];
      ConflictMapAt(c.keys, l.refs, cands, localHalf, trs[i]);
      var cs := ConflictsAt(localHalf, trs[i]);
      clauses := (if cs != [] then [Clause(trs[i], Plain(cs))] else []) + clauses;
    }
  }
}
