/** Refs that differ only by letter case or normalisation (casefold.go
    caseConflicts, readcheck.go AdvertisedPairs): the two-index search and the
    pairwise definition it must agree with. */
module CaseConflicts {
  import opened Names
  import opened Keys
  import opened Wrappers

  datatype Relation = RelCase | RelCanon

  datatype Conflict = Conflict(ref: Name, ours: Name, theirs: Name, rel: Relation)

  function KeyFor(k: Keys, rel: Relation): Name -> Name
  {
    match rel
    case RelCase => k.caseOf
    case RelCanon => k.canonOf
  }

  // ---- the pairwise definition

  // Some prefix of each is spelled differently but shares a key.
  ghost predicate Pairs(k: Keys, a: Name, b: Name)
  {
    exists p, q, rel :: PairsBy(k, a, b, p, q, rel)
  }

  ghost predicate PairsBy(k: Keys, a: Name, b: Name, p: Name, q: Name, rel: Relation)
  {
    p in RefPrefixes(a) && q in RefPrefixes(b) && p != q && KeyFor(k, rel)(p) == KeyFor(k, rel)(q)
  }

  // The prefixes at depth i form such a pair.
  predicate PairAt(k: Keys, a: Name, b: Name, i: nat, rel: Relation)
  {
    var ps, qs := RefPrefixes(a), RefPrefixes(b);
    i < |ps| && i < |qs| && ps[i] != qs[i] && KeyFor(k, rel)(ps[i]) == KeyFor(k, rel)(qs[i])
  }

  function AtDepth(k: Keys, a: Name, b: Name, i: nat): Option<Conflict>
  {
    if PairAt(k, a, b, i, RelCase) then Some(Conflict(b, RefPrefixes(a)[i], RefPrefixes(b)[i], RelCase))
    else if PairAt(k, a, b, i, RelCanon) then Some(Conflict(b, RefPrefixes(a)[i], RefPrefixes(b)[i], RelCanon))
    else None
  }

  // The shallowest pair above depth n, letter case before normalisation.
  function FirstBelow(k: Keys, a: Name, b: Name, n: nat): Option<Conflict>
  {
    if n == 0 then None
    else if FirstBelow(k, a, b, n - 1).Some? then FirstBelow(k, a, b, n - 1)
    else AtDepth(k, a, b, n - 1)
  }

  function FirstPair(k: Keys, a: Name, b: Name): Option<Conflict>
  {
    FirstBelow(k, a, b, |RefPrefixes(a)|)
  }

  // Both keys split at '/', so a pair sits at one depth.
  lemma PairsAtOneDepth(k: Keys, a: Name, b: Name, p: Name, q: Name, rel: Relation)
    requires Split(k) && PairsBy(k, a, b, p, q, rel)
    ensures PairAt(k, a, b, Depth(p), rel)
    ensures RefPrefixes(a)[Depth(p)] == p && RefPrefixes(b)[Depth(p)] == q
  {
    RefPrefixesSpec(a);
    RefPrefixesSpec(b);
    EqualKeysEqualDepth(KeyFor(k, rel), p, q);
  }

  lemma {:induction false} FirstBelowFinds(k: Keys, a: Name, b: Name, n: nat, i: nat, rel: Relation)
    requires i < n && PairAt(k, a, b, i, rel)
    ensures FirstBelow(k, a, b, n).Some?
  {
    if i < n - 1 { FirstBelowFinds(k, a, b, n - 1, i, rel); }
  }

  lemma FirstBelowMisses(k: Keys, a: Name, b: Name, n: nat)
    requires FirstBelow(k, a, b, n).None?
    ensures forall i, rel | 0 <= i < n :: !PairAt(k, a, b, i, rel)
  {
    forall i, rel | 0 <= i < n ensures !PairAt(k, a, b, i, rel) {
      if PairAt(k, a, b, i, rel) { FirstBelowFinds(k, a, b, n, i, rel); }
    }
  }

  lemma {:induction false} FirstBelowIsFirst(k: Keys, a: Name, b: Name, n: nat) returns (i: nat)
    requires FirstBelow(k, a, b, n).Some?
    ensures i < n && IsFirst(k, a, b, i, FirstBelow(k, a, b, n).value)
  {
    if FirstBelow(k, a, b, n - 1).Some? {
      i := FirstBelowIsFirst(k, a, b, n - 1);
    } else {
      i := n - 1;
      FirstBelowMisses(k, a, b, n - 1);
    }
  }

  // c is the pair at depth i, nothing is shallower, and case goes first.
  ghost predicate IsFirst(k: Keys, a: Name, b: Name, i: nat, c: Conflict)
  {
    && PairAt(k, a, b, i, c.rel)
    && c == Conflict(b, RefPrefixes(a)[i], RefPrefixes(b)[i], c.rel)
    && (forall j, rel | 0 <= j < i :: !PairAt(k, a, b, j, rel))
    && (c.rel == RelCanon ==> !PairAt(k, a, b, i, RelCase))
  }

  // The indexed answer exists exactly when the two refs pair at all.
  lemma FirstPairIffPairs(k: Keys, a: Name, b: Name)
    requires Split(k)
    ensures FirstPair(k, a, b).Some? <==> Pairs(k, a, b)
  {
    if FirstPair(k, a, b).Some? {
      var c := FirstPair(k, a, b).value;
      var i := FirstBelowIsFirst(k, a, b, |RefPrefixes(a)|);
      assert PairsBy(k, a, b, RefPrefixes(a)[i], RefPrefixes(b)[i], c.rel);
    }
    if Pairs(k, a, b) {
      var p, q, rel :| PairsBy(k, a, b, p, q, rel);
      PairsAtOneDepth(k, a, b, p, q, rel);
      FirstBelowFinds(k, a, b, |RefPrefixes(a)|, Depth(p), rel);
    }
  }

  lemma PairAtSymmetric(k: Keys, a: Name, b: Name, i: nat, rel: Relation)
    ensures PairAt(k, a, b, i, rel) <==> PairAt(k, b, a, i, rel)
  {
  }

  lemma PairsSymmetric(k: Keys, a: Name, b: Name)
    ensures Pairs(k, a, b) <==> Pairs(k, b, a)
  {
    if Pairs(k, a, b) {
      var p, q, rel :| PairsBy(k, a, b, p, q, rel);
      assert PairsBy(k, b, a, q, p, rel);
    }
    if Pairs(k, b, a) {
      var p, q, rel :| PairsBy(k, b, a, p, q, rel);
      assert PairsBy(k, a, b, q, p, rel);
    }
  }

  // From either side the same two prefixes and the same relation are reported.
  lemma FirstPairSymmetric(k: Keys, a: Name, b: Name)
    requires Split(k) && FirstPair(k, a, b).Some?
    ensures FirstPair(k, b, a).Some?
    ensures var c, d := FirstPair(k, a, b).value, FirstPair(k, b, a).value;
            c.ref == b && d.ref == a && d.ours == c.theirs && d.theirs == c.ours && d.rel == c.rel
  {
    FirstPairIffPairs(k, a, b);
    PairsSymmetric(k, a, b);
    FirstPairIffPairs(k, b, a);
    var c, d := FirstPair(k, a, b).value, FirstPair(k, b, a).value;
    var i := FirstBelowIsFirst(k, a, b, |RefPrefixes(a)|);
    var j := FirstBelowIsFirst(k, b, a, |RefPrefixes(b)|);
    PairAtSymmetric(k, a, b, i, c.rel);
    PairAtSymmetric(k, a, b, j, d.rel);
    PairAtSymmetric(k, a, b, i, RelCase);
    assert i == j;
  }

  lemma NoSelfPair(k: Keys, a: Name, n: nat)
    ensures FirstBelow(k, a, a, n).None?
  {
  }

  // ---- the sorted answer for one candidate

  function Hits(k: Keys, refs: set<Name>, cand: Name): (hs: set<Name>)
    ensures hs <= refs && cand !in hs
    ensures forall b | b in refs :: b in hs <==> FirstPair(k, cand, b).Some?
  {
    NoSelfPair(k, cand, |RefPrefixes(cand)|);
    set b | b in refs && FirstPair(k, cand, b).Some?
  }

  function ConflictsIn(k: Keys, refs: set<Name>, cand: Name): (cs: seq<Conflict>)
    ensures |cs| == |SortedNames(Hits(k, refs, cand))|
    ensures forall i | 0 <= i < |cs| :: cs[i].ref == SortedNames(Hits(k, refs, cand))[i]
    ensures forall i | 0 <= i < |cs| :: Some(cs[i]) == FirstPair(k, cand, cs[i].ref)
  {
    var q := SortedNames(Hits(k, refs, cand));
    FirstPairRef(k, cand);
    assert forall i | 0 <= i < |q| :: q[i] in q;
    seq(|q|, i requires 0 <= i < |q| => FirstPair(k, cand, q[i]).value)
  }

  lemma {:induction false} FirstBelowRef(k: Keys, a: Name, b: Name, n: nat)
    requires FirstBelow(k, a, b, n).Some?
    ensures FirstBelow(k, a, b, n).value.ref == b
  {
    if FirstBelow(k, a, b, n - 1).Some? { FirstBelowRef(k, a, b, n - 1); }
  }

  lemma FirstPairRef(k: Keys, a: Name)
    ensures forall b | FirstPair(k, a, b).Some? :: FirstPair(k, a, b).value.ref == b
  {
    forall b | FirstPair(k, a, b).Some? ensures FirstPair(k, a, b).value.ref == b {
      FirstBelowRef(k, a, b, |RefPrefixes(a)|);
    }
  }

  // Each conflicting ref is listed once, in order, and nothing else is.
  lemma ConflictsInComplete(k: Keys, refs: set<Name>, cand: Name)
    requires Split(k)
    ensures forall b :: (exists i | 0 <= i < |ConflictsIn(k, refs, cand)| :: ConflictsIn(k, refs, cand)[i].ref == b)
                   <==> b in refs && Pairs(k, cand, b)
    ensures forall i, j | 0 <= i < j < |ConflictsIn(k, refs, cand)| ::
              Less(ConflictsIn(k, refs, cand)[i].ref, ConflictsIn(k, refs, cand)[j].ref)
    ensures ConflictsIn(k, refs, cand) == [] <==> forall b | b in refs :: !Pairs(k, cand, b)
  {
    var cs, q := ConflictsIn(k, refs, cand), SortedNames(Hits(k, refs, cand));
    forall b ensures (exists i | 0 <= i < |cs| :: cs[i].ref == b) <==> b in refs && Pairs(k, cand, b) {
      FirstPairIffPairs(k, cand, b);
      if b in q {
        var i :| 0 <= i < |q| && q[i] == b;
        assert cs[i].ref == b;
      }
      assert forall i | 0 <= i < |cs| :: cs[i].ref in q;
    }
    if cs != [] { assert cs[0].ref in refs && Pairs(k, cand, cs[0].ref); }
  }

  // ---- the two indexes

  // key(prefix) -> spelling of that prefix -> refs carrying it
  type Index = map<Name, map<Name, seq<Name>>>

  ghost predicate Has(ix: Index, key: Name, p: Name, ref: Name)
  {
    key in ix && p in ix[key] && ref in ix[key][p]
  }

  method Add(ix: Index, key: Name, p: Name, ref: Name) returns (ix': Index)
    ensures forall k', p', r' :: Has(ix', k', p', r') <==> Has(ix, k', p', r') || (k' == key && p' == p && r' == ref)
  {
    var spellings := if key in ix then ix[key] else map[];
    var refs := if p in spellings then spellings[p] else [];
    ix' := ix[key := spellings[p := refs + [ref]]];
  }

  // The index holds exactly the prefixes of the refs.
  ghost predicate Indexes(ix: Index, keyOf: Name -> Name, refs: set<Name>)
  {
    forall key, p, r :: Has(ix, key, p, r) <==> r in refs && p in RefPrefixes(r) && key == keyOf(p)
  }

  method AddRef(ix: Index, keyOf: Name -> Name, ref: Name) returns (ix': Index)
    ensures forall key, p, r :: Has(ix', key, p, r) <==>
              Has(ix, key, p, r) || (r == ref && p in RefPrefixes(ref) && key == keyOf(p))
  {
    var ps := ComputeRefPrefixes(ref);
    ix' := ix;
    var i := 0;
    while i < |ps|
      invariant 0 <= i <= |ps|
      invariant forall key, p, r :: Has(ix', key, p, r) <==>
                  Has(ix, key, p, r) || (r == ref && p in ps[..i] && key == keyOf(p))
    {
      assert ps[..i + 1] == ps[..i] + [ps[i]];
      ix' := Add(ix', keyOf(ps[i]), ps[i], ref);
      i := i + 1;
    }
    assert ps[..i] == ps;
  }

  method BuildIndex(keyOf: Name -> Name, refs: set<Name>) returns (ix: Index)
    ensures Indexes(ix, keyOf, refs)
  {
    ix := map[];
    var rest := refs;
    while rest != {}
      invariant rest <= refs && Indexes(ix, keyOf, refs - rest)
      decreases rest
    {
      var ref :| ref in rest;
      ghost var before := ix;
      ix := AddRef(ix, keyOf, ref);
      rest := rest - {ref};
    }
    assert refs - rest == refs;
  }

  // ---- one candidate

  // What one lookup at depth i adds to what was found before.
  ghost predicate Extends(k: Keys, refs: set<Name>, cand: Name, i: nat, rel: Relation,
                          found: map<Name, Conflict>, found': map<Name, Conflict>)
    requires i < |RefPrefixes(cand)|
  {
    && (forall b :: b in found' <==> b in found || (b in refs && b != cand && PairAt(k, cand, b, i, rel)))
    && (forall b | b in found' :: found'[b] ==
          if b in found then found[b] else Conflict(b, RefPrefixes(cand)[i], Spelling(b, i), rel))
  }

  ghost function Spelling(b: Name, i: nat): Name
  {
    if i < |RefPrefixes(b)| then RefPrefixes(b)[i] else []
  }

  // An index entry under another spelling is exactly a pair at this depth.
  lemma EntryIsPair(k: Keys, refs: set<Name>, ix: Index, cand: Name, i: nat, rel: Relation, theirs: Name, b: Name)
    requires Split(k) && Indexes(ix, KeyFor(k, rel), refs) && i < |RefPrefixes(cand)|
    requires theirs != RefPrefixes(cand)[i]
    ensures Has(ix, KeyFor(k, rel)(RefPrefixes(cand)[i]), theirs, b) <==>
              b in refs && PairAt(k, cand, b, i, rel) && theirs == Spelling(b, i)
  {
    var ours := RefPrefixes(cand)[i];
    RefPrefixesSpec(cand);
    RefPrefixesSpec(b);
    if Has(ix, KeyFor(k, rel)(ours), theirs, b) {
      assert PairsBy(k, cand, b, ours, theirs, rel);
      PairsAtOneDepth(k, cand, b, ours, theirs, rel);
    }
  }

  method LookUp(k: Keys, ghost refs: set<Name>, ix: Index, cand: Name, ours: Name, ghost i: nat, rel: Relation,
                found: map<Name, Conflict>) returns (found': map<Name, Conflict>)
    requires Split(k) && Indexes(ix, KeyFor(k, rel), refs)
    requires i < |RefPrefixes(cand)| && ours == RefPrefixes(cand)[i]
    requires forall b | b in found :: b in refs && b != cand
    ensures Extends(k, refs, cand, i, rel, found, found')
  {
    found' := found;
    var key := KeyFor(k, rel)(ours);
    forall theirs, b | theirs != ours
      ensures Has(ix, key, theirs, b) <==> b in refs && PairAt(k, cand, b, i, rel) && theirs == Spelling(b, i)
    {
      EntryIsPair(k, refs, ix, cand, i, rel, theirs, b);
    }
    if key in ix {
      var todo := ix[key].Keys;
      while todo != {}
        invariant todo <= ix[key].Keys
        invariant forall b :: b in found' <==>
                    (b in found || (b != cand && exists p :: p !in todo && p != ours && Has(ix, key, p, b)))
        invariant forall b | b in found' :: found'[b] ==
                    if b in found then found[b] else Conflict(b, ours, Spelling(b, i), rel)
        decreases todo
      {
        var theirs :| theirs in todo;
        if theirs != ours {
          found' := AddSpelling(cand, ours, theirs, ix[key][theirs], rel, found');
          assert forall b :: b in ix[key][theirs] <==> Has(ix, key, theirs, b);
        }
        todo := todo - {theirs};
      }
    }
    forall b ensures b in found' <==> b in found || (b in refs && b != cand && PairAt(k, cand, b, i, rel)) {
      if b in refs && b != cand && PairAt(k, cand, b, i, rel) {
        assert Has(ix, key, Spelling(b, i), b);
      }
    }
  }

  // The refs carrying one other spelling, those not yet seen.
  method AddSpelling(cand: Name, ours: Name, theirs: Name, refs: seq<Name>, rel: Relation,
                     found: map<Name, Conflict>) returns (found': map<Name, Conflict>)
    ensures forall b :: b in found' <==> b in found || (b in refs && b != cand)
    ensures forall b | b in found' :: found'[b] == if b in found then found[b] else Conflict(b, ours, theirs, rel)
  {
    found' := found;
    var j := 0;
    while j < |refs|
      invariant 0 <= j <= |refs|
      invariant forall b :: b in found' <==> b in found || (b in refs[..j] && b != cand)
      invariant forall b | b in found' :: found'[b] == if b in found then found[b] else Conflict(b, ours, theirs, rel)
    {
      assert refs[..j + 1] == refs[..j] + [refs[j]];
      if refs[j] != cand && refs[j] !in found' {
        found' := found'[refs[j] := Conflict(refs[j], ours, theirs, rel)];
      }
      j := j + 1;
    }
    assert refs[..j] == refs;
  }

  // What is found after the prefixes above depth n.
  ghost predicate FoundBelow(k: Keys, refs: set<Name>, cand: Name, n: nat, found: map<Name, Conflict>)
  {
    && (forall b :: b in found <==> b in refs && b != cand && FirstBelow(k, cand, b, n).Some?)
    && (forall b | b in found :: Some(found[b]) == FirstBelow(k, cand, b, n))
  }

  lemma BothLookups(k: Keys, refs: set<Name>, cand: Name, n: nat,
                    found: map<Name, Conflict>, mid: map<Name, Conflict>, found': map<Name, Conflict>)
    requires n < |RefPrefixes(cand)| && FoundBelow(k, refs, cand, n, found)
    requires Extends(k, refs, cand, n, RelCase, found, mid) && Extends(k, refs, cand, n, RelCanon, mid, found')
    ensures FoundBelow(k, refs, cand, n + 1, found')
  {
    forall b ensures b in found' <==> b in refs && b != cand && FirstBelow(k, cand, b, n + 1).Some? {
    }
  }

  method LookUpBoth(k: Keys, ghost refs: set<Name>, byCase: Index, byCanon: Index, cand: Name, ours: Name, ghost n: nat,
                    found: map<Name, Conflict>) returns (found': map<Name, Conflict>)
    requires Split(k) && Indexes(byCase, k.caseOf, refs) && Indexes(byCanon, k.canonOf, refs)
    requires n < |RefPrefixes(cand)| && ours == RefPrefixes(cand)[n] && FoundBelow(k, refs, cand, n, found)
    ensures FoundBelow(k, refs, cand, n + 1, found')
  {
    var mid := LookUp(k, refs, byCase, cand, ours, n, RelCase, found);
    found' := LookUp(k, refs, byCanon, cand, ours, n, RelCanon, mid);
    BothLookups(k, refs, cand, n, found, mid, found');
  }

  method FoundIn(k: Keys, refs: set<Name>, byCase: Index, byCanon: Index, cand: Name)
    returns (found: map<Name, Conflict>)
    requires Split(k) && Indexes(byCase, k.caseOf, refs) && Indexes(byCanon, k.canonOf, refs)
    ensures FoundBelow(k, refs, cand, |RefPrefixes(cand)|, found)
  {
    var ps := ComputeRefPrefixes(cand);
    found := map[];
    var n := 0;
    while n < |ps|
      invariant 0 <= n <= |ps| && FoundBelow(k, refs, cand, n, found)
    {
      found := LookUpBoth(k, refs, byCase, byCanon, cand, ps[n], n, found);
      n := n + 1;
    }
  }

  method ConflictsOfOne(k: Keys, refs: set<Name>, byCase: Index, byCanon: Index, cand: Name) returns (cs: seq<Conflict>)
    requires Split(k) && Indexes(byCase, k.caseOf, refs) && Indexes(byCanon, k.canonOf, refs)
    ensures cs == ConflictsIn(k, refs, cand)
  {
    var found := FoundIn(k, refs, byCase, byCanon, cand);
    cs := InOrder(k, refs, cand, found);
  }

  lemma FoundAll(k: Keys, refs: set<Name>, cand: Name, found: map<Name, Conflict>)
    requires FoundBelow(k, refs, cand, |RefPrefixes(cand)|, found)
    ensures found.Keys == Hits(k, refs, cand)
    ensures forall b | b in found :: Some(found[b]) == FirstPair(k, cand, b)
  {
  }

  method InOrder(k: Keys, ghost refs: set<Name>, cand: Name, found: map<Name, Conflict>) returns (cs: seq<Conflict>)
    requires FoundBelow(k, refs, cand, |RefPrefixes(cand)|, found)
    ensures cs == ConflictsIn(k, refs, cand)
  {
    FoundAll(k, refs, cand, found);
    var q := SortNames(found.Keys);
    assert forall j | 0 <= j < |q| :: q[j] in q;
    cs := ValuesOf(q, found);
    assert |q| == |ConflictsIn(k, refs, cand)|;
    assert forall j | 0 <= j < |q| :: cs[j] == ConflictsIn(k, refs, cand)[j];
  }

  method ValuesOf(q: seq<Name>, found: map<Name, Conflict>) returns (cs: seq<Conflict>)
    requires forall j | 0 <= j < |q| :: q[j] in found
    ensures |cs| == |q| && forall j | 0 <= j < |q| :: cs[j] == found[q[j]]
  {
    cs := [];
    for i := 0 to |q|
      invariant |cs| == i && forall j | 0 <= j < i :: cs[j] == found[q[j]]
    {
      cs := cs + [found[q[i]]];
    }
  }

  // The result holds, for each candidate with any, its conflicts.
  ghost predicate IsConflictMap(k: Keys, refs: set<Name>, cands: seq<Name>, out: map<Name, seq<Conflict>>)
  {
    forall c :: (c in out <==> c in cands && ConflictsIn(k, refs, c) != [])
             && (c in out ==> out[c] == ConflictsIn(k, refs, c))
  }

  lemma ConflictMapStep(k: Keys, refs: set<Name>, cands: seq<Name>, x: Name, out: map<Name, seq<Conflict>>)
    requires IsConflictMap(k, refs, cands, out)
    ensures IsConflictMap(k, refs, cands + [x],
              if ConflictsIn(k, refs, x) == [] then out else out[x := ConflictsIn(k, refs, x)])
  {
  }

  method FindConflicts(k: Keys, refs: set<Name>, cands: seq<Name>) returns (out: map<Name, seq<Conflict>>)
    requires Split(k)
    ensures IsConflictMap(k, refs, cands, out)
  {
    var byCase := BuildIndex(k.caseOf, refs);
    var byCanon := BuildIndex(k.canonOf, refs);
    out := map[];
    var i := 0;
    while i < |cands|
      invariant 0 <= i <= |cands| && IsConflictMap(k, refs, cands[..i], out)
    {
      var cs := ConflictsOfOne(k, refs, byCase, byCanon, cands[i]);
      assert cands[..i + 1] == cands[..i] + [cands[i]];
      ConflictMapStep(k, refs, cands[..i], cands[i], out);
      if cs != [] { out := out[cands[i] := cs]; }
      i := i + 1;
    }
    assert cands[..i] == cands;
  }

  // ---- all pairs of an advertisement

  datatype RefPair = RefPair(a: Name, b: Name, rel: Relation)

  ghost predicate PairBefore(x: RefPair, y: RefPair)
  {
    Less(x.a, y.a) || (x.a == y.a && Less(x.b, y.b))
  }

  // Every unordered conflicting pair once, sorted, with the relation that
  // either side reports.
  ghost predicate IsPairList(k: Keys, refs: set<Name>, out: seq<RefPair>)
  {
    && (forall i, j | 0 <= i < j < |out| :: PairBefore(out[i], out[j]))
    && (forall i | 0 <= i < |out| :: IsPair(k, refs, out[i]))
    && (forall a, b | a in refs && b in refs && Less(a, b) && Pairs(k, a, b) ::
          exists i | 0 <= i < |out| :: out[i].a == a && out[i].b == b)
  }

  ghost predicate IsPair(k: Keys, refs: set<Name>, x: RefPair)
  {
    && x.a in refs && x.b in refs && Less(x.a, x.b) && Pairs(k, x.a, x.b)
    && FirstPair(k, x.a, x.b).Some? && FirstPair(k, x.a, x.b).value.rel == x.rel
    && FirstPair(k, x.b, x.a).Some? && FirstPair(k, x.b, x.a).value.rel == x.rel
  }

  ghost predicate SortedPairs(out: seq<RefPair>)
  {
    forall i, j | 0 <= i < j < |out| :: PairBefore(out[i], out[j])
  }

  // The pairs listed all start with a name in names.
  ghost predicate PairsOf(k: Keys, refs: set<Name>, names: set<Name>, out: seq<RefPair>)
  {
    forall i | 0 <= i < |out| :: IsPair(k, refs, out[i]) && out[i].a in names
  }

  ghost predicate Listed(out: seq<RefPair>, a: Name, b: Name)
  {
    exists i | 0 <= i < |out| :: out[i].a == a && out[i].b == b
  }

  ghost predicate AllListed(k: Keys, refs: set<Name>, names: set<Name>, out: seq<RefPair>)
  {
    forall a, b | a in names && b in refs && Less(a, b) && Pairs(k, a, b) :: Listed(out, a, b)
  }

  // The pairs a makes with the larger of its first j conflicts.
  ghost predicate Partial(k: Keys, refs: set<Name>, a: Name, cs: seq<Conflict>, j: nat, out: seq<RefPair>)
    requires j <= |cs|
  {
    && SortedPairs(out) && PairsOf(k, refs, {a}, out)
    && EndsBelow(cs, j, out) && ListsFirst(a, cs, j, out)
  }

  ghost predicate EndsBelow(cs: seq<Conflict>, j: nat, out: seq<RefPair>)
  {
    forall x, y | 0 <= x < |out| && j <= y < |cs| :: Less(out[x].b, cs[y].ref)
  }

  ghost predicate ListsFirst(a: Name, cs: seq<Conflict>, j: nat, out: seq<RefPair>)
    requires j <= |cs|
  {
    forall y | 0 <= y < j && Less(a, cs[y].ref) :: Listed(out, a, cs[y].ref)
  }

  lemma ListedAppend(out: seq<RefPair>, more: seq<RefPair>, a: Name, b: Name)
    requires Listed(out, a, b) || Listed(more, a, b)
    ensures Listed(out + more, a, b)
  {
    var all := out + more;
    if Listed(out, a, b) {
      var i :| 0 <= i < |out| && out[i].a == a && out[i].b == b;
      assert all[i] == out[i];
    } else {
      var i :| 0 <= i < |more| && more[i].a == a && more[i].b == b;
      assert all[|out| + i] == more[i];
    }
  }

  lemma ConflictIsPair(k: Keys, refs: set<Name>, a: Name, j: nat)
    requires Split(k) && a in refs && j < |ConflictsIn(k, refs, a)|
    requires Less(a, ConflictsIn(k, refs, a)[j].ref)
    ensures var c := ConflictsIn(k, refs, a)[j]; IsPair(k, refs, RefPair(a, c.ref, c.rel))
  {
    var c := ConflictsIn(k, refs, a)[j];
    assert c.ref in SortedNames(Hits(k, refs, a));
    FirstPairIffPairs(k, a, c.ref);
    FirstPairSymmetric(k, a, c.ref);
  }

  lemma PartialAdd(k: Keys, refs: set<Name>, a: Name, cs: seq<Conflict>, j: nat, out: seq<RefPair>)
    requires Split(k) && a in refs && cs == ConflictsIn(k, refs, a) && j < |cs|
    requires Partial(k, refs, a, cs, j, out) && Less(a, cs[j].ref)
    ensures Partial(k, refs, a, cs, j + 1, out + [RefPair(a, cs[j].ref, cs[j].rel)])
  {
    var x := RefPair(a, cs[j].ref, cs[j].rel);
    ConflictIsPair(k, refs, a, j);
    PairsOfAdd(k, refs, {a}, out, x);
    LastIsBefore(k, refs, a, cs, j, out, x);
    SortedPairsAdd(out, x);
    ListedAdd(a, cs, j, out, x);
    EndsBelowAdd(k, refs, a, cs, j, out, x);
  }

  lemma LastIsBefore(k: Keys, refs: set<Name>, a: Name, cs: seq<Conflict>, j: nat, out: seq<RefPair>, x: RefPair)
    requires j < |cs| && EndsBelow(cs, j, out) && PairsOf(k, refs, {a}, out) && x.a == a && x.b == cs[j].ref
    ensures forall p | 0 <= p < |out| :: PairBefore(out[p], x)
  {
    forall p | 0 <= p < |out| ensures PairBefore(out[p], x) {
      assert out[p].a in {a} && Less(out[p].b, cs[j].ref);
    }
  }

  lemma EndsBelowAdd(k: Keys, refs: set<Name>, a: Name, cs: seq<Conflict>, j: nat, out: seq<RefPair>, x: RefPair)
    requires cs == ConflictsIn(k, refs, a) && j < |cs| && EndsBelow(cs, j, out) && x.b == cs[j].ref
    ensures EndsBelow(cs, j + 1, out + [x])
  {
    forall i, y | 0 <= i < |out + [x]| && j + 1 <= y < |cs| ensures Less((out + [x])[i].b, cs[y].ref) {
      if i == |out| { ConflictsSorted(k, refs, a, j, y); } else { assert (out + [x])[i] == out[i]; }
    }
  }

  lemma PairsOfAdd(k: Keys, refs: set<Name>, names: set<Name>, out: seq<RefPair>, x: RefPair)
    requires PairsOf(k, refs, names, out) && IsPair(k, refs, x) && x.a in names
    ensures PairsOf(k, refs, names, out + [x])
  {
  }

  lemma ListedAdd(a: Name, cs: seq<Conflict>, j: nat, out: seq<RefPair>, x: RefPair)
    requires j < |cs| && x.a == a && x.b == cs[j].ref && ListsFirst(a, cs, j, out)
    ensures ListsFirst(a, cs, j + 1, out + [x])
  {
    forall y | 0 <= y < j + 1 && Less(a, cs[y].ref) ensures Listed(out + [x], a, cs[y].ref) {
      if y == j { assert (out + [x])[|out|].b == cs[y].ref; } else { ListedAppend(out, [x], a, cs[y].ref); }
    }
  }

  lemma SortedPairsAdd(out: seq<RefPair>, x: RefPair)
    requires SortedPairs(out) && forall p | 0 <= p < |out| :: PairBefore(out[p], x)
    ensures SortedPairs(out + [x])
  {
    var all := out + [x];
    forall p, q | 0 <= p < q < |all| ensures PairBefore(all[p], all[q]) {
      assert all[p] == out[p] && (q < |out| ==> all[q] == out[q]);
    }
  }

  lemma PartialSkip(k: Keys, refs: set<Name>, a: Name, cs: seq<Conflict>, j: nat, out: seq<RefPair>)
    requires j < |cs| && Partial(k, refs, a, cs, j, out) && !Less(a, cs[j].ref)
    ensures Partial(k, refs, a, cs, j + 1, out)
  {
  }

  lemma ConflictsSorted(k: Keys, refs: set<Name>, a: Name, i: nat, j: nat)
    requires i < j < |ConflictsIn(k, refs, a)|
    ensures Less(ConflictsIn(k, refs, a)[i].ref, ConflictsIn(k, refs, a)[j].ref)
  {
  }

  method PairsFrom(k: Keys, ghost refs: set<Name>, a: Name, cs: seq<Conflict>) returns (out: seq<RefPair>)
    requires Split(k) && a in refs && cs == ConflictsIn(k, refs, a)
    ensures SortedPairs(out) && PairsOf(k, refs, {a}, out) && AllListed(k, refs, {a}, out)
  {
    out := [];
    var j := 0;
    while j < |cs|
      invariant 0 <= j <= |cs| && Partial(k, refs, a, cs, j, out)
    {
      if Less(a, cs[j].ref) {
        PartialAdd(k, refs, a, cs, j, out);
        out := out + [RefPair(a, cs[j].ref, cs[j].rel)];
      } else {
        PartialSkip(k, refs, a, cs, j, out);
      }
      j := j + 1;
    }
    PartialAll(k, refs, a, cs, out);
  }

  lemma PartialAll(k: Keys, refs: set<Name>, a: Name, cs: seq<Conflict>, out: seq<RefPair>)
    requires Split(k) && cs == ConflictsIn(k, refs, a) && Partial(k, refs, a, cs, |cs|, out)
    ensures AllListed(k, refs, {a}, out)
  {
    ConflictsInComplete(k, refs, a);
    forall b | b in refs && Less(a, b) && Pairs(k, a, b) ensures Listed(out, a, b) {
      var i :| 0 <= i < |cs| && cs[i].ref == b;
    }
  }

  lemma AppendPairs(k: Keys, refs: set<Name>, names: set<Name>, a: Name, out: seq<RefPair>, more: seq<RefPair>)
    requires SortedPairs(out) && PairsOf(k, refs, names, out) && AllListed(k, refs, names, out)
    requires SortedPairs(more) && PairsOf(k, refs, {a}, more) && AllListed(k, refs, {a}, more)
    requires forall n | n in names :: Less(n, a)
    ensures SortedPairs(out + more) && PairsOf(k, refs, names + {a}, out + more)
      && AllListed(k, refs, names + {a}, out + more)
  {
    forall x, b | x in names + {a} && b in refs && Less(x, b) && Pairs(k, x, b) ensures Listed(out + more, x, b) {
      ListedAppend(out, more, x, b);
    }
    forall i, j | 0 <= i < j < |out + more| ensures PairBefore((out + more)[i], (out + more)[j]) {
      if j < |out| {
        assert PairBefore(out[i], out[j]);
      } else if i >= |out| {
        assert PairBefore(more[i - |out|], more[j - |out|]);
      } else {
        assert out[i].a in names && more[j - |out|].a == a;
      }
    }
  }

  // All pairs that start with one of names, each once and in order.
  ghost predicate Covers(k: Keys, refs: set<Name>, names: set<Name>, out: seq<RefPair>)
  {
    SortedPairs(out) && PairsOf(k, refs, names, out) && AllListed(k, refs, names, out)
  }

  ghost function Firsts(names: seq<Name>, i: nat): set<Name>
    requires i <= |names|
  {
    set n | n in names[..i]
  }

  lemma FirstNames(names: seq<Name>, i: nat)
    requires SortedBy(names) && i < |names|
    ensures forall n | n in names[..i] :: Less(n, names[i])
    ensures Firsts(names, i + 1) == Firsts(names, i) + {names[i]}
  {
    assert names[..i + 1] == names[..i] + [names[i]];
  }

  method AdvertisedPairs(k: Keys, refs: set<Name>) returns (out: seq<RefPair>)
    requires Split(k)
    ensures IsPairList(k, refs, out)
  {
    var names := SortNames(refs);
    var found := FindConflicts(k, refs, names);
    out := [];
    var i := 0;
    while i < |names|
      invariant 0 <= i <= |names| && Covers(k, refs, Firsts(names, i), out)
    {
      FirstNames(names, i);
      var a := names[i];
      assert a in names && a in refs;
      assert a in found <==> ConflictsIn(k, refs, a) != [];
      var more := PairsFrom(k, refs, a, if a in found then found[a] else []);
      AppendPairs(k, refs, Firsts(names, i), a, out, more);
      out := out + more;
      i := i + 1;
    }
    assert names[..i] == names;
    assert (set n | n in names) == refs;
    PairListDone(k, refs, out);
  }

  lemma PairListDone(k: Keys, refs: set<Name>, out: seq<RefPair>)
    requires SortedPairs(out) && PairsOf(k, refs, refs, out) && AllListed(k, refs, refs, out)
    ensures IsPairList(k, refs, out)
  {
    forall a, b | a in refs && b in refs && Less(a, b) && Pairs(k, a, b)
      ensures exists i | 0 <= i < |out| :: out[i].a == a && out[i].b == b
    {
      assert Listed(out, a, b);
    }
  }
}
