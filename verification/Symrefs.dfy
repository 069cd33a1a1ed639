/** Following local symbolic refs from the refs a fetch will write
    (readcheck.go, ExpandSymrefs). */
module Symrefs {
  import opened Names

  // An entry with an empty target is not symbolic.
  predicate Leads(symrefs: map<Name, Name>, d: Name, t: Name)
  {
    d in symrefs && symrefs[d] == t && t != []
  }

  // c follows symbolic refs from a destination to t.
  ghost predicate Chain(dests: map<Name, Name>, symrefs: map<Name, Name>, c: seq<Name>, t: Name)
  {
    && |c| > 0 && c[0] in dests && c[|c| - 1] == t
    && forall i | 0 <= i < |c| - 1 :: Leads(symrefs, c[i], c[i + 1])
  }

  ghost predicate Followed(dests: map<Name, Name>, symrefs: map<Name, Name>, t: Name)
  {
    exists c :: Chain(dests, symrefs, c, t)
  }

  function Targets(symrefs: map<Name, Name>, s: set<Name>): set<Name>
  {
    set d | d in s && d in symrefs && symrefs[d] != [] :: symrefs[d]
  }

  // What k rounds reach.
  ghost function Within(dests: map<Name, Name>, symrefs: map<Name, Name>, k: nat): set<Name>
  {
    if k == 0 then dests.Keys
    else Within(dests, symrefs, k - 1) + Targets(symrefs, Within(dests, symrefs, k - 1))
  }

  // What round k is the first to reach.
  ghost function Round(dests: map<Name, Name>, symrefs: map<Name, Name>, k: nat): set<Name>
  {
    if k == 0 then dests.Keys else Within(dests, symrefs, k) - Within(dests, symrefs, k - 1)
  }

  // The sources of the members of s that lead to t.
  function SourcesOf(symrefs: map<Name, Name>, s: set<Name>, out: map<Name, Name>, t: Name): set<Name>
  {
    set d | d in s && d in out && Leads(symrefs, d, t) :: out[d]
  }

  // A target first reached in round k + 1 has the smallest source of those that
  // lead to it from round k.
  ghost predicate Smallest(dests: map<Name, Name>, symrefs: map<Name, Name>, out: map<Name, Name>, k: nat)
  {
    forall t | t in Round(dests, symrefs, k + 1) ::
      t in out && IsMin(out[t], SourcesOf(symrefs, Round(dests, symrefs, k), out, t))
  }

  ghost predicate KeepsSources(dests: map<Name, Name>, out: map<Name, Name>)
  {
    forall d | d in dests :: d in out && out[d] == dests[d]
  }

  ghost predicate Expanded(dests: map<Name, Name>, symrefs: map<Name, Name>, out: map<Name, Name>)
  {
    && (forall t :: t in out <==> Followed(dests, symrefs, t))
    && KeepsSources(dests, out)
    && forall k: nat :: Smallest(dests, symrefs, out, k)
  }

  lemma {:induction false} WithinGrows(dests: map<Name, Name>, symrefs: map<Name, Name>, j: nat, k: nat)
    requires j <= k
    ensures Within(dests, symrefs, j) <= Within(dests, symrefs, k)
    decreases k
  {
    if j < k { WithinGrows(dests, symrefs, j, k - 1); }
  }

  lemma {:induction false} WithinIsFollowed(dests: map<Name, Name>, symrefs: map<Name, Name>, k: nat, t: Name)
    requires t in Within(dests, symrefs, k)
    ensures Followed(dests, symrefs, t)
  {
    if k == 0 {
      assert Chain(dests, symrefs, [t], t);
    } else if t in Within(dests, symrefs, k - 1) {
      WithinIsFollowed(dests, symrefs, k - 1, t);
    } else {
      var d :| d in Within(dests, symrefs, k - 1) && d in symrefs && symrefs[d] != [] && symrefs[d] == t;
      WithinIsFollowed(dests, symrefs, k - 1, d);
      var c :| Chain(dests, symrefs, c, d);
      assert Chain(dests, symrefs, c + [t], t);
    }
  }

  // A bag that nothing leads out of has all that is followed.
  lemma {:induction false} ClosedHasFollowed(dests: map<Name, Name>, symrefs: map<Name, Name>, bag: set<Name>,
                                             c: seq<Name>, t: Name)
    requires Chain(dests, symrefs, c, t) && dests.Keys <= bag && Targets(symrefs, bag) <= bag
    ensures t in bag
    decreases |c|
  {
    if |c| > 1 {
      var n := |c| - 1;
      assert Leads(symrefs, c[n - 1], c[n]);
      ClosedHasFollowed(dests, symrefs, bag, c[..n], c[n - 1]);
      assert c[n] in Targets(symrefs, bag);
    }
  }

  lemma {:induction false} FirstRound(dests: map<Name, Name>, symrefs: map<Name, Name>, k: nat, t: Name)
    returns (j: nat)
    requires t in Within(dests, symrefs, k)
    ensures j <= k && t in Round(dests, symrefs, j)
  {
    if k == 0 || t !in Within(dests, symrefs, k - 1) { return k; }
    j := FirstRound(dests, symrefs, k - 1, t);
  }

  // The three facts leave one possible answer.
  lemma {:induction false} ExpandedIsUnique(dests: map<Name, Name>, symrefs: map<Name, Name>, a: map<Name, Name>,
                                            b: map<Name, Name>)
    requires Expanded(dests, symrefs, a) && Expanded(dests, symrefs, b)
    ensures a == b
  {
    forall t | t in a ensures t in b && a[t] == b[t] {
      assert Followed(dests, symrefs, t);
      var c :| Chain(dests, symrefs, c, t);
      ChainWithin(dests, symrefs, c, t);
      var k := FirstRound(dests, symrefs, |c| - 1, t);
      SameInRound(dests, symrefs, a, b, k, t);
    }
    assert a.Keys == b.Keys by {
      forall t ensures t in a <==> t in b { assert t in a <==> Followed(dests, symrefs, t); }
    }
  }

  lemma {:induction false} ChainWithin(dests: map<Name, Name>, symrefs: map<Name, Name>, c: seq<Name>, t: Name)
    requires Chain(dests, symrefs, c, t)
    ensures t in Within(dests, symrefs, |c| - 1)
    decreases |c|
  {
    if |c| > 1 {
      var n := |c| - 1;
      assert Leads(symrefs, c[n - 1], c[n]);
      ChainWithin(dests, symrefs, c[..n], c[n - 1]);
      assert c[n] in Targets(symrefs, Within(dests, symrefs, n - 1));
    }
  }

  lemma {:induction false} SameInRound(dests: map<Name, Name>, symrefs: map<Name, Name>, a: map<Name, Name>,
                                       b: map<Name, Name>, k: nat, t: Name)
    requires Expanded(dests, symrefs, a) && Expanded(dests, symrefs, b) && t in Round(dests, symrefs, k)
    ensures t in a && t in b && a[t] == b[t]
    decreases k
  {
    if k > 0 {
      var from := Round(dests, symrefs, k - 1);
      forall d | d in from ensures d in a && d in b && a[d] == b[d] { SameInRound(dests, symrefs, a, b, k - 1, d); }
      assert SourcesOf(symrefs, from, a, t) == SourcesOf(symrefs, from, b, t);
      assert Smallest(dests, symrefs, a, k - 1) && Smallest(dests, symrefs, b, k - 1);
      MinUnique(SourcesOf(symrefs, from, a, t), a[t], b[t]);
    }
  }

  // ---- the loop

  // The new targets of the frontier, each with its smallest source.
  ghost predicate AddedBy(symrefs: map<Name, Name>, out: map<Name, Name>, s: set<Name>, added: map<Name, Name>)
  {
    && added.Keys == Targets(symrefs, s) - out.Keys
    && forall t | t in added :: IsMin(added[t], SourcesOf(symrefs, s, out, t))
  }

  lemma SmallerSource(symrefs: map<Name, Name>, out: map<Name, Name>, s: set<Name>, added: map<Name, Name>, d: Name,
                      t: Name)
    requires AddedBy(symrefs, out, s, added) && d in out && d !in s && Leads(symrefs, d, t) && t !in out
    ensures AddedBy(symrefs, out, s + {d},
              added[t := if t in added && !Less(out[d], added[t]) then added[t] else out[d]])
  {
    var better := added[t := if t in added && !Less(out[d], added[t]) then added[t] else out[d]];
    assert Targets(symrefs, s + {d}) == Targets(symrefs, s) + {t};
    forall x | x in better ensures IsMin(better[x], SourcesOf(symrefs, s + {d}, out, x)) {
      if x == t {
        assert SourcesOf(symrefs, s + {d}, out, t) == SourcesOf(symrefs, s, out, t) + {out[d]};
        if t in added {
          LessTotal(out[d], added[t]);
          forall o | o in SourcesOf(symrefs, s, out, t) && o != better[t] ensures Less(better[t], o) {
            assert o == added[t] || Less(added[t], o);
            if better[t] == out[d] && o != added[t] && Less(out[d], added[t]) { LessTransitive(out[d], added[t], o); }
          }
        } else {
          assert t !in Targets(symrefs, s);
          assert SourcesOf(symrefs, s, out, t) == {};
        }
      } else {
        assert SourcesOf(symrefs, s + {d}, out, x) == SourcesOf(symrefs, s, out, x);
      }
    }
  }

  lemma NothingAdded(symrefs: map<Name, Name>, out: map<Name, Name>, s: set<Name>, added: map<Name, Name>, d: Name)
    requires AddedBy(symrefs, out, s, added) && forall t | Leads(symrefs, d, t) :: t in out
    ensures AddedBy(symrefs, out, s + {d}, added)
  {
    assert Targets(symrefs, s + {d}) - out.Keys == Targets(symrefs, s) - out.Keys by {
      assert d in symrefs && symrefs[d] != [] ==> Leads(symrefs, d, symrefs[d]);
    }
    forall x | x in added ensures IsMin(added[x], SourcesOf(symrefs, s + {d}, out, x)) {
      assert SourcesOf(symrefs, s + {d}, out, x) == SourcesOf(symrefs, s, out, x);
    }
  }

  method OneRound(symrefs: map<Name, Name>, out: map<Name, Name>, frontier: set<Name>) returns (added: map<Name, Name>)
    requires frontier <= out.Keys
    ensures AddedBy(symrefs, out, frontier, added)
  {
    added := map[];
    var rest := frontier;
    while rest != {}
      invariant rest <= frontier
      invariant AddedBy(symrefs, out, frontier - rest, added)
      decreases rest
    {
      var d :| d in rest;
      ghost var done := frontier - rest;
      rest := rest - {d};
      assert frontier - rest == done + {d};
      if d !in symrefs || symrefs[d] == [] || symrefs[d] in out {
        NothingAdded(symrefs, out, done, added, d);
      } else {
        var t := symrefs[d];
        SmallerSource(symrefs, out, done, added, d, t);
        added := added[t := if t in added && !Less(out[d], added[t]) then added[t] else out[d]];
      }
    }
    assert frontier - rest == frontier;
  }

  // out after k rounds.
  ghost predicate After(dests: map<Name, Name>, symrefs: map<Name, Name>, out: map<Name, Name>, k: nat)
  {
    && out.Keys == Within(dests, symrefs, k)
    && KeepsSources(dests, out)
    && forall j: nat | j < k :: Smallest(dests, symrefs, out, j)
  }

  // What round j draws its sources from is not touched later.
  lemma SourcesStay(dests: map<Name, Name>, symrefs: map<Name, Name>, out: map<Name, Name>, added: map<Name, Name>,
                    k: nat, j: nat, t: Name)
    requires j <= k && out.Keys == Within(dests, symrefs, k) && added.Keys !! out.Keys
    ensures SourcesOf(symrefs, Round(dests, symrefs, j), out + added, t)
      == SourcesOf(symrefs, Round(dests, symrefs, j), out, t)
  {
    WithinGrows(dests, symrefs, j, k);
  }

  lemma OldRoundStays(dests: map<Name, Name>, symrefs: map<Name, Name>, out: map<Name, Name>, added: map<Name, Name>,
                      k: nat, j: nat)
    requires After(dests, symrefs, out, k) && added.Keys !! out.Keys && j < k
    ensures Smallest(dests, symrefs, out + added, j)
  {
    assert Smallest(dests, symrefs, out, j);
    forall t | t in Round(dests, symrefs, j + 1)
      ensures t in out + added && IsMin((out + added)[t], SourcesOf(symrefs, Round(dests, symrefs, j), out + added, t))
    {
      WithinGrows(dests, symrefs, j + 1, k);
      SourcesStay(dests, symrefs, out, added, k, j, t);
    }
  }

  lemma {:induction false} RoundStep(dests: map<Name, Name>, symrefs: map<Name, Name>, out: map<Name, Name>,
                                     added: map<Name, Name>, k: nat)
    requires After(dests, symrefs, out, k) && AddedBy(symrefs, out, Round(dests, symrefs, k), added)
    ensures After(dests, symrefs, out + added, k + 1) && added.Keys == Round(dests, symrefs, k + 1)
  {
    OlderTargets(dests, symrefs, k);
    WithinGrows(dests, symrefs, 0, k);
    var all := out + added;
    assert KeepsSources(dests, all);
    forall j: nat | j < k ensures Smallest(dests, symrefs, all, j) { OldRoundStays(dests, symrefs, out, added, k, j); }
    forall t | t in Round(dests, symrefs, k + 1)
      ensures t in all && IsMin(all[t], SourcesOf(symrefs, Round(dests, symrefs, k), all, t))
    {
      SourcesStay(dests, symrefs, out, added, k, k, t);
    }
  }

  // Targets of earlier rounds are reached already.
  lemma {:induction false} OlderTargets(dests: map<Name, Name>, symrefs: map<Name, Name>, k: nat)
    ensures Targets(symrefs, Within(dests, symrefs, k)) - Within(dests, symrefs, k)
         == Targets(symrefs, Round(dests, symrefs, k)) - Within(dests, symrefs, k)
  {
  }

  lemma WithinIsClosed(dests: map<Name, Name>, symrefs: map<Name, Name>, k: nat)
    requires Round(dests, symrefs, k) == {}
    ensures Targets(symrefs, Within(dests, symrefs, k)) <= Within(dests, symrefs, k)
    ensures dests.Keys <= Within(dests, symrefs, k)
  {
    OlderTargets(dests, symrefs, k);
    assert Targets(symrefs, Round(dests, symrefs, k)) == {};
    WithinGrows(dests, symrefs, 0, k);
  }

  lemma WithinIsAll(dests: map<Name, Name>, symrefs: map<Name, Name>, k: nat, t: Name)
    requires Round(dests, symrefs, k) == {}
    ensures t in Within(dests, symrefs, k) <==> Followed(dests, symrefs, t)
  {
    if t in Within(dests, symrefs, k) { WithinIsFollowed(dests, symrefs, k, t); }
    if Followed(dests, symrefs, t) {
      var c :| Chain(dests, symrefs, c, t);
      WithinIsClosed(dests, symrefs, k);
      ClosedHasFollowed(dests, symrefs, Within(dests, symrefs, k), c, t);
    }
  }

  lemma NoMoreRounds(dests: map<Name, Name>, symrefs: map<Name, Name>, out: map<Name, Name>, k: nat)
    requires After(dests, symrefs, out, k) && Round(dests, symrefs, k) == {}
    ensures Expanded(dests, symrefs, out)
  {
    forall t ensures t in out <==> Followed(dests, symrefs, t) { WithinIsAll(dests, symrefs, k, t); }
    forall j: nat ensures Smallest(dests, symrefs, out, j) {
      if j >= k { EmptyAfter(dests, symrefs, k, j + 1); }
    }
  }

  // A closed set of targets is where the rounds stop.
  lemma {:induction false} ClosedStays(dests: map<Name, Name>, symrefs: map<Name, Name>, k: nat, j: nat)
    requires k <= j && Targets(symrefs, Within(dests, symrefs, k)) <= Within(dests, symrefs, k)
    ensures Within(dests, symrefs, j) == Within(dests, symrefs, k)
    decreases j
  {
    if k < j { ClosedStays(dests, symrefs, k, j - 1); }
  }

  lemma EmptyAfter(dests: map<Name, Name>, symrefs: map<Name, Name>, k: nat, j: nat)
    requires Round(dests, symrefs, k) == {} && k < j
    ensures Round(dests, symrefs, j) == {}
  {
    WithinIsClosed(dests, symrefs, k);
    ClosedStays(dests, symrefs, k, j);
    ClosedStays(dests, symrefs, k, j - 1);
  }

  // What is not reached yet shrinks, unless nothing was added.
  lemma AddedShrinks(symrefs: map<Name, Name>, out: map<Name, Name>, s: set<Name>, added: map<Name, Name>)
    requires AddedBy(symrefs, out, s, added)
    ensures symrefs.Values - (out + added).Keys <= symrefs.Values - out.Keys
    ensures added.Keys != {} ==> symrefs.Values - (out + added).Keys < symrefs.Values - out.Keys
  {
    if added.Keys != {} {
      var t :| t in added;
      assert t in Targets(symrefs, s) && t in symrefs.Values;
      assert t !in symrefs.Values - (out + added).Keys;
    }
  }

  method ExpandSymrefs(dests: map<Name, Name>, symrefs: map<Name, Name>) returns (out: map<Name, Name>)
    ensures Expanded(dests, symrefs, out)
  {
    out := dests;
    var frontier := dests.Keys;
    ghost var k: nat := 0;
    while frontier != {}
      invariant After(dests, symrefs, out, k) && frontier == Round(dests, symrefs, k)
      invariant frontier <= out.Keys
      decreases symrefs.Values - out.Keys, frontier
    {
      var added := OneRound(symrefs, out, frontier);
      RoundStep(dests, symrefs, out, added, k);
      AddedShrinks(symrefs, out, frontier, added);
      out := out + added;
      frontier := added.Keys;
      k := k + 1;
    }
    NoMoreRounds(dests, symrefs, out, k);
  }
}
