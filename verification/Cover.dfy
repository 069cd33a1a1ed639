/** Choosing which packs to download for the missing objects (packmap.go,
    greedyCover). */
module Cover {
  import opened Names
  import opened Wrappers
  import opened Objects

  type PackMap = map<Oid, seq<Stem>>

  // The packs said to hold an object.
  function Cands(m: PackMap, o: Oid): seq<Stem>
  {
    if o in m then m[o] else []
  }

  // Stems are ASCII, ordered as strings.
  predicate Before(a: Stem, b: Stem)
  {
    Less(Ascii(a), Ascii(b))
  }

  lemma BeforeTotal(a: Stem, b: Stem)
    ensures a == b || Before(a, b) || Before(b, a)
    ensures !(Before(a, b) && Before(b, a))
  {
    LessTotal(Ascii(a), Ascii(b));
    if Ascii(a) == Ascii(b) {
      assert |a| == |b|;
      forall i | 0 <= i < |a| ensures a[i] == b[i] {
        assert Ascii(a)[i] == Ascii(b)[i];
      }
    }
  }

  // A candidate not downloaded yet.
  predicate Fresh(m: PackMap, downloaded: set<Stem>, o: Oid, s: Stem)
  {
    s in Cands(m, o) && s !in downloaded
  }

  // s is the one candidate left for o, listed once.
  ghost predicate Only(m: PackMap, downloaded: set<Stem>, o: Oid, s: Stem)
  {
    && Fresh(m, downloaded, o, s) && (forall x | Fresh(m, downloaded, o, x) :: x == s)
    && multiset(Cands(m, o))[s] == 1
  }

  ghost predicate HasFresh(m: PackMap, downloaded: set<Stem>, o: Oid)
  {
    exists s :: Fresh(m, downloaded, o, s)
  }

  datatype Result = Covered(stems: seq<Stem>) | NoCandidate(oids: set<Oid>) | NoProgress(oids: set<Oid>) | InternalError

  // stems is a cover: every object has a chosen candidate.
  ghost predicate Covers(m: PackMap, stems: set<Stem>, oids: set<Oid>)
  {
    forall o | o in oids :: exists s :: s in stems && s in Cands(m, o)
  }

  lemma CoverNotEmpty(m: PackMap, stems: set<Stem>, oids: set<Oid>, o: Oid)
    requires Covers(m, stems, oids) && o in oids
    ensures stems != {}
  {
    var s :| s in stems && s in Cands(m, o);
  }

  // No stem listed twice for one object.
  ghost predicate NoRepeats(m: PackMap)
  {
    forall o, i, j | o in m && 0 <= i < j < |m[o]| :: m[o][i] != m[o][j]
  }

  // The objects one pack would cover.
  ghost function Gain(m: PackMap, oids: set<Oid>, s: Stem): set<Oid>
  {
    set o | o in oids && s in Cands(m, o)
  }

  lemma OneLeft(m: PackMap, downloaded: set<Stem>, o: Oid, open: seq<Stem>, s: Stem)
    requires forall x :: x in open <==> Fresh(m, downloaded, o, x)
    requires forall x :: multiset(open)[x] == if x in downloaded then 0 else multiset(Cands(m, o))[x]
    ensures |open| == 1 && s == open[0] <==> Only(m, downloaded, o, s)
  {
    if |open| == 1 && s == open[0] { assert open == [s]; }
    if Only(m, downloaded, o, s) {
      forall x | x != s ensures multiset(open)[x] == 0 {
        assert x in multiset(Cands(m, o)) <==> x in Cands(m, o);
        assert !Fresh(m, downloaded, o, x);
      }
      assert multiset(open) == multiset{s};
      assert |multiset(open)| == |open|;
    }
  }

  method FreshOf(m: PackMap, downloaded: set<Stem>, o: Oid) returns (open: seq<Stem>)
    ensures forall s :: s in open <==> Fresh(m, downloaded, o, s)
    ensures forall s :: |open| == 1 && s == open[0] <==> Only(m, downloaded, o, s)
  {
    open := [];
    var cands := Cands(m, o);
    for i := 0 to |cands|
      invariant forall s :: multiset(open)[s] == if s in downloaded then 0 else multiset(cands[..i])[s]
    {
      assert cands[..i + 1] == cands[..i] + [cands[i]];
      if cands[i] !in downloaded { open := open + [cands[i]]; }
    }
    assert cands[..|cands|] == cands;
    forall s ensures s in open <==> Fresh(m, downloaded, o, s) {
      assert s in multiset(open) <==> s in open;
      assert s in multiset(cands) <==> s in cands;
    }
    forall s ensures |open| == 1 && s == open[0] <==> Only(m, downloaded, o, s) { OneLeft(m, downloaded, o, open, s); }
  }

  // The two failure scans, over the whole frontier.
  method ScanFrontier(missing: seq<Oid>, m: PackMap, downloaded: set<Stem>)
    returns (noCandidate: set<Oid>, noProgress: set<Oid>, uncovered: set<Oid>)
    ensures noCandidate == set o | o in missing && Cands(m, o) == []
    ensures forall o :: o in noProgress <==> o in missing && Cands(m, o) != [] && !HasFresh(m, downloaded, o)
    ensures forall o :: o in uncovered <==> o in missing && HasFresh(m, downloaded, o)
  {
    noCandidate, noProgress, uncovered := {}, {}, {};
    for i := 0 to |missing|
      invariant noCandidate == set o | o in missing[..i] && Cands(m, o) == []
      invariant forall o :: o in noProgress <==> o in missing[..i] && Cands(m, o) != [] && !HasFresh(m, downloaded, o)
      invariant forall o :: o in uncovered <==> o in missing[..i] && HasFresh(m, downloaded, o)
    {
      var o := missing[i];
      assert missing[..i + 1] == missing[..i] + [o];
      var open := FreshOf(m, downloaded, o);
      if Cands(m, o) == [] {
        noCandidate := noCandidate + {o};
      } else if open == [] {
        noProgress := noProgress + {o};
      } else {
        assert Fresh(m, downloaded, o, open[0]);
        uncovered := uncovered + {o};
      }
    }
    assert missing[..|missing|] == missing;
  }

  // The objects no chosen pack covers.
  ghost function Remaining(m: PackMap, oids: set<Oid>, chosen: set<Stem>): set<Oid>
  {
    set o | o in oids && forall s | s in chosen :: s !in Cands(m, o)
  }

  lemma RemainingCovered(m: PackMap, oids: set<Oid>, chosen: set<Stem>)
    ensures Covers(m, chosen, oids - Remaining(m, oids, chosen))
  {
  }

  method Uncovered(m: PackMap, oids: set<Oid>, chosen: set<Stem>) returns (left: set<Oid>)
    ensures left == Remaining(m, oids, chosen)
  {
    left := oids;
    var rest := oids;
    while rest != {}
      invariant rest <= oids && left <= oids
      invariant forall o | o in oids :: o in left <==> o in rest || o in Remaining(m, oids, chosen)
      decreases rest
    {
      var o :| o in rest;
      rest := rest - {o};
      var hit := AnyChosen(Cands(m, o), chosen);
      if hit { left := left - {o}; }
    }
  }

  method AnyChosen(cands: seq<Stem>, chosen: set<Stem>) returns (hit: bool)
    ensures hit <==> exists s :: s in cands && s in chosen
  {
    for i := 0 to |cands|
      invariant forall s | s in cands[..i] :: s !in chosen
    {
      assert cands[..i + 1] == cands[..i] + [cands[i]];
      if cands[i] in chosen { return true; }
    }
    assert cands[..|cands|] == cands;
    return false;
  }

  // Pass 1: the packs that are some object's only choice, so that every cover
  // by packs not yet downloaded has them.
  method ForcedSingles(m: PackMap, oids: set<Oid>, downloaded: set<Stem>) returns (forced: set<Stem>)
    ensures forall s :: s in forced <==> exists o :: o in oids && Only(m, downloaded, o, s)
  {
    forced := {};
    var rest := oids;
    while rest != {}
      invariant rest <= oids
      invariant forall s :: s in forced <==> exists o :: o in oids - rest && Only(m, downloaded, o, s)
      decreases rest
    {
      var o :| o in rest;
      ghost var done := oids - rest;
      rest := rest - {o};
      assert oids - rest == done + {o};
      var open := FreshOf(m, downloaded, o);
      if |open| == 1 {
        forced := forced + {open[0]};
      }
    }
  }

  lemma ForcedInEveryCover(m: PackMap, oids: set<Oid>, downloaded: set<Stem>, s: Stem, o: Oid, cover: set<Stem>)
    requires o in oids && Only(m, downloaded, o, s)
    requires Covers(m, cover, oids) && cover !! downloaded
    ensures s in cover
  {
    var x :| x in cover && x in Cands(m, o);
    assert Fresh(m, downloaded, o, x);
  }

  // ---- counting

  function Tally(count: map<Stem, nat>, s: Stem): nat
  {
    if s in count then count[s] else 0
  }

  method AddCandidates(count: map<Stem, nat>, cands: seq<Stem>, barred: set<Stem>) returns (count': map<Stem, nat>)
    requires forall s | s in count :: count[s] > 0
    ensures forall s | s in count' :: count'[s] > 0
    ensures forall s :: Tally(count', s) == Tally(count, s) + (if s in barred then 0 else multiset(cands)[s])
  {
    count' := count;
    for i := 0 to |cands|
      invariant forall s | s in count' :: count'[s] > 0
      invariant forall s :: Tally(count', s) == Tally(count, s) + (if s in barred then 0 else multiset(cands[..i])[s])
    {
      assert cands[..i + 1] == cands[..i] + [cands[i]];
      if cands[i] !in barred { count' := count'[cands[i] := Tally(count', cands[i]) + 1]; }
    }
    assert cands[..|cands|] == cands;
  }

  lemma OnceIfListed(cands: seq<Stem>, s: Stem)
    requires forall i, j | 0 <= i < j < |cands| :: cands[i] != cands[j]
    ensures multiset(cands)[s] == if s in cands then 1 else 0
  {
    if cands != [] {
      var n := |cands| - 1;
      OnceIfListed(cands[..n], s);
      assert cands == cands[..n] + [cands[n]];
      if s == cands[n] { assert s !in cands[..n]; }
    }
  }

  // count has the packs not barred that hold some object, each with how many it
  // holds.
  ghost predicate Counted(m: PackMap, oids: set<Oid>, barred: set<Stem>, count: map<Stem, nat>)
  {
    && (forall s :: s in count <==> s !in barred && exists o :: o in oids && s in Cands(m, o))
    && (NoRepeats(m) ==> forall s | s in count :: count[s] == |Gain(m, oids, s)|)
  }

  // How many uncovered objects each eligible pack is listed for.
  method CountCandidates(m: PackMap, oids: set<Oid>, barred: set<Stem>) returns (count: map<Stem, nat>)
    ensures Counted(m, oids, barred, count)
  {
    count := map[];
    var rest := oids;
    while rest != {}
      invariant rest <= oids
      invariant forall s | s in count :: count[s] > 0
      invariant forall s :: s in count <==> s !in barred && exists o :: o in oids - rest && s in Cands(m, o)
      invariant NoRepeats(m) ==> forall s | s !in barred :: Tally(count, s) == |Gain(m, oids - rest, s)|
      decreases rest
    {
      var o :| o in rest;
      ghost var done, before := oids - rest, count;
      rest := rest - {o};
      assert oids - rest == done + {o};
      count := AddCandidates(count, Cands(m, o), barred);
      forall s | s !in barred
        ensures s in count <==> s in before || s in Cands(m, o)
        ensures NoRepeats(m) ==> Tally(count, s) == |Gain(m, done + {o}, s)|
      {
        GainStep(m, done, o, s);
        assert s in Cands(m, o) <==> multiset(Cands(m, o))[s] > 0;
        if NoRepeats(m) { OnceIfListed(Cands(m, o), s); }
      }
    }
    assert oids - rest == oids;
  }

  lemma GainStep(m: PackMap, done: set<Oid>, o: Oid, s: Stem)
    requires o !in done
    ensures |Gain(m, done + {o}, s)| == |Gain(m, done, s)| + (if s in Cands(m, o) then 1 else 0)
  {
    if s in Cands(m, o) {
      assert Gain(m, done + {o}, s) == Gain(m, done, s) + {o};
    } else {
      assert Gain(m, done + {o}, s) == Gain(m, done, s);
    }
  }

  // c counts at least as much as s, ties to the smaller name.
  predicate Better(count: map<Stem, nat>, c: Stem, s: Stem)
    requires c in count && s in count
  {
    c == s || count[c] > count[s] || (count[c] == count[s] && Before(c, s))
  }

  lemma BetterTransitive(count: map<Stem, nat>, a: Stem, b: Stem, d: Stem)
    requires a in count && b in count && d in count && Better(count, a, b) && Better(count, b, d)
    ensures Better(count, a, d)
  {
    if count[a] == count[b] == count[d] && a != b && b != d {
      LessTransitive(Ascii(a), Ascii(b), Ascii(d));
    }
  }

  method PickBest(count: map<Stem, nat>) returns (best: Option<Stem>)
    ensures best.None? <==> count == map[]
    ensures best.Some? ==> best.value in count && forall s | s in count ::
      count[s] <= count[best.value]
      && (count[s] == count[best.value] ==> s == best.value || Less(Ascii(best.value), Ascii(s)))
    ensures best.Some? ==> forall s | s in count :: Better(count, best.value, s)
  {
    best := None;
    var rest := count.Keys;
    while rest != {}
      invariant rest <= count.Keys
      invariant best.None? <==> rest == count.Keys
      invariant best.Some? ==> best.value in count && forall s | s in count.Keys - rest :: Better(count, best.value, s)
      decreases rest
    {
      var c :| c in rest;
      ghost var seen := count.Keys - rest;
      rest := rest - {c};
      if best.None? {
        best := Some(c);
      } else {
        BeforeTotal(c, best.value);
        if count[c] > count[best.value] || (count[c] == count[best.value] && Before(c, best.value)) {
          forall s | s in seen ensures Better(count, c, s) { BetterTransitive(count, c, best.value, s); }
          best := Some(c);
        }
      }
    }
    assert best.Some? ==> forall s | s in count :: s in count.Keys - rest && Better(count, best.value, s);
  }

  // ---- how good one pick is

  lemma {:induction false} CoverBound(m: PackMap, oids: set<Oid>, cover: set<Stem>, most: nat)
    requires Covers(m, cover, oids)
    requires forall s | s in cover :: |Gain(m, oids, s)| <= most
    ensures |oids| <= |cover| * most
    decreases |cover|
  {
    if cover == {} {
      assert oids == {};
    } else {
      var s :| s in cover;
      var g := Gain(m, oids, s);
      var rest := oids - g;
      forall o | o in rest ensures exists x :: x in cover - {s} && x in Cands(m, o) {
        var x :| x in cover && x in Cands(m, o);
        assert x != s;
      }
      forall x | x in cover - {s} ensures |Gain(m, rest, x)| <= most {
        SubsetSize(Gain(m, rest, x), Gain(m, oids, x));
      }
      CoverBound(m, rest, cover - {s}, most);
      assert oids == rest + g && rest !! g;
      assert |oids| == |rest| + |g|;
      TimesOneLess(|cover|, most);
    }
  }

  lemma TimesOneLess(k: nat, n: nat)
    requires k > 0
    ensures k * n == (k - 1) * n + n
  {
  }

  lemma SubsetSize<T>(a: set<T>, b: set<T>)
    requires a <= b
    ensures |a| <= |b|
  {
    assert b == a + (b - a);
    assert |b| == |a| + |b - a|;
  }

  lemma GainsLess(m: PackMap, oids: set<Oid>, barred: set<Stem>, count: map<Stem, nat>, best: Stem, s: Stem)
    requires NoRepeats(m) && s !in barred
    requires Counted(m, oids, barred, count)
    requires best in count && forall x | x in count :: Better(count, best, x)
    ensures |Gain(m, oids, s)| <= |Gain(m, oids, best)|
  {
    if s in count {
      assert Better(count, best, s);
    } else {
      assert Gain(m, oids, s) == {};
    }
  }

  // The pick covers at least one k-th of what is left, for any cover of size k
  // by eligible packs.
  lemma PickIsGreedy(m: PackMap, oids: set<Oid>, barred: set<Stem>, count: map<Stem, nat>, best: Stem, cover: set<Stem>)
    requires NoRepeats(m) && Covers(m, cover, oids) && cover !! barred
    requires Counted(m, oids, barred, count)
    requires best in count && forall s | s in count :: Better(count, best, s)
    ensures |oids| <= |cover| * |Gain(m, oids, best)|
  {
    forall s | s in cover ensures |Gain(m, oids, s)| <= |Gain(m, oids, best)| {
      GainsLess(m, oids, barred, count, best, s);
    }
    CoverBound(m, oids, cover, |Gain(m, oids, best)|);
  }

  // ---- the whole choice

  // The only choice some missing object has left.
  ghost predicate Forced(m: PackMap, missing: seq<Oid>, downloaded: set<Stem>, s: Stem)
  {
    exists o :: o in missing && Only(m, downloaded, o, s)
  }

  ghost predicate Useful(m: PackMap, missing: seq<Oid>, downloaded: set<Stem>, s: Stem)
  {
    s !in downloaded && exists o :: o in missing && s in Cands(m, o)
  }

  // As good as any cover of what is left: for a cover by k packs not yet
  // downloaded, the pick has at least one k-th of it.
  ghost predicate Greedy(m: PackMap, left: set<Oid>, downloaded: set<Stem>, pick: Stem)
  {
    forall cover: set<Stem> | cover !! downloaded && Covers(m, cover, left) ::
      |left| <= |cover| * |Gain(m, left, pick)|
  }

  ghost function Chosen(start: set<Stem>, picks: seq<Stem>): set<Stem>
  {
    start + set s | s in picks
  }

  ghost function ChosenBefore(start: set<Stem>, picks: seq<Stem>, i: nat): set<Stem>
    requires i <= |picks|
  {
    Chosen(start, picks[..i])
  }

  ghost predicate EachGreedy(m: PackMap, oids: set<Oid>, downloaded: set<Stem>, start: set<Stem>, picks: seq<Stem>)
  {
    forall i | 0 <= i < |picks| :: Greedy(m, Remaining(m, oids, ChosenBefore(start, picks, i)), downloaded, picks[i])
  }

  lemma EachGreedyStep(m: PackMap, oids: set<Oid>, downloaded: set<Stem>, start: set<Stem>, picks: seq<Stem>,
                       best: Stem)
    requires EachGreedy(m, oids, downloaded, start, picks)
    requires Greedy(m, Remaining(m, oids, Chosen(start, picks)), downloaded, best)
    ensures EachGreedy(m, oids, downloaded, start, picks + [best])
  {
    var more := picks + [best];
    forall i | 0 <= i < |more|
      ensures Greedy(m, Remaining(m, oids, ChosenBefore(start, more, i)), downloaded, more[i])
    {
      assert more[..i] == picks[..i];
      assert picks[..|picks|] == picks;
    }
  }

  // Chosen packs cover nothing that is left, so a cover may do without them.
  lemma DropChosen(m: PackMap, left: set<Oid>, chosen: set<Stem>, cover: set<Stem>)
    requires Covers(m, cover, left)
    requires forall o, s | o in left && s in chosen :: s !in Cands(m, o)
    ensures Covers(m, cover - chosen, left) && |cover - chosen| <= |cover|
  {
    SubsetSize(cover - chosen, cover);
    forall o | o in left ensures exists s :: s in cover - chosen && s in Cands(m, o) {
      var s :| s in cover && s in Cands(m, o);
      assert s !in chosen;
    }
  }

  lemma BestIsGreedy(m: PackMap, left: set<Oid>, downloaded: set<Stem>, chosen: set<Stem>, count: map<Stem, nat>,
                     best: Stem)
    requires NoRepeats(m)
    requires forall o, s | o in left && s in chosen :: s !in Cands(m, o)
    requires Counted(m, left, downloaded + chosen, count)
    requires best in count && forall s | s in count :: Better(count, best, s)
    ensures Greedy(m, left, downloaded, best)
  {
    forall cover: set<Stem> | cover !! downloaded && Covers(m, cover, left)
      ensures |left| <= |cover| * |Gain(m, left, best)|
    {
      DropChosen(m, left, chosen, cover);
      PickIsGreedy(m, left, downloaded + chosen, count, best, cover - chosen);
      Scale(|cover - chosen|, |cover|, |Gain(m, left, best)|);
    }
  }

  lemma Scale(a: nat, b: nat, g: nat)
    requires a <= b
    ensures a * g <= b * g
  {
  }

  // What pass 2 keeps, for a state that has taken picks.
  ghost predicate Picking(m: PackMap, missing: seq<Oid>, oids: set<Oid>, downloaded: set<Stem>,
                          start: set<Stem>, picks: seq<Stem>, chosen: set<Stem>)
  {
    && chosen == Chosen(start, picks)
    && (forall s | s in chosen :: Useful(m, missing, downloaded, s))
    && (NoRepeats(m) ==> EachGreedy(m, oids, downloaded, start, picks))
  }

  lemma PickStep(m: PackMap, missing: seq<Oid>, oids: set<Oid>, downloaded: set<Stem>, start: set<Stem>,
                 picks: seq<Stem>, chosen: set<Stem>, count: map<Stem, nat>, best: Stem)
    requires Picking(m, missing, oids, downloaded, start, picks, chosen)
    requires forall o | o in oids :: o in missing
    requires Counted(m, Remaining(m, oids, chosen), downloaded + chosen, count)
    requires best in count && forall s | s in count :: Better(count, best, s)
    ensures Picking(m, missing, oids, downloaded, start, picks + [best], chosen + {best})
    ensures Remaining(m, oids, chosen + {best}) == Remaining(m, Remaining(m, oids, chosen), chosen + {best})
    ensures Remaining(m, oids, chosen + {best}) < Remaining(m, oids, chosen)
  {
    var left := Remaining(m, oids, chosen);
    if NoRepeats(m) {
      BestIsGreedy(m, left, downloaded, chosen, count, best);
      EachGreedyStep(m, oids, downloaded, start, picks, best);
    }
    var o :| o in left && best in Cands(m, o);
    assert o !in Remaining(m, oids, chosen + {best});
    assert Chosen(start, picks + [best]) == chosen + {best};
    assert Useful(m, missing, downloaded, best);
  }

  // Pass 2: take the pack that covers most of what is left, again and again.
  method CoverGreedily(missing: seq<Oid>, m: PackMap, downloaded: set<Stem>, start: set<Stem>, oids: set<Oid>)
    returns (chosen: set<Stem>, stuck: bool, ghost picks: seq<Stem>)
    requires forall o | o in oids :: o in missing && HasFresh(m, downloaded, o)
    requires forall s | s in start :: Useful(m, missing, downloaded, s)
    ensures !stuck && chosen == Chosen(start, picks) && Remaining(m, oids, chosen) == {}
    ensures forall s | s in chosen :: Useful(m, missing, downloaded, s)
    ensures NoRepeats(m) ==> EachGreedy(m, oids, downloaded, start, picks)
  {
    chosen, stuck, picks := start, false, [];
    var uncovered := Uncovered(m, oids, chosen);
    while uncovered != {}
      invariant Picking(m, missing, oids, downloaded, start, picks, chosen)
      invariant uncovered == Remaining(m, oids, chosen)
      decreases uncovered
    {
      var count := CountCandidates(m, uncovered, downloaded + chosen);
      FreshRemains(m, uncovered, downloaded, chosen, count);
      var best := PickBest(count);
      if best.None? { return chosen, true, picks; }
      PickStep(m, missing, oids, downloaded, start, picks, chosen, count, best.value);
      chosen := chosen + {best.value};
      picks := picks + [best.value];
      uncovered := Uncovered(m, uncovered, chosen);
    }
  }

  // An object no chosen pack covers still has an eligible candidate.
  lemma FreshRemains(m: PackMap, uncovered: set<Oid>, downloaded: set<Stem>, chosen: set<Stem>, count: map<Stem, nat>)
    requires uncovered != {} && forall o | o in uncovered :: HasFresh(m, downloaded, o)
    requires forall o, s | o in uncovered && s in chosen :: s !in Cands(m, o)
    requires Counted(m, uncovered, downloaded + chosen, count)
    ensures count != map[]
  {
    var o :| o in uncovered;
    var s :| Fresh(m, downloaded, o, s);
    assert s in count;
  }

  method SortStems(stems: set<Stem>) returns (q: seq<Stem>)
    ensures forall s :: s in q <==> s in stems
    ensures forall i, j | 0 <= i < j < |q| :: Before(q[i], q[j])
  {
    q := [];
    var rest := stems;
    while rest != {}
      invariant rest <= stems && forall s :: s in q <==> s in stems - rest
      invariant forall i, j | 0 <= i < j < |q| :: Before(q[i], q[j])
      invariant forall i, s | 0 <= i < |q| && s in rest :: Before(q[i], s)
      decreases rest
    {
      var least := LeastStem(rest);
      q := q + [least];
      rest := rest - {least};
    }
  }

  method LeastStem(stems: set<Stem>) returns (least: Stem)
    requires stems != {}
    ensures least in stems && forall s | s in stems && s != least :: Before(least, s)
  {
    least :| least in stems;
    var rest := stems - {least};
    while rest != {}
      invariant rest <= stems && least in stems && least !in rest
      invariant forall s | s in stems - rest && s != least :: Before(least, s)
      decreases rest
    {
      var s :| s in rest;
      ghost var seen := stems - rest;
      rest := rest - {s};
      BeforeTotal(s, least);
      if Before(s, least) {
        forall x | x in stems - rest && x != s ensures Before(s, x) {
          if x != least { assert x in seen; LessTransitive(Ascii(s), Ascii(least), Ascii(x)); }
        }
        least := s;
      }
    }
  }

  // What a successful choice is: sorted packs that cover every missing object,
  // each of use, the forced ones and then greedy picks.
  ghost predicate GoodCover(m: PackMap, missing: seq<Oid>, downloaded: set<Stem>, stems: seq<Stem>,
                            forced: set<Stem>, picks: seq<Stem>)
  {
    && Covers(m, (set s | s in stems), (set o | o in missing))
    && (forall s | s in stems :: Useful(m, missing, downloaded, s))
    && (forall i, j | 0 <= i < j < |stems| :: Before(stems[i], stems[j]))
    && (set s | s in stems) == Chosen(forced, picks)
    && (forall s :: s in forced <==> Forced(m, missing, downloaded, s))
    && (NoRepeats(m) ==> EachGreedy(m, (set o | o in missing), downloaded, forced, picks))
  }

  lemma PlanIsUseful(m: PackMap, missing: seq<Oid>, downloaded: set<Stem>, stems: seq<Stem>,
                     forced: set<Stem>, picks: seq<Stem>)
    requires GoodCover(m, missing, downloaded, stems, forced, picks) && missing != []
    ensures stems != [] && forall s | s in stems :: Useful(m, missing, downloaded, s)
    ensures forall i, j | 0 <= i < j < |stems| :: stems[i] != stems[j]
  {
    CoverNotEmpty(m, (set s | s in stems), (set o | o in missing), missing[0]);
    forall i, j | 0 <= i < j < |stems| ensures stems[i] != stems[j] { BeforeTotal(stems[i], stems[j]); }
  }

  // Every missing object has a candidate not downloaded yet.
  ghost predicate Coverable(m: PackMap, missing: seq<Oid>, downloaded: set<Stem>)
  {
    forall o | o in missing :: HasFresh(m, downloaded, o)
  }

  // Once the scans pass, both passes together succeed.
  method CoverAll(missing: seq<Oid>, m: PackMap, downloaded: set<Stem>, uncovered: set<Oid>)
    returns (res: Result, ghost forced: set<Stem>, ghost picks: seq<Stem>)
    requires Coverable(m, missing, downloaded) && uncovered == set o | o in missing
    ensures res.Covered? && GoodCover(m, missing, downloaded, res.stems, forced, picks)
  {
    var singles := ForcedSingles(m, uncovered, downloaded);
    forced := singles;
    SinglesAreForced(m, missing, downloaded, uncovered, forced);
    var chosen, stuck;
    chosen, stuck, picks := CoverGreedily(missing, m, downloaded, singles, uncovered);
    if stuck { return InternalError, forced, picks; }
    var q := SortStems(chosen);
    ChoiceIsGood(m, missing, downloaded, uncovered, chosen, q, forced, picks);
    return Covered(q), forced, picks;
  }

  lemma SinglesAreForced(m: PackMap, missing: seq<Oid>, downloaded: set<Stem>, uncovered: set<Oid>, forced: set<Stem>)
    requires uncovered == set o | o in missing
    requires forall s :: s in forced <==> exists o :: o in uncovered && Only(m, downloaded, o, s)
    ensures forall s :: s in forced <==> Forced(m, missing, downloaded, s)
    ensures forall s | s in forced :: Useful(m, missing, downloaded, s)
  {
    forall s ensures s in forced <==> Forced(m, missing, downloaded, s) {
      if o :| o in missing && Only(m, downloaded, o, s) { assert o in uncovered; }
      if o :| o in uncovered && Only(m, downloaded, o, s) { assert o in missing; }
    }
    forall s | s in forced ensures Useful(m, missing, downloaded, s) {
      var o :| o in uncovered && Only(m, downloaded, o, s);
    }
  }

  lemma ChoiceIsGood(m: PackMap, missing: seq<Oid>, downloaded: set<Stem>, uncovered: set<Oid>, chosen: set<Stem>,
                     q: seq<Stem>, forced: set<Stem>, picks: seq<Stem>)
    requires uncovered == set o | o in missing
    requires chosen == Chosen(forced, picks) && Remaining(m, uncovered, chosen) == {}
    requires forall s | s in chosen :: Useful(m, missing, downloaded, s)
    requires forall s :: s in forced <==> Forced(m, missing, downloaded, s)
    requires NoRepeats(m) ==> EachGreedy(m, uncovered, downloaded, forced, picks)
    requires (forall s :: s in q <==> s in chosen) && forall i, j | 0 <= i < j < |q| :: Before(q[i], q[j])
    ensures GoodCover(m, missing, downloaded, q, forced, picks)
  {
    assert Covers(m, chosen, uncovered) by { RemainingCovered(m, uncovered, chosen); }
    SameStems(chosen, q);
  }

  lemma SameStems(chosen: set<Stem>, q: seq<Stem>)
    requires forall s :: s in q <==> s in chosen
    ensures (set s | s in q) == chosen
  {
  }

  // Succeeds exactly when every missing object has a candidate not downloaded
  // yet, and never gets stuck; an error names every object at fault.
  method GreedyCover(missing: seq<Oid>, m: PackMap, downloaded: set<Stem>)
    returns (res: Result, ghost forced: set<Stem>, ghost picks: seq<Stem>)
    ensures !res.InternalError?
    ensures res.Covered? <==> Coverable(m, missing, downloaded)
    ensures res.Covered? ==> GoodCover(m, missing, downloaded, res.stems, forced, picks)
    ensures res.NoCandidate? ==> res.oids == set o | o in missing && Cands(m, o) == []
    ensures res.NoProgress? ==> forall o :: o in res.oids <==> o in missing && !HasFresh(m, downloaded, o)
  {
    var noCandidate, noProgress, uncovered := ScanFrontier(missing, m, downloaded);
    forced, picks := {}, [];
    if noCandidate != {} {
      NoCandidateNotFresh(m, downloaded, noCandidate);
      return NoCandidate(noCandidate), forced, picks;
    }
    assert forall o | o in missing :: o !in noCandidate;
    if noProgress != {} { return NoProgress(noProgress), forced, picks; }
    assert forall o | o in missing :: o !in noProgress;
    assert uncovered == set o | o in missing;
    res, forced, picks := CoverAll(missing, m, downloaded, uncovered);
  }

  lemma NoCandidateNotFresh(m: PackMap, downloaded: set<Stem>, oids: set<Oid>)
    requires forall o | o in oids :: Cands(m, o) == []
    ensures forall o | o in oids :: !HasFresh(m, downloaded, o)
  {
  }
}
