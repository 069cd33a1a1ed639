/** Selective fetch (fetch.go): find what is missing, download packs that the
    map says hold it, verify each before it counts, and heal the map once when
    it turns out to be wrong. */
module Fetch {
  import opened Objects
  import opened Walk
  import opened Cover
  import opened PackMapping

  // The alternate's pack folder; git sees a pack by its index.
  function AltObjects(alt: PackFiles): set<Oid>
  {
    set s, o | s in alt.idxs && s in alt.packs && o in alt.packs[s].objects :: o
  }

  // Nothing unverified is ever in the alternate: an index there lies beside the
  // pack its name promises, and matches it.
  predicate Verified(alt: PackFiles)
  {
    forall s | s in alt.idxs :: s in alt.packs && alt.packs[s].checksum == s && Verifies(alt.packs[s], alt.idxs[s])
  }

  // Whatever wants reach is local or in a complete pair.
  ghost predicate Obtainable(g: Graph, sv: Server, local: set<Oid>, wants: set<Oid>)
  {
    forall o | ReachedFrom(g, wants, o) :: o in local || exists s :: s in ListedStems(sv) && o in sv.packs[s].objects
  }

  datatype Step = Published(refreshed: bool) | Suspect | Fatal

  datatype Outcome = UpToDate | Installed(objects: set<Oid>) | Failed

  // Under a true map every missing object has a pack not downloaded yet.
  lemma TrueMapCoverable(g: Graph, sv: Server, local: set<Oid>, wants: set<Oid>, hidden: set<Oid>,
                         m: PackMap, alt: PackFiles, missing: seq<Oid>)
    requires TrueMap(m, sv) && Obtainable(g, sv, local, wants)
    requires forall s | s in alt.idxs :: s in alt.packs && s in sv.packs && alt.packs[s] == sv.packs[s]
    requires forall o :: o in missing <==> Missing(g, local + AltObjects(alt), hidden, wants, o)
    ensures Coverable(m, missing, alt.idxs.Keys)
  {
    forall o | o in missing ensures HasFresh(m, alt.idxs.Keys, o) {
      MetIsReached(g, local + AltObjects(alt), hidden, wants, o);
      var s :| s in ListedStems(sv) && o in sv.packs[s].objects;
      assert s in Cands(m, o);
      assert s in alt.idxs ==> o in AltObjects(alt);
      assert Fresh(m, alt.idxs.Keys, o, s);
    }
  }

  class Fetcher {
    const g: Graph
    // Whether the remote has its marker.
    const marked: bool
    const mapping: Mapping
    // What git's own store holds.
    var local: set<Oid>
    // Downloads in quarantine, and the folder git reads.
    var incoming: map<Stem, Pack>
    var alt: PackFiles
    var downloaded: set<Stem>

    constructor (g: Graph, marked: bool, mapping: Mapping, local: set<Oid>)
      ensures this.g == g && this.marked == marked && this.mapping == mapping && this.local == local
      ensures incoming == map[] && alt == PackFiles(map[], map[]) && downloaded == {}
    {
      this.g, this.marked, this.mapping, this.local := g, marked, mapping, local;
      incoming, alt, downloaded := map[], PackFiles(map[], map[]), {};
    }

    ghost predicate Steady()
      reads this`alt, this`downloaded
    {
      && Verified(alt)
      && alt.packs.Keys == alt.idxs.Keys == downloaded
      && downloaded <= ListedStems(mapping.server)
      && (!mapping.faulty ==>
        forall s | s in alt.packs :: s in mapping.server.packs && alt.packs[s] == mapping.server.packs[s])
    }

    // Once a pack is published, a map that was true is still true.
    ghost predicate KeepsTrue(step: Step, was: PackMap)
      reads mapping
    {
      !mapping.faulty && Truthful(mapping.server) && TrueMap(was, mapping.server) && step.Published? ==>
        TrueMap(mapping.oidPacks, mapping.server)
    }

    // A download may fail, deliver other bytes, or leave a file that is already
    // there as it is.
    method ReadPack(s: Stem) returns (ok: bool)
      modifies this`incoming
      ensures ok ==> s in incoming
      ensures !mapping.faulty ==> ok == (s in mapping.server.packs)
      ensures !mapping.faulty && ok && s !in old(incoming) ==> incoming[s] == mapping.server.packs[s]
    {
      var failed := mapping.Fails();
      if failed || s !in mapping.server.packs { return false; }
      var skips: bool := *;
      if s in incoming && skips { return true; }
      var garbled := mapping.Fails();
      var other: Pack := *;
      incoming := incoming[s := if garbled then other else mapping.server.packs[s]];
      return true;
    }

    // Download into quarantine, cleared of an earlier copy first, and check the
    // content against the name.
    method Receive(s: Stem) returns (ok: bool)
      modifies this`incoming
      ensures ok ==> s in incoming && incoming[s].checksum == s
      ensures !mapping.faulty && ok ==> s in mapping.server.packs && incoming[s] == mapping.server.packs[s]
      ensures !mapping.faulty && TruePair(mapping.server, s) ==> ok
    {
      incoming := incoming - {s};
      ok := ReadPack(s);
      if ok { ok := incoming[s].checksum == s; }
    }

    // Pack first, index second: the index is what makes git see the pair.
    method PublishPair(s: Stem, p: Pack, ix: Index) returns (ok: bool)
      requires Steady() && s !in downloaded && p.checksum == s && Verifies(p, ix)
      modifies this`alt
      ensures Verified(alt)
      ensures ok ==> alt == PackFiles(old(alt).packs[s := p], old(alt).idxs[s := ix])
      ensures !mapping.faulty ==> ok
    {
      var failed := mapping.Fails();
      if failed { return false; }
      alt := PackFiles(alt.packs[s := p], alt.idxs);
      failed := mapping.Fails();
      if failed { return false; }
      alt := PackFiles(alt.packs, alt.idxs[s := ix]);
      return true;
    }

    // The pair leaves quarantine and counts as downloaded.
    method Publish(s: Stem, p: Pack, ix: Index) returns (ok: bool)
      requires Steady() && s in ListedStems(mapping.server) && s !in downloaded && p.checksum == s && Verifies(p, ix)
      requires !mapping.faulty ==> p == mapping.server.packs[s]
      modifies this`incoming, this`alt, this`downloaded
      ensures Verified(alt)
      ensures ok ==> Steady() && downloaded == old(downloaded) + {s}
      ensures !ok ==> downloaded == old(downloaded)
      ensures !mapping.faulty ==> ok
    {
      ok := PublishPair(s, p, ix);
      if ok {
        incoming := incoming - {s};
        downloaded := downloaded + {s};
      }
    }

    // The index laid beside the pack, or after one fresh download of it. The
    // map is rebuilt when it was downloaded.
    method VerifyPair(s: Stem, p: Pack) returns (step: Step, ix: Index)
      requires mapping.Built() && s in mapping.sidecars && p.checksum == s
      requires (set x | x in mapping.stems) == ListedStems(mapping.server)
      modifies mapping`cache, mapping`fallback, mapping`asked, mapping`sidecars, mapping`oidPacks
      ensures step.Published? ==> Verifies(p, ix) && mapping.Built()
      ensures !step.Suspect?
      ensures step == Published(false) ==> mapping.oidPacks == old(mapping.oidPacks)
      ensures !mapping.faulty && Truthful(mapping.server) && mapping.server.packs[s] == p ==> step.Published?
      ensures KeepsTrue(step, old(mapping.oidPacks))
    {
      ix := IndexOf(mapping.Now(), mapping.sidecars, s);
      if Verifies(p, ix) { return Published(false), ix; }
      assert s in ListedStems(mapping.server);
      assert Truthful(mapping.server) ==> TruePair(mapping.server, s);
      ghost var was, before, sidecars := mapping.oidPacks, mapping.Now(), mapping.sidecars;
      var ok := mapping.RefreshSidecar(s);
      if !ok { return Fatal, ix; }
      mapping.OthersStay(before, sidecars, s);
      mapping.sidecars := mapping.sidecars[s := InFallback];
      assert mapping.sidecars.Keys == sidecars.Keys;
      ok := mapping.Rebuild();
      if !ok { return Fatal, ix; }
      ix := IndexOf(mapping.Now(), mapping.sidecars, s);
      if !mapping.faulty && Truthful(mapping.server) && TrueMap(was, mapping.server) {
        RefreshKeepsTrue(was, before, sidecars, mapping.oidPacks, mapping.Now(), mapping.sidecars, mapping.server, s);
      }
      step := if Verifies(p, ix) then Published(true) else Fatal;
    }

    // Verified in quarantine, and only then moved where git looks.
    method DownloadAndVerify(s: Stem) returns (step: Step)
      requires Steady() && mapping.Built() && s in mapping.sidecars && s !in downloaded
      requires (set x | x in mapping.stems) == ListedStems(mapping.server)
      modifies this`incoming, this`alt, this`downloaded, mapping`cache, mapping`fallback, mapping`asked,
               mapping`sidecars, mapping`oidPacks
      ensures Verified(alt)
      ensures !step.Fatal? ==> Steady() && mapping.Built()
      ensures step.Published? ==> downloaded == old(downloaded) + {s}
      ensures !step.Published? ==> downloaded == old(downloaded)
      ensures step == Published(false) ==> mapping.oidPacks == old(mapping.oidPacks)
      ensures !mapping.faulty && Truthful(mapping.server) ==> step.Published?
      ensures KeepsTrue(step, old(mapping.oidPacks))
    {
      assert s in ListedStems(mapping.server);
      assert Truthful(mapping.server) ==> TruePair(mapping.server, s);
      var ok := Receive(s);
      if !ok { return Suspect; }
      var p := incoming[s];
      var ix;
      step, ix := VerifyPair(s, p);
      if step.Fatal? { return Fatal; }
      ok := Publish(s, p, ix);
      if !ok { return Fatal; }
    }

    // One plan, cut short when the map was rebuilt under it.
    method RunPlan(plan: seq<Stem>) returns (step: Step)
      requires Steady() && mapping.Built() && plan != []
      requires (set x | x in mapping.stems) == ListedStems(mapping.server)
      requires forall s | s in plan :: s in mapping.sidecars && s !in downloaded
      requires forall i, j | 0 <= i < j < |plan| :: plan[i] != plan[j]
      modifies this`incoming, this`alt, this`downloaded, mapping`cache, mapping`fallback, mapping`asked,
               mapping`sidecars, mapping`oidPacks
      ensures Verified(alt) && old(downloaded) <= downloaded
      ensures !step.Fatal? ==> Steady() && mapping.Built()
      ensures step.Published? ==> old(downloaded) < downloaded
      ensures downloaded <= old(downloaded) + set s | s in plan
      ensures step == Published(false) ==>
        mapping.oidPacks == old(mapping.oidPacks) && downloaded == old(downloaded) + set s | s in plan
      ensures !mapping.faulty && Truthful(mapping.server) ==> step.Published?
      ensures KeepsTrue(step, old(mapping.oidPacks))
    {
      ghost var was := downloaded;
      for i := 0 to |plan|
        invariant Steady() && mapping.Built()
        invariant downloaded == was + set s | s in plan[..i]
        invariant mapping.oidPacks == old(mapping.oidPacks)
        invariant !mapping.faulty && Truthful(mapping.server) && old(TrueMap(mapping.oidPacks, mapping.server)) ==>
          TrueMap(mapping.oidPacks, mapping.server)
      {
        assert plan[..i + 1] == plan[..i] + [plan[i]];
        assert plan[i] in plan && plan[i] !in plan[..i];
        step := DownloadAndVerify(plan[i]);
        if !step.Published? { return; }
        assert plan[i] in downloaded && plan[i] !in was;
        if step.refreshed { return; }
      }
      assert plan[..|plan|] == plan && plan[0] in downloaded && plan[0] !in was;
      step := Published(false);
    }

    method Heal() returns (ok: bool)
      modifies mapping`stems, mapping`cache, mapping`fallback, mapping`asked, mapping`sidecars, mapping`oidPacks,
               mapping`refreshes
      ensures mapping.refreshes <= old(mapping.refreshes) + 1
      ensures ok ==> mapping.Built() && (set x | x in mapping.stems) == ListedStems(mapping.server)
      ensures !mapping.faulty && Truthful(mapping.server) && ListedStems(mapping.server) != {} ==>
        ok && TrueMap(mapping.oidPacks, mapping.server)
    {
      ok := mapping.ListPacks();
      if !ok || mapping.stems == [] { return false; }
      ok := mapping.Refresh();
    }

    ghost predicate Benign(wants: set<Oid>)
      reads this`local
    {
      !mapping.faulty && Truthful(mapping.server) && Obtainable(g, mapping.server, local, wants)
    }

    // A pack of use is one the map was built from.
    lemma UsefulIsListed(missing: seq<Oid>, s: Stem)
      requires mapping.Built() && Useful(mapping.oidPacks, missing, downloaded, s)
      ensures s in mapping.sidecars && s !in downloaded
    {
    }

    lemma TipsStay(tips: set<Oid>)
      requires ClosureIn(g, local, tips)
      ensures ClosureIn(g, local + AltObjects(alt), tips)
    {
    }

    // A walk from wants, past what one from tips marks, finds nothing absent.
    ghost predicate NothingMissing(present: set<Oid>, wants: set<Oid>, tips: set<Oid>)
    {
      exists hidden :: Marks(g, present, tips, hidden) && forall o :: !Missing(g, present, hidden, wants, o)
    }

    // Download until nothing is missing. Each round downloads a pack that was
    // not there or spends the one heal.
    method Discover(wants: set<Oid>, tips: set<Oid>) returns (ok: bool)
      requires Steady() && mapping.Built() && ListedStems(mapping.server) != {}
      requires (set x | x in mapping.stems) == ListedStems(mapping.server)
      modifies this`incoming, this`alt, this`downloaded, mapping`stems, mapping`cache, mapping`fallback, mapping`asked,
               mapping`sidecars, mapping`oidPacks, mapping`refreshes
      ensures mapping.refreshes <= old(mapping.refreshes) + 1 && Verified(alt)
      ensures ok ==> NothingMissing(local + AltObjects(alt), wants, tips)
      ensures ok && ClosureIn(g, local, tips) ==> ClosureIn(g, local + AltObjects(alt), wants)
      ensures Benign(wants) ==> ok
    {
      var healed := false;
      while true
        invariant Steady() && mapping.Built() && (set x | x in mapping.stems) == ListedStems(mapping.server)
        invariant mapping.refreshes <= old(mapping.refreshes) + if healed then 1 else 0
        invariant healed && Benign(wants) ==> TrueMap(mapping.oidPacks, mapping.server)
        decreases if healed then 0 else 1, ListedStems(mapping.server) - downloaded
      {
        var _, missing, hidden := RevList(g, local + AltObjects(alt), wants, tips);
        if missing == [] {
          assert NothingMissing(local + AltObjects(alt), wants, tips);
          if ClosureIn(g, local, tips) { TipsStay(tips); }
          return true;
        }
        if healed && Benign(wants) {
          TrueMapCoverable(g, mapping.server, local, wants, hidden, mapping.oidPacks, alt, missing);
        }
        var step := OneRound(missing);
        if step.Fatal? { return false; }
        if step.Suspect? {
          if healed { return false; }
          healed := true;
          var fine := Heal();
          if !fine { return false; }
        }
      }
    }

    // Plan for what is missing, and carry the plan out.
    method OneRound(missing: seq<Oid>) returns (step: Step)
      requires Steady() && mapping.Built() && missing != []
      requires (set x | x in mapping.stems) == ListedStems(mapping.server)
      modifies this`incoming, this`alt, this`downloaded, mapping`cache, mapping`fallback, mapping`asked,
               mapping`sidecars, mapping`oidPacks
      ensures Verified(alt) && old(downloaded) <= downloaded
      ensures !step.Fatal? ==> Steady() && mapping.Built()
      ensures step.Published? ==> old(downloaded) < downloaded
      ensures forall s | s in downloaded && s !in old(downloaded) ::
        Useful(old(mapping.oidPacks), missing, old(downloaded), s)
      ensures !mapping.faulty && Truthful(mapping.server) ==>
        !step.Fatal? && (step.Published? <==> old(Coverable(mapping.oidPacks, missing, downloaded)))
      ensures KeepsTrue(step, old(mapping.oidPacks))
    {
      var cover, forced, picks := GreedyCover(missing, mapping.oidPacks, downloaded);
      if !cover.Covered? { return Suspect; }
      PlanIsUseful(mapping.oidPacks, missing, downloaded, cover.stems, forced, picks);
      forall s | s in cover.stems ensures s in mapping.sidecars && s !in downloaded { UsefulIsListed(missing, s); }
      step := RunPlan(cover.stems);
    }

    // From a remote that tells the truth and holds what is needed, a fetch
    // succeeds whatever the cache holds, and refreshes the map at most once. A
    // fetch that fails, for any reason, leaves the local store as it was.
    method Fetch(wants: set<Oid>, tips: set<Oid>) returns (out: Outcome)
      requires alt == PackFiles(map[], map[]) && downloaded == {} && mapping.fallback == map[]
      modifies this, mapping`stems, mapping`cache, mapping`fallback, mapping`asked, mapping`sidecars, mapping`oidPacks,
               mapping`refreshes
      ensures mapping.refreshes <= old(mapping.refreshes) + 1 && Verified(alt)
      ensures out.Failed? ==> local == old(local)
      ensures out.UpToDate? ==> local == old(local)
      ensures out.Installed? ==> local == old(local) + out.objects
      ensures old(ClosureIn(g, local, tips)) && !out.Failed? ==> ClosureIn(g, local, wants)
      ensures old(ClosureIn(g, local, tips)) && out.Installed? ==>
        forall o :: o in out.objects <==> ReachedFrom(g, wants, o) && !ReachedFrom(g, tips, o)
      ensures marked && old(Benign(wants)) ==> !out.Failed?
      ensures marked && old(ClosureIn(g, local, wants)) ==> out.UpToDate?
      ensures old(ClosureIn(g, local, wants)) ==> downloaded == old(downloaded) && mapping.asked == old(mapping.asked)
    {
      if !marked { return Failed; }
      var _, lacking, hidden := RevList(g, local, wants, tips);
      if lacking == [] { return UpToDate; }
      assert Missing(g, local, hidden, wants, lacking[0]);
      MetIsReached(g, local, hidden, wants, lacking[0]);
      var ok := mapping.ListPacks();
      if !ok { return Failed; }
      if mapping.stems == [] { assert ListedStems(mapping.server) == {}; return Failed; }
      assert mapping.stems[0] in ListedStems(mapping.server);
      mapping.PruneStale();
      ok := mapping.Build();
      if !ok { return Failed; }
      ok := Discover(wants, tips);
      if !ok { return Failed; }
      var objs, _, _ := RevList(g, local + AltObjects(alt), wants, tips);
      if ClosureIn(g, local, tips) {
        TipsStay(tips);
        forall o | ReachedFrom(g, wants, o) ensures o in local + objs { assert o in objs || ReachedFrom(g, tips, o); }
      }
      if objs == {} { return UpToDate; }
      local := local + objs;
      return Installed(objs);
    }
  }

  // The packs folder a push leaves is one this fetch can serve from.
  function Serving(f: PackFiles): Server
  {
    Server(f.packs, map s | s in f.idxs :: Side(f.idxs[s]))
  }

  // What pushes keep, every tip's closure in sound pairs, is what a fetch needs.
  lemma PushedIsObtainable(g: Graph, f: PackFiles, local: set<Oid>, tips: set<Oid>)
    requires forall a | a in tips :: ClosureHeld(g, f, a)
    ensures Obtainable(g, Serving(f), local, tips)
  {
    forall o | ReachedFrom(g, tips, o)
      ensures exists s :: s in ListedStems(Serving(f)) && o in Serving(f).packs[s].objects
    {
      var a :| a in tips && Reaches(g, a, o);
      assert Held(f, o);
      var s :| Sound(f, s) && o in f.packs[s].objects;
      assert s in ListedStems(Serving(f));
    }
  }

  // Refreshing one index of a map that tells the truth leaves it true.
  lemma RefreshKeepsTrue(m: PackMap, c: Copies, sidecars: map<Stem, Place>, m': PackMap, c': Copies,
                         sidecars': map<Stem, Place>, sv: Server, s: Stem)
    requires AllReadable(c, sidecars) && Fits(m, c, sidecars) && TrueMap(m, sv) && Truthful(sv)
    requires s in sidecars && sidecars' == sidecars[s := InFallback] && sidecars.Keys == ListedStems(sv)
    requires AllReadable(c', sidecars') && Fits(m', c', sidecars')
    requires s in c'.fallback && s in sv.idxs && c'.fallback[s] == sv.idxs[s]
    requires forall x | x in sidecars && x != s :: BytesAt(c', sidecars[x], x) == BytesAt(c, sidecars[x], x)
    ensures TrueMap(m', sv)
  {
    assert s in ListedStems(sv) && TruePair(sv, s);
    forall o, x ensures x in Cands(m', o) <==> Listed(sv, x) && o in sv.packs[x].objects {
      assert x in sidecars <==> x in ListedStems(sv);
      assert x in Cands(m', o) <==> x in sidecars' && o in IndexOf(c', sidecars', x).oids;
      if x == s {
        assert IndexOf(c', sidecars', s) == sv.idxs[s].ix;
      } else if x in sidecars {
        assert BytesAt(c', sidecars'[x], x) == BytesAt(c, sidecars[x], x);
        assert x in Cands(m, o) <==> o in IndexOf(c, sidecars, x).oids;
      }
    }
  }
}
