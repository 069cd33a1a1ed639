/** The object-to-pack map of one fetch and the index files it is read from
    (packmap.go, idxcache.go). The cache directory outlives a fetch, so at the
    start its content is arbitrary: stale, lying or not an index at all. */
module PackMapping {
  import opened Wrappers
  import opened Objects
  import opened Cover

  // What a file named like an index holds.
  datatype Side = Garbage | Side(ix: Index)

  // The packs folder of the remote, which does not change during a fetch.
  datatype Server = Server(packs: map<Stem, Pack>, idxs: map<Stem, Side>)

  predicate Listed(sv: Server, s: Stem)
  {
    s in sv.packs && s in sv.idxs
  }

  function ListedStems(sv: Server): (q: set<Stem>)
  {
    set s | s in sv.packs && s in sv.idxs
  }

  // The pair is what its name says and its index matches.
  predicate TruePair(sv: Server, s: Stem)
  {
    Listed(sv, s) && sv.packs[s].checksum == s && sv.idxs[s].Side? && Verifies(sv.packs[s], sv.idxs[s].ix)
  }

  predicate Truthful(sv: Server)
  {
    forall s | s in sv.packs && s in sv.idxs :: TruePair(sv, s)
  }

  // Which copy of an index file a map entry was read from.
  datatype Place = InCache | InFallback

  datatype Copies = Copies(cache: map<Stem, Side>, fallback: map<Stem, Side>)

  function BytesAt(c: Copies, p: Place, s: Stem): Option<Side>
  {
    match p
    case InCache => if s in c.cache then Some(c.cache[s]) else None
    case InFallback => if s in c.fallback then Some(c.fallback[s]) else None
  }

  predicate Readable(c: Copies, p: Place, s: Stem)
  {
    BytesAt(c, p, s).Some? && BytesAt(c, p, s).value.Side?
  }

  predicate AllReadable(c: Copies, sidecars: map<Stem, Place>)
  {
    forall s | s in sidecars :: Readable(c, sidecars[s], s)
  }

  function IndexOf(c: Copies, sidecars: map<Stem, Place>, s: Stem): Index
    requires s in sidecars && Readable(c, sidecars[s], s)
  {
    BytesAt(c, sidecars[s], s).value.ix
  }

  // The map says exactly what the indexes list.
  ghost predicate Fits(m: PackMap, c: Copies, sidecars: map<Stem, Place>)
    requires AllReadable(c, sidecars)
  {
    forall o, s :: s in Cands(m, o) <==> s in sidecars && o in IndexOf(c, sidecars, s).oids
  }

  // The map says exactly what the remote's packs hold.
  ghost predicate TrueMap(m: PackMap, sv: Server)
  {
    forall o, s :: s in Cands(m, o) <==> Listed(sv, s) && o in sv.packs[s].objects
  }

  // Every entry is read from a copy of the remote's own index.
  predicate TrueCopies(c: Copies, sidecars: map<Stem, Place>, sv: Server)
  {
    forall s | s in sidecars :: s in sv.idxs && BytesAt(c, sidecars[s], s) == Some(sv.idxs[s])
  }

  lemma TrueCopiesTrueMap(m: PackMap, c: Copies, sidecars: map<Stem, Place>, sv: Server)
    requires AllReadable(c, sidecars) && Fits(m, c, sidecars)
    requires TrueCopies(c, sidecars, sv) && Truthful(sv) && sidecars.Keys == ListedStems(sv)
    ensures TrueMap(m, sv)
  {
    forall o, s ensures s in Cands(m, o) <==> Listed(sv, s) && o in sv.packs[s].objects {
      if s in sidecars {
        assert TruePair(sv, s);
        assert IndexOf(c, sidecars, s) == sv.idxs[s].ix;
      }
    }
  }

  method AddIndex(m: PackMap, s: Stem, oids: seq<Oid>) returns (m': PackMap)
    ensures forall o, x :: x in Cands(m', o) <==> x in Cands(m, o) || (x == s && o in oids)
  {
    m' := m;
    for i := 0 to |oids|
      invariant forall o, x :: x in Cands(m', o) <==> x in Cands(m, o) || (x == s && o in oids[..i])
    {
      assert oids[..i + 1] == oids[..i] + [oids[i]];
      m' := m'[oids[i] := Cands(m', oids[i]) + [s]];
    }
    assert oids[..|oids|] == oids;
  }

  class Mapping {
    const server: Server
    // Whether transport calls can go wrong, and whether a cache can be used.
    const faulty: bool
    const useCache: bool
    var cache: map<Stem, Side>
    var fallback: map<Stem, Side>
    var stems: seq<Stem>
    var sidecars: map<Stem, Place>
    var oidPacks: PackMap
    // How often the whole map was refreshed.
    ghost var refreshes: nat
    // Every index file a download was tried of, oldest first.
    ghost var asked: seq<Stem>

    constructor (server: Server, faulty: bool, useCache: bool, cache: map<Stem, Side>)
      ensures this.server == server && this.faulty == faulty && this.useCache == useCache && this.cache == cache
      ensures fallback == map[] && refreshes == 0
    {
      this.server, this.faulty, this.useCache, this.cache := server, faulty, useCache, cache;
      fallback, stems, sidecars, oidPacks, refreshes, asked := map[], [], map[], map[], 0, [];
    }

    function Now(): Copies
      reads this`cache, this`fallback
    {
      Copies(cache, fallback)
    }

    // The map is complete and says what its readable indexes say.
    ghost predicate Built()
      reads this`cache, this`fallback, this`asked, this`sidecars, this`oidPacks
    {
      && sidecars.Keys == ListedStems(server)
      && AllReadable(Now(), sidecars)
      && Fits(oidPacks, Now(), sidecars)
    }

    method Fails() returns (b: bool)
      ensures b ==> faulty
    {
      b := *;
      b := b && faulty;
    }

    // A download may deliver other bytes than the remote holds, and may leave a
    // file that is already there as it is.
    method DownloadSidecar(s: Stem) returns (ok: bool)
      modifies this`fallback, this`asked
      ensures fallback - {s} == old(fallback - {s}) && asked == old(asked) + [s]
      ensures ok ==> s in fallback
      ensures !faulty ==> ok == (s in server.idxs)
      ensures !faulty && ok && s !in old(fallback) ==> fallback[s] == server.idxs[s]
    {
      asked := asked + [s];
      var failed := Fails();
      if failed || s !in server.idxs { return false; }
      var skips: bool := *;
      if s in fallback && skips { return true; }
      var garbled := Fails();
      var other: Side := *;
      fallback := fallback[s := if garbled then other else server.idxs[s]];
      return true;
    }

    // Best effort: the cache may keep what it had.
    method InstallIntoCache(s: Stem)
      requires s in fallback
      modifies this`cache
      ensures cache == old(cache) || cache == old(cache)[s := fallback[s]]
      ensures !useCache ==> cache == old(cache)
    {
      var works: bool := *;
      if useCache && works { cache := cache[s := fallback[s]]; }
    }

    method EnsureSidecar(s: Stem) returns (ok: bool, place: Place)
      modifies this`cache, this`fallback, this`asked
      ensures cache - {s} == old(cache - {s}) && fallback - {s} == old(fallback - {s})
      ensures ok ==> BytesAt(Now(), place, s).Some? && (place == InCache <==> useCache && s in old(cache))
      ensures ok && place == InCache ==> cache == old(cache) && fallback == old(fallback)
      ensures asked == old(asked) + if useCache && s in old(cache) then [] else [s]
      ensures useCache && s in old(cache) ==> ok && place == InCache
      ensures !faulty && s in server.idxs ==> ok
      ensures !faulty && ok && place == InFallback && s !in old(fallback) ==>
        s in server.idxs && fallback[s] == server.idxs[s]
    {
      if useCache && s in cache { return true, InCache; }
      ok := DownloadSidecar(s);
      if ok { InstallIntoCache(s); }
      return ok, InFallback;
    }

    method RefreshSidecar(s: Stem) returns (ok: bool)
      modifies this`cache, this`fallback, this`asked
      ensures cache - {s} == old(cache - {s}) && fallback - {s} == old(fallback - {s})
      ensures asked == old(asked) + [s]
      ensures ok ==> s in fallback
      ensures !faulty && s in server.idxs ==> ok
      ensures !faulty && ok ==> s in server.idxs && fallback[s] == server.idxs[s]
    {
      fallback := fallback - {s};
      var evicts: bool := *;
      if useCache && evicts { cache := cache - {s}; }
      ok := DownloadSidecar(s);
      if ok { InstallIntoCache(s); }
    }

    // The whole map anew; one unreadable index file spoils it.
    method Rebuild() returns (ok: bool)
      requires sidecars.Keys == set s | s in stems
      modifies this`oidPacks
      ensures ok <==> AllReadable(Now(), sidecars)
      ensures ok ==> Fits(oidPacks, Now(), sidecars)
    {
      oidPacks := map[];
      for i := 0 to |stems|
        invariant forall s | s in stems[..i] :: Readable(Now(), sidecars[s], s)
        invariant forall o, s :: s in Cands(oidPacks, o) <==>
          s in stems[..i] && o in IndexOf(Now(), sidecars, s).oids
      {
        var s := stems[i];
        assert s in sidecars && stems[..i + 1] == stems[..i] + [s];
        if !Readable(Now(), sidecars[s], s) { return false; }
        oidPacks := AddIndex(oidPacks, s, IndexOf(Now(), sidecars, s).oids);
      }
      assert stems[..|stems|] == stems;
      return true;
    }

    method ListPacks() returns (ok: bool)
      modifies this`stems
      ensures ok ==> (set s | s in stems) == ListedStems(server)
      ensures ok ==> forall i, j | 0 <= i < j < |stems| :: stems[i] != stems[j]
      ensures !faulty ==> ok
    {
      var failed := Fails();
      if failed { return false; }
      stems := SortStems(ListedStems(server));
      forall i, j | 0 <= i < j < |stems| ensures stems[i] != stems[j] { BeforeTotal(stems[i], stems[j]); }
      return true;
    }

    // Cached indexes of packs that are gone are dropped, as far as that works.
    method PruneStale()
      modifies this`cache
      ensures forall s | s in cache :: s in old(cache) && cache[s] == old(cache)[s]
      ensures forall s | s in old(cache) && s in stems :: s in cache
    {
      var works: set<Stem> := *;
      if useCache { cache := cache - set s | s in cache && s !in stems && s in works; }
    }

    // The cache has a copy that can be read.
    predicate Cached(cache: map<Stem, Side>, s: Stem)
    {
      useCache && s in cache && cache[s].Side?
    }

    // The stems of q that have none, in order.
    ghost function Lacking(cache: map<Stem, Side>, q: seq<Stem>): seq<Stem>
    {
      if q == [] then []
      else Lacking(cache, q[..|q| - 1]) + if Cached(cache, q[|q| - 1]) then [] else [q[|q| - 1]]
    }

    // Exactly the others are lacking.
    lemma LackingIff(cache: map<Stem, Side>, q: seq<Stem>, s: Stem)
      ensures s in Lacking(cache, q) <==> s in q && !(useCache && s in cache && cache[s].Side?)
    {
      if q != [] {
        LackingIff(cache, q[..|q| - 1], s);
        assert q == q[..|q| - 1] + [q[|q| - 1]];
      }
    }

    ghost predicate Settled(done: set<Stem>)
      reads this`cache, this`fallback, this`sidecars
    {
      && sidecars.Keys == done
      && fallback.Keys <= done
      && (forall s | s in sidecars :: BytesAt(Now(), sidecars[s], s).Some?)
      && (!faulty && Truthful(server) ==> AllReadable(Now(), sidecars))
    }

    // A cached index that is no index is downloaded again; a cached lie passes.
    method PlaceSidecar(s: Stem) returns (ok: bool, place: Place)
      requires Listed(server, s)
      modifies this`cache, this`fallback, this`asked
      ensures cache - {s} == old(cache - {s}) && fallback - {s} == old(fallback - {s})
      ensures asked == old(asked) + if Cached(old(cache), s) then [] else [s]
      ensures ok ==> BytesAt(Now(), place, s).Some?
      ensures !faulty ==> ok
      ensures !faulty && Truthful(server) && s !in old(fallback) ==> Readable(Now(), place, s)
    {
      assert Truthful(server) ==> TruePair(server, s);
      ok, place := EnsureSidecar(s);
      assert ok && place == InCache ==> asked == old(asked);
      if ok && place == InCache && !Readable(Now(), place, s) {
        ok := RefreshSidecar(s);
        place := InFallback;
      }
    }

    lemma OthersStay(before: Copies, sidecars': map<Stem, Place>, s: Stem)
      requires cache - {s} == before.cache - {s} && fallback - {s} == before.fallback - {s}
      ensures forall x | x in sidecars' && x != s :: BytesAt(Now(), sidecars'[x], x) == BytesAt(before, sidecars'[x], x)
    {
      forall x | x in sidecars' && x != s
        ensures BytesAt(Now(), sidecars'[x], x) == BytesAt(before, sidecars'[x], x)
      {
        assert x in cache <==> x in cache - {s};
        assert x in before.cache <==> x in before.cache - {s};
        assert x in fallback <==> x in fallback - {s};
        assert x in before.fallback <==> x in before.fallback - {s};
        if x in cache { assert cache[x] == (cache - {s})[x] == (before.cache - {s})[x]; }
        if x in fallback { assert fallback[x] == (fallback - {s})[x] == (before.fallback - {s})[x]; }
      }
    }

    lemma LackingNext(cache: map<Stem, Side>, q: seq<Stem>, s: Stem)
      ensures Lacking(cache, q + [s]) == Lacking(cache, q) + if Cached(cache, s) then [] else [s]
    {
      assert (q + [s])[..|q|] == q;
    }

    // What building has done once it is past the stems of q.
    ghost predicate BuiltTo(q: seq<Stem>, cache0: map<Stem, Side>, asked0: seq<Stem>)
      reads this`cache, this`fallback, this`sidecars, this`asked
    {
      && Settled(set s | s in q) && asked == asked0 + Lacking(cache0, q)
      && forall s | s !in q :: Cached(cache, s) <==> Cached(cache0, s)
    }

    method PlaceOne(ghost done: set<Stem>, s: Stem) returns (ok: bool)
      requires Settled(done) && Listed(server, s) && s !in done
      modifies this`cache, this`fallback, this`asked, this`sidecars
      ensures cache - {s} == old(cache - {s})
      ensures asked == old(asked) + if Cached(old(cache), s) then [] else [s]
      ensures ok ==> Settled(done + {s})
      ensures !faulty && Truthful(server) ==> ok
    {
      ghost var before := Now();
      var place;
      ok, place := PlaceSidecar(s);
      if !ok { return false; }
      OthersStay(before, sidecars, s);
      OnlyOneMore(before.fallback, fallback, s);
      sidecars := sidecars[s := place];
    }

    method PlaceNext(ghost q: seq<Stem>, s: Stem, ghost cache0: map<Stem, Side>, ghost asked0: seq<Stem>)
      returns (ok: bool)
      requires BuiltTo(q, cache0, asked0) && Listed(server, s) && s !in q
      modifies this`cache, this`fallback, this`asked, this`sidecars
      ensures ok ==> BuiltTo(q + [s], cache0, asked0)
      ensures !faulty && Truthful(server) ==> ok
    {
      LackingNext(cache0, q, s);
      ok := PlaceOne((set x | x in q), s);
      OthersCached(old(cache), cache, s);
      assert (set x | x in q + [s]) == (set x | x in q) + {s};
    }

    // The fallback folder is new with every fetch. Downloads are tried of exactly
    // the index files the cache has no readable copy of.
    method Build() returns (ok: bool)
      requires fallback == map[]
      requires (set s | s in stems) == ListedStems(server)
      requires forall i, j | 0 <= i < j < |stems| :: stems[i] != stems[j]
      modifies this`cache, this`fallback, this`asked, this`sidecars, this`oidPacks
      ensures ok ==> Built()
      ensures ok ==> asked == old(asked) + Lacking(old(cache), stems)
      ensures !faulty && Truthful(server) ==> ok
    {
      sidecars := map[];
      for i := 0 to |stems|
        invariant BuiltTo(stems[..i], old(cache), old(asked))
      {
        assert stems[..i + 1] == stems[..i] + [stems[i]] && stems[i] in ListedStems(server);
        var fine := PlaceNext(stems[..i], stems[i], old(cache), old(asked));
        if !fine { return false; }
      }
      assert stems[..|stems|] == stems;
      ok := Rebuild();
    }

    lemma OthersCached(before: map<Stem, Side>, after: map<Stem, Side>, s: Stem)
      requires after - {s} == before - {s}
      ensures forall x | x != s :: Cached(after, x) <==> Cached(before, x)
    {
      forall x | x != s ensures Cached(after, x) <==> Cached(before, x) {
        assert x in after <==> x in after - {s};
        assert x in before <==> x in before - {s};
        if x in after { assert after[x] == (after - {s})[x] == (before - {s})[x] == before[x]; }
      }
    }

    // The self-heal round's map: every index downloaded afresh.
    method Refresh() returns (ok: bool)
      requires (set s | s in stems) == ListedStems(server)
      requires forall i, j | 0 <= i < j < |stems| :: stems[i] != stems[j]
      modifies this`cache, this`fallback, this`asked, this`sidecars, this`oidPacks, this`refreshes
      ensures refreshes == old(refreshes) + 1
      ensures ok ==> Built() && asked == old(asked) + stems
      ensures !faulty && Truthful(server) ==> ok && TrueMap(oidPacks, server)
    {
      refreshes := refreshes + 1;
      sidecars := map[];
      for i := 0 to |stems|
        invariant sidecars.Keys == set s | s in stems[..i]
        invariant asked == old(asked) + stems[..i]
        invariant forall s | s in sidecars :: sidecars[s] == InFallback
        invariant !faulty ==> TrueCopies(Now(), sidecars, server)
        invariant refreshes == old(refreshes) + 1
      {
        var s := stems[i];
        assert stems[..i + 1] == stems[..i] + [s] && s in ListedStems(server);
        assert s !in sidecars;
        ghost var before := Now();
        var fine := RefreshSidecar(s);
        if !fine { return false; }
        OthersStay(before, sidecars, s);
        sidecars := sidecars[s := InFallback];
      }
      assert stems[..|stems|] == stems;
      if !faulty && Truthful(server) { TrueCopiesReadable(Now(), sidecars, server); }
      ok := Rebuild();
      if !faulty && Truthful(server) { TrueCopiesTrueMap(oidPacks, Now(), sidecars, server); }
    }
  }

  lemma OnlyOneMore(before: map<Stem, Side>, after: map<Stem, Side>, s: Stem)
    requires after - {s} == before - {s}
    ensures after.Keys <= before.Keys + {s}
  {
    forall x | x in after && x != s ensures x in before { assert x in after - {s}; }
  }

  lemma TrueCopiesReadable(c: Copies, sidecars: map<Stem, Place>, sv: Server)
    requires TrueCopies(c, sidecars, sv) && Truthful(sv) && sidecars.Keys <= ListedStems(sv)
    ensures AllReadable(c, sidecars)
  {
    forall s | s in sidecars ensures Readable(c, sidecars[s], s) {
      assert s in ListedStems(sv) && TruePair(sv, s);
    }
  }
}
