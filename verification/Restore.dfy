/** From pushes to a fetch: what any history of pushes leaves can be fetched,
    whatever the fetching machine's index cache holds. */
module Restore {
  import opened Names
  import opened Wrappers
  import opened Keys
  import opened Batch
  import opened Remote
  import opened Refs
  import opened Objects
  import opened Walk
  import opened Packs
  import opened PackMapping
  import Fetch
  import History

  // Packs that are what they say serve a fetch truthfully.
  lemma TruePacksServe(f: PackFiles)
    requires TruePacks(f)
    ensures Truthful(Fetch.Serving(f))
  {
  }

  // The tips a scan advertises.
  function Tips(refs: map<Name, Sha>): set<Oid>
  {
    set n | n in refs :: refs[n]
  }

  lemma TipsObtainable(rules: Rules, g: Graph, a: History.State, s: Scan, wants: set<Oid>, local: set<Oid>)
    requires History.AllClosed(rules, g, a) && IsScan(rules, a.t, s) && wants <= Tips(s.refs)
    ensures Fetch.Obtainable(g, Fetch.Serving(a.f), local, wants)
  {
    forall w | w in wants ensures ClosureHeld(g, a.f, w) {
      var n :| n in s.refs && s.refs[n] == w;
      assert History.Listed(rules, a.t, n);
    }
    Fetch.PushedIsObtainable(g, a.f, local, wants);
  }

  // Pushes of any kind and with any failures, then a scan, then a fetch of any
  // of the tips it shows over a transport that works: the fetch succeeds, and
  // everything the tips reach is then local.
  method PushesThenFetch(r: Store, pf: PackFolder, k: Keys, rules: Rules, g: Graph, inputs: seq<History.Input>,
                         cache: map<Stem, Side>, useCache: bool, local: set<Oid>, tips: set<Oid>)
    returns (scan: Option<Scan>, out: Fetch.Outcome, got: set<Oid>)
    requires WellFormed(r.T()) && Split(k) && !rules.compOk([]) && Clean(rules, REFS)
    requires forall i | 0 <= i < |inputs| :: PacksDifference(g, inputs[i].packer)
    requires History.AllClosed(rules, g, History.Now(r, pf)) && TruePacks(pf.F())
    requires ClosureIn(g, local, tips)
    modifies r`files, r`dirs, r`listed, pf
    ensures !r.faulty ==> scan.Some?
    ensures scan.Some? ==> IsScan(rules, r.T(), scan.value) && !out.Failed? && ClosureIn(g, got, Tips(scan.value.refs))
    ensures local <= got
  {
    var past := History.RunPushes(r, pf, k, rules, g, inputs);
    ghost var a := History.Now(r, pf);
    out, got := Fetch.Failed, local;
    scan := ScanRefs(r, rules);
    if scan.None? { return; }
    assert r.T() == a.t;
    var wants := Tips(scan.value.refs);
    TipsObtainable(rules, g, a, scan.value, wants, local);
    TruePacksServe(a.f);
    out, got := FetchFrom(g, Fetch.Serving(pf.F()), cache, useCache, local, wants, tips);
  }

  // A fetch by a machine with its own store and cache.
  method FetchFrom(g: Graph, sv: Server, cache: map<Stem, Side>, useCache: bool, local: set<Oid>, wants: set<Oid>,
                   tips: set<Oid>)
    returns (out: Fetch.Outcome, got: set<Oid>)
    requires Truthful(sv) && Fetch.Obtainable(g, sv, local, wants) && ClosureIn(g, local, tips)
    ensures !out.Failed? && local <= got && ClosureIn(g, got, wants)
  {
    var mapping := new Mapping(sv, false, useCache, cache);
    var fetcher := new Fetch.Fetcher(g, true, mapping, local);
    out := fetcher.Fetch(wants, tips);
    got := fetcher.local;
  }
}
