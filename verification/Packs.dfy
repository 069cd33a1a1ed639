/** Phase 3 of a push: one pack for the whole batch, uploaded and confirmed
    before any ref is written (push.go, phase 3, publishPack, publishIdx). */
module Packs {
  import opened Names
  import opened Objects
  import opened Batch
  import opened Remote

  class PackFolder {
    const faulty: bool
    var packs: map<Stem, Pack>
    var idxs: map<Stem, Index>
    // The folder after each upload, oldest first.
    ghost var past: seq<PackFiles>

    constructor (faulty: bool, f: PackFiles)
      ensures this.faulty == faulty && F() == f && past == []
    {
      this.faulty := faulty;
      packs, idxs, past := f.packs, f.idxs, [];
    }

    function F(): PackFiles
      reads this`packs, this`idxs
    {
      PackFiles(packs, idxs)
    }

    method UploadPack(s: Stem, p: Pack) returns (out: Outcome, err: bool)
      modifies this`packs, this`past
      ensures past == old(past) + [F()]
      ensures packs == old(packs) || (s !in old(packs) && packs == old(packs)[s := p])
      ensures out == Committed && !err ==> s !in old(packs) && packs == old(packs)[s := p]
      ensures out == Refusal && !err ==> packs == old(packs) && s in packs
      ensures !faulty ==> !err && out == if s in old(packs) then Refusal else Committed
    {
      var g, landed, e: bool := *, *, *;
      var lost, taken := faulty && g, s in packs;
      if !taken && (landed || !lost) { packs := packs[s := p]; }
      past := past + [F()];
      if lost && (!taken || !landed) { return Ambiguous, e; }
      return (if taken then Refusal else Committed), false;
    }

    method UploadIdx(s: Stem, ix: Index) returns (out: Outcome, err: bool)
      modifies this`idxs, this`past
      ensures past == old(past) + [F()]
      ensures idxs == old(idxs) || (s !in old(idxs) && idxs == old(idxs)[s := ix])
      ensures out == Committed && !err ==> s !in old(idxs) && idxs == old(idxs)[s := ix]
      ensures out == Refusal && !err ==> idxs == old(idxs) && s in idxs
      ensures !faulty ==> !err && out == if s in old(idxs) then Refusal else Committed
    {
      var g, landed, e: bool := *, *, *;
      var lost, taken := faulty && g, s in idxs;
      if !taken && (landed || !lost) { idxs := idxs[s := ix]; }
      past := past + [F()];
      if lost && (!taken || !landed) { return Ambiguous, e; }
      return (if taken then Refusal else Committed), false;
    }

    // Whether a call of the faulty transport goes wrong.
    method Fails() returns (b: bool)
      ensures b ==> faulty
    {
      b := *;
      b := b && faulty;
    }

    // A name taken proves nothing about the bytes, so they are compared.
    method PublishPack(s: Stem, local: Pack) returns (ok: bool)
      modifies this`packs, this`past
      ensures OnlyAdds(old(F()), F())
      ensures old(TruePacks(F())) && local.checksum == s ==> TruePacks(F()) && TrueCuts(old(past), past)
      ensures ok ==> s in packs && packs[s] == local
      ensures !faulty && (s in old(packs) ==> old(packs)[s] == local && local.checksum == s) ==> ok
    {
      var out, err := UploadPack(s, local);
      if err || out == Ambiguous { return false; }
      var failed := Fails();
      if failed { return false; }
      if out == Committed { return s in packs; }
      return packs[s] == local && packs[s].checksum == s;
    }

    // An index with the name already there must index this very pack.
    method PublishIdx(s: Stem, local: Index, pack: Pack) returns (ok: bool)
      modifies this`idxs, this`past
      ensures OnlyAdds(old(F()), F())
      ensures old(TruePacks(F())) && s in packs && packs[s] == pack && Verifies(pack, local) ==>
        TruePacks(F()) && TrueCuts(old(past), past)
      ensures ok && Verifies(pack, local) ==> s in idxs && Verifies(pack, idxs[s])
      ensures !faulty && (s in old(idxs) ==> Verifies(pack, old(idxs)[s])) ==> ok
    {
      var out, err := UploadIdx(s, local);
      if err || out == Ambiguous { return false; }
      var failed := Fails();
      if failed { return false; }
      if out == Committed { return s in idxs; }
      return Verifies(pack, idxs[s]);
    }
  }

  // ---- phase 3

  function Wants(items: seq<Item>): set<Oid>
  {
    set i | 0 <= i < |items| && items[i].ValidWrite() :: items[i].sha
  }

  // The advertised tips this repository has.
  function Haves(c: Context): set<Oid>
  {
    set n | n in c.remote && c.git.has(c.remote[n]) :: c.remote[n]
  }

  // A failed pack fails every write; deletes go on.
  function FailWrites(items: seq<Item>): (items': seq<Item>)
    ensures |items'| == |items|
    ensures forall i | 0 <= i < |items| ::
      items'[i] == if items[i].ValidWrite() then items[i].Refuse(PackFailed) else items[i]
  {
    seq(|items|, i requires 0 <= i < |items| => if items[i].ValidWrite() then items[i].Refuse(PackFailed) else items[i])
  }

  // Every advertised ref's objects are all in sound pairs.
  ghost predicate RemoteClosed(g: Graph, f: PackFiles, remote: map<Name, Sha>)
  {
    forall n | n in remote :: ClosureHeld(g, f, remote[n])
  }

  // Every object of every write still valid is in sound pairs.
  ghost predicate WritesClosed(g: Graph, f: PackFiles, items: seq<Item>)
  {
    forall i | 0 <= i < |items| && items[i].ValidWrite() :: ClosureHeld(g, f, items[i].sha)
  }

  lemma NewTipClosed(g: Graph, f: PackFiles, c: Context, items: seq<Item>, i: nat)
    requires RemoteClosed(g, f, c.remote) && i < |items| && items[i].ValidWrite()
    requires forall o | ReachedFrom(g, Wants(items), o) && !ReachedFrom(g, Haves(c), o) :: Held(f, o)
    ensures ClosureHeld(g, f, items[i].sha)
  {
    forall o | Reaches(g, items[i].sha, o) ensures Held(f, o) {
      assert items[i].sha in Wants(items) && ReachedFrom(g, Wants(items), o);
      if ReachedFrom(g, Haves(c), o) {
        var h :| h in Haves(c) && Reaches(g, h, o);
        var n :| n in c.remote && c.remote[n] == h;
        assert ClosureHeld(g, f, c.remote[n]);
      }
    }
  }

  // What is sent: of all a write still valid needs, exactly what no advertised
  // ref that this repository has brings already.
  lemma SentIsTheDifference(g: Graph, packer: (set<Oid>, set<Oid>) -> PackResult, c: Context, items: seq<Item>, o: Oid)
    requires PacksDifference(g, packer) && packer(Wants(items), Haves(c)).Packed?
    ensures o in packer(Wants(items), Haves(c)).pack.objects <==>
      && (exists i :: 0 <= i < |items| && items[i].v.Valid? && !items[i].del && Reaches(g, items[i].sha, o))
      && !exists n :: n in c.remote && c.git.has(c.remote[n]) && Reaches(g, c.remote[n], o)
  {
    if ReachedFrom(g, Wants(items), o) {
      var a :| a in Wants(items) && Reaches(g, a, o);
      var i :| 0 <= i < |items| && items[i].ValidWrite() && items[i].sha == a;
    }
    if i :| 0 <= i < |items| && items[i].v.Valid? && !items[i].del && Reaches(g, items[i].sha, o) {
      assert items[i].sha in Wants(items);
    }
    if ReachedFrom(g, Haves(c), o) {
      var a :| a in Haves(c) && Reaches(g, a, o);
      var n :| n in c.remote && c.git.has(c.remote[n]) && c.remote[n] == a;
    }
    if n :| n in c.remote && c.git.has(c.remote[n]) && Reaches(g, c.remote[n], o) { assert c.remote[n] in Haves(c); }
  }

  // git built what was asked, and what is already stored under its name is it.
  ghost predicate PackGoes(f: PackFiles, r: PackResult)
  {
    && !r.PackError?
    && (r.Packed? ==> (r.stem in f.packs ==> f.packs[r.stem] == r.pack && r.pack.checksum == r.stem)
                      && (r.stem in f.idxs ==> Verifies(r.pack, f.idxs[r.stem])))
  }

  method SendPack(pf: PackFolder, g: Graph, packer: (set<Oid>, set<Oid>) -> PackResult, c: Context, items: seq<Item>)
    returns (items': seq<Item>)
    requires PacksDifference(g, packer)
    modifies pf
    ensures OnlyAdds(old(pf.F()), pf.F())
    ensures old(TruePacks(pf.F())) ==> TruePacks(pf.F()) && TrueCuts(old(pf.past), pf.past)
    ensures items' == items || items' == FailWrites(items)
    ensures old(RemoteClosed(g, pf.F(), c.remote)) ==> WritesClosed(g, pf.F(), items')
    ensures !pf.faulty && PackGoes(old(pf.F()), packer(Wants(items), Haves(c))) ==> items' == items
  {
    ghost var before := pf.F();
    if Wants(items) == {} {
      NothingWanted(items);
      return items;
    }
    var r := packer(Wants(items), Haves(c));
    match r {
      case PackError => return FailWrites(items);
      case NothingToSend =>
        items' := items;
      case Packed(stem, pack, idx) =>
        var ok := pf.PublishPack(stem, pack);
        if !ok { return FailWrites(items); }
        ok := pf.PublishIdx(stem, idx, pack);
        if !ok { return FailWrites(items); }
        assert Sound(pf.F(), stem);
        items' := items;
    }
    if RemoteClosed(g, before, c.remote) {
      StillClosed(g, before, pf.F(), c.remote);
      NewTipsClosed(g, pf.F(), c, items);
    }
  }

  lemma NewTipsClosed(g: Graph, f: PackFiles, c: Context, items: seq<Item>)
    requires RemoteClosed(g, f, c.remote)
    requires forall o | ReachedFrom(g, Wants(items), o) && !ReachedFrom(g, Haves(c), o) :: Held(f, o)
    ensures WritesClosed(g, f, items)
  {
    forall i | 0 <= i < |items| && items[i].ValidWrite() ensures ClosureHeld(g, f, items[i].sha) {
      NewTipClosed(g, f, c, items, i);
    }
  }

  lemma NothingWanted(items: seq<Item>)
    requires Wants(items) == {}
    ensures forall i | 0 <= i < |items| :: !items[i].ValidWrite()
  {
    forall i | 0 <= i < |items| ensures !items[i].ValidWrite() {
      assert items[i].sha !in Wants(items);
    }
  }

  lemma StillClosed(g: Graph, before: PackFiles, after: PackFiles, remote: map<Name, Sha>)
    requires OnlyAdds(before, after) && RemoteClosed(g, before, remote)
    ensures RemoteClosed(g, after, remote)
  {
    forall n | n in remote ensures ClosureHeld(g, after, remote[n]) {
      ClosureStays(g, before, after, remote[n]);
    }
  }
}
