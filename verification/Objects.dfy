/** The object graph, packs and their indexes (gitcmd.go's contracts). Objects
    are content-addressed, so the graph is one fixed function. */
module Objects {

  type Oid = string

  // The objects one object names.
  type Graph = Oid -> set<Oid>

  ghost predicate IsPath(g: Graph, p: seq<Oid>)
  {
    |p| > 0 && forall i | 0 <= i < |p| - 1 :: p[i + 1] in g(p[i])
  }

  ghost predicate PathFrom(g: Graph, p: seq<Oid>, a: Oid, b: Oid)
  {
    IsPath(g, p) && p[0] == a && p[|p| - 1] == b
  }

  ghost predicate Reaches(g: Graph, a: Oid, b: Oid)
  {
    exists p :: PathFrom(g, p, a, b)
  }

  ghost predicate ReachedFrom(g: Graph, tips: set<Oid>, o: Oid)
  {
    exists a :: a in tips && Reaches(g, a, o)
  }

  // ---- packs

  // A pack is named after the checksum of its content.
  type Stem = string

  datatype Pack = Pack(checksum: Stem, objects: set<Oid>)

  // More than one valid index can exist for one pack; tag tells them apart.
  datatype Index = Index(oids: seq<Oid>, tag: nat)

  // index-pack --verify accepts exactly an index that matches the pack.
  predicate Verifies(p: Pack, ix: Index)
  {
    p.objects == set o | o in ix.oids
  }

  datatype PackFiles = PackFiles(packs: map<Stem, Pack>, idxs: map<Stem, Index>)

  // Both members are there.
  predicate Complete(f: PackFiles, s: Stem)
  {
    s in f.packs && s in f.idxs
  }

  // A complete pair whose index matches its pack.
  predicate Sound(f: PackFiles, s: Stem)
  {
    Complete(f, s) && Verifies(f.packs[s], f.idxs[s])
  }

  // Objects a reader can get from sound pairs.
  ghost predicate Held(f: PackFiles, o: Oid)
  {
    exists s :: Sound(f, s) && o in f.packs[s].objects
  }

  // Everything a tip reaches is held.
  ghost predicate ClosureHeld(g: Graph, f: PackFiles, tip: Oid)
  {
    forall o | Reaches(g, tip, o) :: Held(f, o)
  }

  // Nothing is removed or replaced.
  ghost predicate OnlyAdds(before: PackFiles, after: PackFiles)
  {
    && (forall s | s in before.packs :: s in after.packs && after.packs[s] == before.packs[s])
    && (forall s | s in before.idxs :: s in after.idxs && after.idxs[s] == before.idxs[s])
  }

  lemma HeldStays(before: PackFiles, after: PackFiles, o: Oid)
    requires OnlyAdds(before, after) && Held(before, o)
    ensures Held(after, o)
  {
    var s :| Sound(before, s) && o in before.packs[s].objects;
    assert Sound(after, s);
  }

  lemma ClosureStays(g: Graph, before: PackFiles, after: PackFiles, tip: Oid)
    requires OnlyAdds(before, after) && ClosureHeld(g, before, tip)
    ensures ClosureHeld(g, after, tip)
  {
    forall o | Reaches(g, tip, o) ensures Held(after, o) { HeldStays(before, after, o); }
  }

  // Every pack is what its name says, and every index lies beside the pack it
  // matches.
  ghost predicate TruePacks(f: PackFiles)
  {
    && (forall s | s in f.packs :: f.packs[s].checksum == s)
    && (forall s | s in f.idxs :: s in f.packs && Verifies(f.packs[s], f.idxs[s]))
  }

  // Every state recorded between the two records is true.
  ghost predicate TrueCuts(before: seq<PackFiles>, now: seq<PackFiles>)
  {
    before <= now && forall i | |before| <= i < |now| :: TruePacks(now[i])
  }

  // ---- what git packs

  datatype PackResult = PackError | NothingToSend | Packed(stem: Stem, pack: Pack, idx: Index)

  // rev-list --objects wants, less everything the haves reach, in a pack named
  // by the checksum of its content.
  ghost predicate PacksDifference(g: Graph, packer: (set<Oid>, set<Oid>) -> PackResult)
  {
    forall wants, haves ::
      match packer(wants, haves)
      case PackError => true
      case NothingToSend => forall o | ReachedFrom(g, wants, o) :: ReachedFrom(g, haves, o)
      case Packed(stem, pack, idx) =>
        Verifies(pack, idx) && pack.checksum == stem
          && forall o :: o in pack.objects <==> ReachedFrom(g, wants, o) && !ReachedFrom(g, haves, o)
  }
}
