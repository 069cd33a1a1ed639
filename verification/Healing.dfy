/** Best-effort pruning of empty folders, and the create that clears an empty
    folder left at its own name (push.go, pruneEmptyParents and
    createRefHealingCollision). */
module Healing {
  import opened Names
  import opened Wrappers
  import opened Batch
  import opened Remote
  import opened Refs

  lemma ProtectedParents()
    ensures ParentOf(REFS) == [] && ParentOf(REFS_HEADS) == REFS && ParentOf(REFS_TAGS) == REFS
    ensures Above(REFS, REFS_HEADS) && Above(REFS, REFS_TAGS)
  {
    var heads, tags := Ascii("heads"), Ascii("tags");
    assert REFS_HEADS == REFS + [SLASH] + heads && REFS_TAGS == REFS + [SLASH] + tags;
    ChildOf(REFS, heads);
    ChildOf(REFS, tags);
  }

  // The permanent folders alone, as a remote is created.
  lemma BareIsWellFormed()
    ensures WellFormed(Tree(map[], PROTECTED))
  {
    ProtectedParents();
    assert SLASH !in REFS && REFS != [];
  }

  // Nothing permanent lies at or beneath an unprotected name under refs/.
  lemma ProtectedOutside(d: Name)
    requires Above(REFS, d) && d !in PROTECTED
    ensures forall q | q in PROTECTED :: !AboveOrEqual(d, q)
  {
    ProtectedParents();
    forall q | q in PROTECTED ensures !AboveOrEqual(d, q) {
      if Above(d, q) { AboveParent(d, q); }
    }
  }

  lemma EmptyFolder(t: Tree, d: Name)
    requires WellFormed(t) && Leaves(t, d) == {} && d !in t.files
    ensures Without(t, d) == Tree(t.files, t.dirs - {d})
  {
    assert ChildPaths(t, d) == {};
    forall n | IsNode(t, n) ensures !Above(d, n) {
      if Above(d, n) { ChildrenCover(t, d, n); }
    }
  }

  // before becomes after by removing unprotected folders above ref, files
  // untouched.
  ghost predicate Pruned(before: Tree, after: Tree, ref: Name)
  {
    && after.files == before.files && after.dirs <= before.dirs
    && forall d | d in before.dirs && d !in after.dirs :: Above(d, ref) && d !in PROTECTED
  }

  // No unprotected folder above ref is empty.
  ghost predicate NoneEmptyAbove(t: Tree, ref: Name)
  {
    forall d | d in t.dirs && Above(d, ref) && d !in PROTECTED :: exists n :: IsNode(t, n) && Above(d, n)
  }

  // Every folder above ref that is left is dir or above it.
  ghost predicate LeftFrom(t: Tree, ref: Name, dir: Name)
  {
    forall d | d in t.dirs && Above(d, ref) :: AboveOrEqual(d, dir)
  }

  lemma StopsAtNode(t: Tree, ref: Name, dir: Name, leaf: Name)
    requires LeftFrom(t, ref, dir) && leaf in Leaves(t, dir)
    ensures NoneEmptyAbove(t, ref)
  {
    var n :| IsNode(t, n) && SLASH in n && ParentOf(n) == dir && LeafOf(n) == leaf;
    assert n == dir + [SLASH] + LeafOf(n);
    assert n[|dir|] == SLASH && Above(dir, n);
    forall d | d in t.dirs && Above(d, ref) ensures Above(d, n) {
      if d != dir { AboveTransitive(d, dir, n); }
    }
  }

  lemma StopsAtRoot(t: Tree, ref: Name, dir: Name)
    requires LeftFrom(t, ref, dir) && dir in PROTECTED && forall d | d in t.dirs :: d != []
    ensures NoneEmptyAbove(t, ref)
  {
    ProtectedParents();
    forall d | d in t.dirs && Above(d, ref) ensures d in PROTECTED {
      if Above(d, dir) { AboveParent(d, dir); }
      if Above(d, REFS) { AboveParent(d, REFS); }
    }
  }

  // Its calls may fail while all others work; when they work too, no empty
  // folder is left above ref.
  method PruneEmptyParents(r: Store, ref: Name, fallible: bool)
    requires WellFormed(r.T()) && Above(REFS, ref)
    requires forall n | n in r.files :: !Above(n, ref)
    modifies r`files, r`dirs, r`listed
    ensures WellFormed(r.T()) && Pruned(old(r.T()), r.T(), ref)
    ensures !fallible ==> NoneEmptyAbove(r.T(), ref)
    ensures ListedAbove({ref}, old(r.listed), r.listed)
  {
    var dir := ParentOf(ref);
    AboveParent(REFS, ref);
    assert LeftFrom(r.T(), ref, dir) by {
      forall d | d in r.dirs && Above(d, ref) ensures AboveOrEqual(d, dir) { AboveParent(d, ref); }
    }
    while dir != [] && dir !in PROTECTED
      invariant WellFormed(r.T()) && Pruned(old(r.T()), r.T(), ref) && LeftFrom(r.T(), ref, dir)
      invariant AboveOrEqual(REFS, dir) && Above(dir, ref)
      invariant ListedAbove({ref}, old(r.listed), r.listed)
      decreases |dir|
    {
      ghost var listed := r.listed;
      var nodes := r.List(dir, fallible);
      assert AboveSome(dir, {ref});
      ListedAboveThen({ref}, old(r.listed), listed, r.listed);
      if nodes.None? { return; }
      if nodes.value != [] {
        StopsAtNode(r.T(), ref, dir, nodes.value[0].leaf);
        return;
      }
      ghost var t := r.T();
      assert Leaves(t, dir) == {};
      ProtectedOutside(dir);
      EmptyFolder(t, dir);
      var out, err := r.Trash(dir, fallible);
      if err || out != Committed { return; }
      AboveParent(REFS, dir);
      AboveTransitive(ParentOf(dir), dir, ref);
      forall d | d in r.dirs && Above(d, ref) ensures AboveOrEqual(d, ParentOf(dir)) {
        assert d != dir && Above(d, dir);
        AboveParent(d, dir);
      }
      dir := ParentOf(dir);
    }
    StopsAtRoot(r.T(), ref, dir);
  }

  // What a create may do to the tree: its own file appears, and an empty
  // folder of its name, with the empty folders inside it, goes.
  ghost predicate Healed(before: Tree, after: Tree, ref: Name, sha: Sha)
  {
    && (after.files == before.files
      || (ref !in before.files && IsSha(sha) && after.files == before.files[ref := RefContent(sha)]))
    && after.dirs <= before.dirs
    && (forall d | d in before.dirs && d !in after.dirs :: AboveOrEqual(ref, d))
    && (after.dirs != before.dirs ==> ref !in PROTECTED && forall n | n in before.files :: !Above(ref, n))
  }

  // Nothing keeps a create of ref from succeeding.
  ghost predicate Clear(rules: Rules, t: Tree, ref: Name)
  {
    && ref !in PROTECTED && ref !in t.files && ParentOf(ref) in t.dirs
    && (forall n | n in t.files :: !Above(ref, n))
    && !Unverifiable(rules, t, ref)
  }

  lemma EmptySubtree(t: Tree, ref: Name)
    requires WellFormed(t) && ref !in t.files && forall n | n in t.files :: !Above(ref, n)
    ensures Without(t, ref).files == t.files
    ensures forall d | d in t.dirs && !AboveOrEqual(ref, d) :: d in Without(t, ref).dirs
  {
    forall n | n in t.files ensures !AboveOrEqual(ref, n) {
    }
  }

  // A file has the name: is it a ref, or foreign?
  method DiagnoseFile(r: Store, ref: Name, size: nat, out0: Outcome, err0: bool) returns (out: Outcome, err: bool)
    requires !(out0 == Committed && !err0)
    ensures !(out == Committed && !err)
  {
    if size < 40 || size > 42 { return Refusal, true; }
    var got := ReadRef(r, ref);
    if got.None? { return out0, true; }
    if got.value.Some? { return out0, err0; }
    return Refusal, true;
  }

  method CreateHealing(r: Store, rules: Rules, ref: Name, sha: Sha) returns (out: Outcome, err: bool)
    requires WellFormed(r.T()) && Above(REFS, ref)
    modifies r`files, r`dirs, r`listed
    ensures WellFormed(r.T()) && Healed(old(r.T()), r.T(), ref, sha)
    ensures out == Committed && !err ==> ref in r.files && r.files[ref] == RefContent(sha) && IsSha(sha)
    ensures !r.faulty && IsSha(sha) && old(Clear(rules, r.T(), ref)) ==> out == Committed && !err
    ensures !r.faulty && ref in PROTECTED ==> r.files == old(r.files)
    ensures r.dirs != old(r.dirs) ==> !old(Unverifiable(rules, r.T(), ref))
    ensures ListedIfClean(rules, ref, old(r.listed), r.listed)
  {
    assert ref != [] && ref[|REFS|] == SLASH;
    ghost var t0 := r.T();
    out, err := WriteRef(r, ref, sha, false);
    if !err && out == Committed { return; }
    var st := r.Stat(ref);
    if st.None? { return Ambiguous, true; }
    if st.value.None? { return; }
    if !st.value.value.isDir {
      out, err := DiagnoseFile(r, ref, st.value.value.size, out, err);
      return;
    }
    if ref in PROTECTED { return; }
    var files := SubtreeFiles(r, rules, ref);
    if files.None? { return Ambiguous, true; }
    if files.value != {} { return Refusal, true; }
    ghost var t := r.T();
    assert ref in t.dirs && t.files == t0.files;
    assert forall n | n in t.files :: !Above(ref, n) by { NoFilesBeneath(t, ref, files.value); }
    EmptySubtree(t, ref);
    ProtectedOutside(ref);
    var tout, terr := r.Trash(ref, r.faulty);
    if terr || tout != Committed { return Ambiguous, true; }
    StillParent(t, ref);
    out, err := WriteRef(r, ref, sha, false);
  }

  lemma NoFilesBeneath(t: Tree, ref: Name, files: set<Name>)
    requires files == (set n | n in t.files && Above(ref, n)) && files == {}
    ensures forall n | n in t.files :: !Above(ref, n)
  {
    forall n | n in t.files ensures !Above(ref, n) {
      assert n !in files;
    }
  }

  // Trashing ref leaves its parent.
  lemma StillParent(t: Tree, ref: Name)
    requires SLASH in ref
    ensures ParentOf(ref) in t.dirs ==> ParentOf(ref) in Without(t, ref).dirs
    ensures !IsNode(Without(t, ref), ref)
  {
  }
}
