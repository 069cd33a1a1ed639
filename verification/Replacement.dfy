/** One concrete push that loses a ref: a delete and a forced write of
    refs/heads/main in one batch, from a SHA-256 repository. Phase 2 approves
    both, phase 4 carries out the delete, and the write then fails because its
    object name is no 40 digits. git itself never sends both halves in one
    batch; a direct caller of Push can. */
module Replacement {
  import opened Names
  import opened Wrappers
  import opened Keys
  import opened Batch
  import opened Phase2
  import opened Remote
  import opened Refs
  import opened Healing
  import opened Execution
  import opened WritePhase
  import opened Objects
  import opened Packs
  import opened Push
  import opened PushTheorems

  // A branch directly under refs/heads, the object it has, and the one it is to
  // get, which is no 40 digits.
  ghost predicate Suits(x: Name, was: Sha, now: Sha)
  {
    && IsBranch(x) && IsRef(x) && Above(REFS, x) && ParentOf(x) == REFS_HEADS && REFS_SLASH <= x
    && IsSha(was) && !IsSha(now)
  }

  // Every component but the empty one is fine.
  ghost predicate Lenient(rules: Rules)
  {
    && (forall n :: rules.gitOk(n) && rules.wholeOk(n))
    && (forall n :: rules.compOk(n) <==> n != [])
  }

  function At(rules: Rules, x: Name, was: Sha, now: Sha): Context
  {
    Context(Keys(n => n, n => n), rules,
            Git(n => Some(now), s => Some(Commit), s => false, (a, b) => Some(true)),
            map[x := was], [], HeadAbsent, None)
  }

  function Both(x: Name): seq<Update>
  {
    [Update([], x, false), Update(x, x, true)]
  }

  function Approved(x: Name, now: Sha): seq<Item>
  {
    [Item(Both(x)[0], true, false, "", Valid), Item(Both(x)[1], false, false, now, Valid)]
  }

  lemma RootsAreClean(rules: Rules)
    requires Lenient(rules)
    ensures forall d | d in PROTECTED :: Clean(rules, d)
  {
    ProtectedParents();
    RootLeaves();
    CleanName(rules, REFS);
    CleanName(rules, REFS_HEADS);
    CleanName(rules, REFS_TAGS);
  }

  lemma CleanName(rules: Rules, n: Name)
    requires Lenient(rules) && LeafOf(n) != [] && (SLASH in n ==> Clean(rules, ParentOf(n)))
    ensures Clean(rules, n)
  {
  }

  lemma RootLeaves()
    ensures SLASH !in REFS && LeafOf(REFS) != [] && LeafOf(REFS_HEADS) != [] && LeafOf(REFS_TAGS) != []
  {
    var heads, tags := Ascii("heads"), Ascii("tags");
    assert REFS_HEADS == REFS + [SLASH] + heads && REFS_TAGS == REFS + [SLASH] + tags;
    ChildOf(REFS, heads);
    ChildOf(REFS, tags);
  }

  lemma NameIsGood(rules: Rules, x: Name, was: Sha, now: Sha)
    requires Lenient(rules) && Suits(x, was, now) && LeafOf(x) != []
    ensures GoodDestination(rules, x) && ContextOk(At(rules, x, was, now))
  {
    RootsAreClean(rules);
    assert Clean(rules, REFS_HEADS);
    assert SplitsAtSlash(At(rules, x, was, now).keys.caseOf);
  }

  lemma {:induction false} NoSkipped(dst: Name)
    ensures OccupiedAncestor([], dst).None?
    decreases |dst|
  {
    if ParentOf(dst) != [] { NoSkipped(ParentOf(dst)); }
  }

  lemma DeleteJudgedValid(rules: Rules, x: Name, was: Sha, now: Sha)
    requires Lenient(rules) && Suits(x, was, now) && LeafOf(x) != []
    ensures JudgeEntry(At(rules, x, was, now), Both(x), Both(x)[0]) == Approved(x, now)[0]
  {
    NameIsGood(rules, x, was, now);
  }

  lemma WriteJudgedValid(rules: Rules, x: Name, was: Sha, now: Sha)
    requires Lenient(rules) && Suits(x, was, now) && LeafOf(x) != []
    ensures JudgeEntry(At(rules, x, was, now), Both(x), Both(x)[1]) == Approved(x, now)[1]
  {
    NameIsGood(rules, x, was, now);
    NoSkipped(x);
    var c, ups := At(rules, x, was, now), Both(x);
    assert !Duplicated(ups, x);
    assert JudgeTransition(c, ups[1], now).Valid?;
    assert Occupancy(c.skipped, x).None?;
  }

  lemma BothJudgedValid(rules: Rules, x: Name, was: Sha, now: Sha)
    requires Lenient(rules) && Suits(x, was, now) && LeafOf(x) != []
    ensures Validate(At(rules, x, was, now), Both(x)) == Approved(x, now)
  {
    DeleteJudgedValid(rules, x, was, now);
    WriteJudgedValid(rules, x, was, now);
  }

  // With no create and no Mac rule, phase 2 keeps what validation approved.
  lemma QuietBatchSettles(c: Context, items: seq<Item>)
    requires c.local.None? && forall i | 0 <= i < |items| :: !items[i].ValidCreate()
    ensures Settle(c, Plan(items, {}, {})).items == items
  {
    assert FolderPass(c, items) == items;
    assert CaseStable(c, items);
  }

  lemma BothApproved(rules: Rules, x: Name, was: Sha, now: Sha)
    requires Lenient(rules) && Suits(x, was, now) && LeafOf(x) != []
    ensures Decide(At(rules, x, was, now), Both(x)) == Approved(x, now)
  {
    BothJudgedValid(rules, x, was, now);
    QuietBatchSettles(At(rules, x, was, now), Approved(x, now));
  }

  // ---- the remote: that one ref, and its object in one pack

  function Start(x: Name, was: Sha): Tree
  {
    Tree(map[x := RefContent(was)], PROTECTED)
  }

  function OnePack(s: Stem, o: Oid): Pack
  {
    Pack(s, {o})
  }

  function OneIndex(o: Oid): Index
  {
    Index([o], 0)
  }

  function StartPacks(was: Sha): PackFiles
  {
    PackFiles(map["old" := OnePack("old", was)], map["old" := OneIndex(was)])
  }

  function NoLinks(): Graph
  {
    o => {}
  }

  // The repository has none of the remote's 40-digit objects to leave out.
  function Packer(now: Sha): (set<Oid>, set<Oid>) -> PackResult
  {
    (wants, haves) =>
      if wants == {now} && haves == {} then Packed("new", OnePack("new", now), OneIndex(now)) else PackError
  }

  lemma ReachesOnlyItself(a: Oid, b: Oid)
    ensures Reaches(NoLinks(), a, b) <==> a == b
  {
    if a == b { assert PathFrom(NoLinks(), [a], a, b); }
    if Reaches(NoLinks(), a, b) {
      var p :| PathFrom(NoLinks(), p, a, b);
      assert |p| > 1 ==> p[1] in NoLinks()(p[0]);
    }
  }

  lemma TreeIsWellFormed(x: Name, was: Sha, now: Sha)
    requires Suits(x, was, now)
    ensures WellFormed(Start(x, was))
  {
    BareIsWellFormed();
    BranchIsNoRoot(x);
  }

  lemma OneRefScans(rules: Rules, t: Tree, x: Name, sha: Sha)
    requires t.files == map[x := RefContent(sha)] && IsSha(sha) && Above(REFS, x) && Advertisable(rules, x)
    requires forall d | d in t.dirs :: Clean(rules, d)
    ensures IsScan(rules, t, Scan(map[x := sha], []))
  {
    RefContentRoundTrip(sha);
  }

  lemma TreeIsReady(rules: Rules, x: Name, was: Sha, now: Sha)
    requires Lenient(rules) && Suits(x, was, now) && LeafOf(x) != []
    ensures WellFormed(Start(x, was)) && IsScan(rules, Start(x, was), Scan(map[x := was], []))
  {
    TreeIsWellFormed(x, was, now);
    NameIsGood(rules, x, was, now);
    RootsAreClean(rules);
    OneRefScans(rules, Start(x, was), x, was);
  }

  lemma BranchIsNoRoot(x: Name)
    requires IsBranch(x)
    ensures x !in PROTECTED
  {
    assert |REFS| < |REFS_TAGS| < |REFS_HEADS| < |x|;
  }

  lemma PackIsReady(now: Sha)
    ensures PacksDifference(NoLinks(), Packer(now))
  {
    forall o ensures o == now <==> ReachedFrom(NoLinks(), {now}, o) && !ReachedFrom(NoLinks(), {}, o) {
      ReachesOnlyItself(now, o);
    }
  }

  lemma LostFrom(c: Context, x: Name, now: Sha, results: seq<Result>, t: Tree, t2: Tree)
    requires x in c.remote && !IsSha(now) && |results| == 2 && Accomplished(c, Approved(x, now), results, t, t2)
    ensures results[0].Done? && !results[1].Done? && x !in t2.files
  {
    var items := Approved(x, now);
    assert items[0] in Elems(items) && x in Doomed(c, items);
    assert x !in DoneNames(items, results, 2);
  }

  // Wherever phase 2 approves both halves and the pack goes, nothing fails on
  // the way; the delete is reported done, the write is not, and the ref is gone.
  method LoseIn(c: Context, x: Name, now: Sha, t: Tree, f: PackFiles, g: Graph,
                packer: (set<Oid>, set<Oid>) -> PackResult)
    returns (results: seq<Result>, after: Option<Scan>)
    requires WellFormed(t) && ContextOk(c) && IsScan(c.rules, t, Scan(c.remote, c.skipped)) && Clean(c.rules, REFS)
    requires PacksDifference(g, packer)
    requires Decide(c, Both(x)) == Approved(x, now) && x in c.remote && !IsSha(now)
    requires PackGoes(f, packer(Wants(Approved(x, now)), Haves(c)))
    ensures |results| == 2 && results[0].Done? && !results[1].Done?
    ensures after.Some? && x !in after.value.refs
  {
    var r := new Store(false, true, t, c.head);
    var pf := new PackFolder(false, f);
    var items;
    items, results, after := PushThenScan(r, pf, c, Both(x), g, packer);
    LostFrom(c, x, now, results, t, r.T());
  }

  // Every precondition of a push holds.
  lemma AllReady(rules: Rules, x: Name, was: Sha, now: Sha)
    requires Lenient(rules) && Suits(x, was, now) && LeafOf(x) != []
    ensures var c := At(rules, x, was, now);
      && WellFormed(Start(x, was)) && ContextOk(c) && IsScan(c.rules, Start(x, was), Scan(c.remote, c.skipped))
      && Clean(c.rules, REFS) && PacksDifference(NoLinks(), Packer(now))
  {
    NameIsGood(rules, x, was, now);
    TreeIsReady(rules, x, was, now);
    PackIsReady(now);
    RootsAreClean(rules);
  }

  lemma PackIsAsked(rules: Rules, x: Name, was: Sha, now: Sha)
    ensures Wants(Approved(x, now)) == {now} && Haves(At(rules, x, was, now)) == {}
  {
    assert Approved(x, now)[1].sha in Wants(Approved(x, now));
  }

  method LoseAny(rules: Rules, x: Name, was: Sha, now: Sha) returns (results: seq<Result>, after: Option<Scan>)
    requires Lenient(rules) && Suits(x, was, now) && LeafOf(x) != []
    ensures |results| == 2 && results[0].Done? && !results[1].Done?
    ensures after.Some? && x !in after.value.refs
  {
    AllReady(rules, x, was, now);
    BothApproved(rules, x, was, now);
    PackIsAsked(rules, x, was, now);
    results, after := LoseIn(At(rules, x, was, now), x, now, Start(x, was), StartPacks(was), NoLinks(), Packer(now));
  }

  // ---- with names written out

  function Repeated(ch: char, n: nat): (s: string)
    ensures |s| == n && forall i | 0 <= i < n :: s[i] == ch
  {
    if n == 0 then "" else Repeated(ch, n - 1) + [ch]
  }

  const MAIN := REFS_HEADS + [SLASH] + Ascii("main")
  const SHA1_ID: Sha := Repeated('a', 40)
  const SHA256_ID: Sha := Repeated('b', 64)

  lemma BranchName(leaf: Name)
    requires SLASH !in leaf && leaf != []
    ensures var x := REFS_HEADS + [SLASH] + leaf;
      IsBranch(x) && IsRef(x) && Above(REFS, x) && ParentOf(x) == REFS_HEADS && REFS_SLASH <= x && LeafOf(x) == leaf
  {
    var heads := Ascii("heads");
    assert REFS_HEADS == REFS + [SLASH] + heads;
    ChildOf(REFS_HEADS, leaf);
    assert REFS_HEADS + [SLASH] + leaf == REFS_SLASH + (heads + [SLASH] + leaf);
  }

  lemma MainSuits()
    ensures Suits(MAIN, SHA1_ID, SHA256_ID) && LeafOf(MAIN) != []
  {
    BranchName(Ascii("main"));
    SixtyFourDigitsAreNoSha(SHA256_ID);
  }

  function NonEmpty(): Rules
  {
    Rules(n => true, n => true, n => n != [])
  }

  lemma MainApproved()
    ensures Decide(At(NonEmpty(), MAIN, SHA1_ID, SHA256_ID), Both(MAIN)) == Approved(MAIN, SHA256_ID)
  {
    MainSuits();
    BothApproved(NonEmpty(), MAIN, SHA1_ID, SHA256_ID);
  }

  method LoseMain() returns (results: seq<Result>, after: Option<Scan>)
    ensures |results| == 2 && results[0].Done? && !results[1].Done?
    ensures after.Some? && MAIN !in after.value.refs
  {
    MainSuits();
    assert Lenient(NonEmpty());
    results, after := LoseAny(NonEmpty(), MAIN, SHA1_ID, SHA256_ID);
  }
}
