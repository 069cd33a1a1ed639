/** Ref files: their exact content, reading and writing them, making their
    folders, and the scan of refs/ (refs.go, refscan.go; push.go,
    subtreeFiles). */
module Refs {
  import opened Names
  import opened Wrappers
  import opened Batch
  import opened Remote

  // ---- content

  predicate IsHexDigit(ch: char)
  {
    '0' <= ch <= '9' || 'a' <= ch <= 'f'
  }

  predicate IsSha(s: string)
  {
    |s| == 40 && forall i | 0 <= i < |s| :: IsHexDigit(s[i])
  }

  function RefContent(sha: Sha): Content
  {
    sha + "\n"
  }

  // 40 hex digits and one newline, nothing else.
  function ParseRef(body: Content): Option<Sha>
  {
    if |body| == 41 && body[40] == '\n' && IsSha(body[..40]) then Some(body[..40]) else None
  }

  lemma RefContentRoundTrip(sha: Sha)
    requires IsSha(sha)
    ensures ParseRef(RefContent(sha)) == Some(sha)
  {
    assert RefContent(sha)[..40] == sha;
  }

  // The one body that reads back as sha is the one a write stores.
  lemma ParseRefInverse(body: Content)
    requires ParseRef(body).Some?
    ensures body == RefContent(ParseRef(body).value)
  {
    assert body == body[..40] + [body[40]];
  }

  // ---- reading and writing one ref

  // None when it cannot be read, Some(None) when it is not a ref.
  method ReadRef(r: Store, p: Name) returns (o: Option<Option<Sha>>)
    ensures o.Some? ==> p in r.files && o.value == ParseRef(r.files[p])
    ensures !r.faulty && p in r.files ==> o.Some?
  {
    var body := r.ReadTo(p);
    if body.None? { return None; }
    return Some(ParseRef(body.value));
  }

  // Write, then verify by reading back.
  method WriteRef(r: Store, ref: Name, sha: Sha, exists': bool) returns (out: Outcome, err: bool)
    requires WellFormed(r.T()) && ref != []
    modifies r`files
    ensures WellFormed(r.T())
    ensures r.files == old(r.files) || (IsSha(sha) && r.files == old(r.files)[ref := RefContent(sha)])
    ensures !exists' && old(IsNode(r.T(), ref)) ==> r.files == old(r.files)
    ensures out == Committed && !err ==> ref in r.files && r.files[ref] == RefContent(sha) && IsSha(sha)
    ensures out == Refusal && !err ==> r.files == old(r.files) && old(IsNode(r.T(), ref)) && !exists'
    ensures !r.faulty && !IsSha(sha) ==> err
    ensures !r.faulty && IsSha(sha) && exists' && ref in old(r.files) ==> out == Committed && !err
    ensures !r.faulty && IsSha(sha) && !exists' && old(IsNode(r.T(), ref)) ==> out == Refusal && !err
    ensures !r.faulty && IsSha(sha) && !exists' && !old(IsNode(r.T(), ref)) ==>
              (SLASH in ref ==> ParentOf(ref) in r.dirs) ==> out == Committed && !err
  {
    if !IsSha(sha) { return Ambiguous, true; }
    RefContentRoundTrip(sha);
    if exists' {
      out, err := r.UpdateRevision(ref, RefContent(sha));
    } else {
      out, err := r.CreateExclusive(ref, RefContent(sha));
    }
    if err { return Ambiguous, true; }
    if out == Refusal && !exists' { return Refusal, false; }
    var got := ReadRef(r, ref);
    if got.None? || got.value != Some(sha) { return Ambiguous, true; }
    ParseRefInverse(r.files[ref]);
    return Committed, false;
  }

  // ---- the folders above a ref

  // Every folder between the root and ref's leaf, top down.
  method EnsureRefParents(r: Store, ref: Name) returns (ok: bool)
    requires WellFormed(r.T()) && Above(REFS, ref)
    modifies r`dirs
    ensures WellFormed(r.T()) && old(r.dirs) <= r.dirs
    ensures forall d | d in r.dirs && d !in old(r.dirs) :: Above(d, ref)
    ensures ok ==> ParentOf(ref) in r.dirs
    ensures !r.faulty && (forall n | n in r.files :: !Above(n, ref)) ==> ok
  {
    assert ref[0] == REFS[0] && ref[|REFS|] == SLASH;
    var i := 0;
    while i < |ref|
      invariant 0 <= i <= |ref| && WellFormed(r.T()) && old(r.dirs) <= r.dirs
      invariant forall d | d in r.dirs && d !in old(r.dirs) :: Above(d, ref)
      invariant SLASH in ref[..i] ==> ParentOf(ref[..i]) in r.dirs
    {
      PrefixParent(ref, i);
      if ref[i] == SLASH {
        var ok' := r.EnsureDir(ref[..i]);
        if !ok' { return false; }
      }
      i := i + 1;
    }
    assert ref[..i] == ref;
    return true;
  }

  lemma PrefixParent(ref: Name, i: nat)
    requires i < |ref|
    ensures ref[i] == SLASH ==> Above(ref[..i], ref) && ParentOf(ref[..i + 1]) == ref[..i]
    ensures ref[i] != SLASH ==>
      (SLASH in ref[..i + 1] <==> SLASH in ref[..i]) && ParentOf(ref[..i + 1]) == ParentOf(ref[..i])
  {
    assert ref[..i + 1] == ref[..i] + [ref[i]];
    assert ref[..i + 1][..i] == ref[..i];
  }

  // ---- the scan

  datatype Scan = Scan(refs: map<Name, Sha>, skipped: seq<Skipped>)

  // Well named, and holding exactly a ref.
  predicate Advertised(rules: Rules, t: Tree, n: Name)
  {
    n in t.files && Advertisable(rules, n) && ParseRef(t.files[n]).Some?
  }

  ghost predicate Under(roots: set<Name>, n: Name)
  {
    exists c :: c in roots && AboveOrEqual(c, n)
  }

  ghost predicate BeneathSkipped(skipped: seq<Skipped>, n: Name)
  {
    exists i :: 0 <= i < |skipped| && skipped[i].kind.SkipInvalidNameFolder? && AboveOrEqual(skipped[i].path, n)
  }

  ghost predicate Recorded(skipped: seq<Skipped>, n: Name)
  {
    exists i :: 0 <= i < |skipped| && !skipped[i].kind.SkipInvalidNameFolder? && skipped[i].path == n
  }

  // A skipped entry is a file that is no ref, told by its name or by its
  // content, or a folder with an invalid name; it sits in a clean folder.
  ghost predicate SkipOk(rules: Rules, t: Tree, s: Skipped)
  {
    && Clean(rules, ParentOf(s.path))
    && (match s.kind
        case SkipInvalidNameFolder => s.path in t.dirs && !Clean(rules, s.path)
        case SkipInvalidName => s.path in t.files && !Advertisable(rules, s.path)
        case SkipContent => s.path in t.files && Advertisable(rules, s.path) && ParseRef(t.files[s.path]).None?)
  }

  // The scan of everything at and beneath roots.
  ghost predicate Scanned(rules: Rules, t: Tree, roots: set<Name>, s: Scan)
  {
    && (forall n :: n in s.refs <==> Under(roots, n) && Advertised(rules, t, n))
    && (forall n | n in s.refs :: ParseRef(t.files[n]) == Some(s.refs[n]))
    && (forall i | 0 <= i < |s.skipped| :: SkipOk(rules, t, s.skipped[i]) && Under(roots, s.skipped[i].path))
    && (forall n | n in t.files && Under(roots, n) && n !in s.refs ::
          if Clean(rules, ParentOf(n)) then Recorded(s.skipped, n) else BeneathSkipped(s.skipped, n))
    && (forall d | d in t.dirs && Under(roots, d) && !Clean(rules, d) :: BeneathSkipped(s.skipped, d))
  }

  lemma RecordedAppend(a: seq<Skipped>, b: seq<Skipped>, n: Name)
    ensures Recorded(a, n) || Recorded(b, n) ==> Recorded(a + b, n)
    ensures BeneathSkipped(a, n) || BeneathSkipped(b, n) ==> BeneathSkipped(a + b, n)
  {
    var all := a + b;
    assert forall i | 0 <= i < |a| :: all[i] == a[i];
    assert forall i | 0 <= i < |b| :: all[|a| + i] == b[i];
    if Recorded(a, n) {
      var i :| 0 <= i < |a| && !a[i].kind.SkipInvalidNameFolder? && a[i].path == n;
      assert all[i] == a[i];
    } else if Recorded(b, n) {
      var i :| 0 <= i < |b| && !b[i].kind.SkipInvalidNameFolder? && b[i].path == n;
      assert all[|a| + i] == b[i];
    }
    if BeneathSkipped(a, n) {
      var i :| 0 <= i < |a| && a[i].kind.SkipInvalidNameFolder? && AboveOrEqual(a[i].path, n);
      assert all[i] == a[i];
    } else if BeneathSkipped(b, n) {
      var i :| 0 <= i < |b| && b[i].kind.SkipInvalidNameFolder? && AboveOrEqual(b[i].path, n);
      assert all[|a| + i] == b[i];
    }
  }

  lemma UnderUnion(a: set<Name>, b: set<Name>, n: Name)
    ensures Under(a + b, n) <==> Under(a, n) || Under(b, n)
  {
  }

  lemma ScannedUnion(rules: Rules, t: Tree, a: set<Name>, x: Scan, b: set<Name>, y: Scan)
    requires Scanned(rules, t, a, x) && Scanned(rules, t, b, y)
    ensures Scanned(rules, t, a + b, Scan(x.refs + y.refs, x.skipped + y.skipped))
  {
    var s := Scan(x.refs + y.refs, x.skipped + y.skipped);
    forall n ensures Under(a + b, n) <==> Under(a, n) || Under(b, n) { UnderUnion(a, b, n); }
    forall n | n in t.files && Under(a + b, n) && n !in s.refs
      ensures if Clean(rules, ParentOf(n)) then Recorded(s.skipped, n) else BeneathSkipped(s.skipped, n)
    {
      RecordedAppend(x.skipped, y.skipped, n);
    }
    forall d | d in t.dirs && Under(a + b, d) && !Clean(rules, d) ensures BeneathSkipped(s.skipped, d) {
      RecordedAppend(x.skipped, y.skipped, d);
    }
  }

  function ChildPaths(t: Tree, p: Name): set<Name>
  {
    set leaf | leaf in Leaves(t, p) :: Child(p, leaf)
  }

  lemma IsChildPath(t: Tree, n: Name)
    requires IsNode(t, n) && SLASH in n
    ensures n in ChildPaths(t, ParentOf(n))
  {
    var leaf := LeafOf(n);
    assert n == Child(ParentOf(n), leaf);
    assert leaf in Leaves(t, ParentOf(n));
  }

  lemma {:induction false} ChildrenCover(t: Tree, p: Name, n: Name)
    requires WellFormed(t) && IsNode(t, n) && Above(p, n)
    ensures Under(ChildPaths(t, p), n)
    decreases |n|
  {
    AboveParent(p, n);
    var q := ParentOf(n);
    if q == p {
      IsChildPath(t, n);
      assert n in ChildPaths(t, p) && AboveOrEqual(n, n);
    } else {
      assert IsNode(t, q);
      ChildrenCover(t, p, q);
      var c :| c in ChildPaths(t, p) && AboveOrEqual(c, q);
      AboveTransitive(c, q, n);
      assert c in ChildPaths(t, p) && AboveOrEqual(c, n);
    }
  }

  lemma ChildPathsAbove(t: Tree, p: Name, n: Name)
    requires Under(ChildPaths(t, p), n)
    ensures Above(p, n)
  {
    var c :| c in ChildPaths(t, p) && AboveOrEqual(c, n);
    assert Above(p, c);
    AboveTransitive(p, c, n);
  }

  lemma OnlyFile(t: Tree, c: Name, n: Name)
    requires WellFormed(t) && c in t.files && IsNode(t, n) && Under({c}, n)
    ensures n == c
  {
    if Above(c, n) { FolderAbove(t, c, n); }
  }

  // One file in a clean folder.
  lemma ScannedFile(rules: Rules, t: Tree, c: Name, s: Scan)
    requires WellFormed(t) && c in t.files && Clean(rules, ParentOf(c))
    requires s == if Advertised(rules, t, c) then Scan(map[c := ParseRef(t.files[c]).value], [])
                  else Scan(map[], [Skipped(c, if Advertisable(rules, c) then SkipContent else SkipInvalidName)])
    ensures Scanned(rules, t, {c}, s)
  {
    forall n | IsNode(t, n) && Under({c}, n) ensures n == c { OnlyFile(t, c, n); }
    assert AboveOrEqual(c, c) && Under({c}, c);
    if !Advertised(rules, t, c) { assert s.skipped[0].path == c; }
  }

  // A folder with an invalid name: nothing in it is looked at.
  lemma ScannedInvalidFolder(rules: Rules, t: Tree, c: Name)
    requires WellFormed(t) && c in t.dirs && !Clean(rules, c) && Clean(rules, ParentOf(c))
    ensures Scanned(rules, t, {c}, Scan(map[], [Skipped(c, SkipInvalidNameFolder)]))
  {
    var s := [Skipped(c, SkipInvalidNameFolder)];
    assert AboveOrEqual(c, c) && Under({c}, c);
    forall n | Under({c}, n) ensures !Clean(rules, n) && BeneathSkipped(s, n) {
      if Clean(rules, n) { CleanAbove(rules, c, n); }
      assert s[0].kind.SkipInvalidNameFolder? && AboveOrEqual(s[0].path, n);
    }
    forall n | n in t.files && Under({c}, n) ensures !Clean(rules, ParentOf(n)) {
      AboveParent(c, n);
      assert Under({c}, ParentOf(n));
    }
  }

  // Roots with the same files and unclean folders beneath have the same scan.
  lemma ScannedAlike(rules: Rules, t: Tree, a: set<Name>, b: set<Name>, s: Scan)
    requires Scanned(rules, t, a, s)
    requires forall n | n in t.files || (n in t.dirs && !Clean(rules, n)) :: Under(a, n) <==> Under(b, n)
    ensures Scanned(rules, t, b, s)
  {
  }

  // A clean folder, once its children are scanned.
  lemma ScannedFolder(rules: Rules, t: Tree, c: Name, s: Scan)
    requires WellFormed(t) && c in t.dirs && Clean(rules, c) && Scanned(rules, t, ChildPaths(t, c), s)
    ensures Scanned(rules, t, {c}, s)
  {
    forall n | n in t.files || (n in t.dirs && !Clean(rules, n)) ensures Under(ChildPaths(t, c), n) <==> Under({c}, n) {
      FolderUnder(t, c, n);
    }
    ScannedAlike(rules, t, ChildPaths(t, c), {c}, s);
  }

  lemma FolderUnder(t: Tree, c: Name, n: Name)
    requires WellFormed(t) && c in t.dirs && IsNode(t, n) && n != c
    ensures Under(ChildPaths(t, c), n) <==> Under({c}, n)
  {
    if Under({c}, n) { ChildrenCover(t, c, n); }
    if Under(ChildPaths(t, c), n) { ChildPathsAbove(t, c, n); assert c in {c}; }
  }

  // One file: its name, then its size, then its content.
  method ScanFile(r: Store, rules: Rules, c: Name, size: nat) returns (o: Option<Scan>)
    requires WellFormed(r.T()) && c in r.files && size == |r.files[c]| && Clean(rules, ParentOf(c))
    ensures o.Some? ==> Scanned(rules, r.T(), {c}, o.value)
    ensures !r.faulty ==> o.Some?
  {
    ghost var t := r.T();
    var s;
    if !Advertisable(rules, c) {
      s := Scan(map[], [Skipped(c, SkipInvalidName)]);
    } else if size < 40 || size > 42 {
      s := Scan(map[], [Skipped(c, SkipContent)]);
    } else {
      var got := ReadRef(r, c);
      if got.None? { return None; }
      s := if got.value.Some? then Scan(map[c := got.value.value], []) else Scan(map[], [Skipped(c, SkipContent)]);
    }
    ScannedFile(rules, t, c, s);
    return Some(s);
  }

  lemma EmptyScanned(rules: Rules, t: Tree)
    ensures Scanned(rules, t, {}, Scan(map[], []))
  {
  }

  ghost function DirsBeneath(t: Tree, p: Name): set<Name>
  {
    set d | d in t.dirs && Above(p, d)
  }

  lemma DirsBeneathShrinks(t: Tree, p: Name, c: Name)
    requires c in t.dirs && Above(p, c)
    ensures DirsBeneath(t, c) < DirsBeneath(t, p)
  {
    forall d | d in DirsBeneath(t, c) ensures d in DirsBeneath(t, p) { AboveTransitive(p, c, d); }
    assert c in DirsBeneath(t, p) && c !in DirsBeneath(t, c);
  }

  lemma CleanChild(rules: Rules, p: Name, leaf: Name)
    requires SLASH !in leaf
    ensures Clean(rules, Child(p, leaf)) <==> rules.compOk(leaf) && Clean(rules, p)
    ensures ParentOf(Child(p, leaf)) == p && Above(p, Child(p, leaf))
  {
    ChildOf(p, leaf);
    assert Child(p, leaf)[|p|] == SLASH;
    assert p + [SLASH] <= Child(p, leaf);
  }

  // Between the two records only folders with clean names were listed.
  ghost predicate ListedClean(rules: Rules, before: seq<Name>, now: seq<Name>)
  {
    before <= now && forall i | |before| <= i < |now| :: Clean(rules, now[i])
  }

  lemma ListedCleanThen(rules: Rules, a: seq<Name>, b: seq<Name>, d: seq<Name>)
    requires ListedClean(rules, a, b) && ListedClean(rules, b, d)
    ensures ListedClean(rules, a, d)
  {
    assert forall i | |a| <= i < |b| :: d[i] == b[i];
  }

  // Between the two records only folders above some of names were listed.
  ghost predicate ListedAbove(names: set<Name>, before: seq<Name>, now: seq<Name>)
  {
    before <= now && forall i | |before| <= i < |now| :: AboveSome(now[i], names)
  }

  ghost predicate AboveSome(d: Name, names: set<Name>)
  {
    exists n :: n in names && Above(d, n)
  }

  lemma ListedAboveThen(names: set<Name>, a: seq<Name>, b: seq<Name>, d: seq<Name>)
    requires ListedAbove(names, a, b) && ListedAbove(names, b, d)
    ensures ListedAbove(names, a, d)
  {
    assert forall i | |a| <= i < |b| :: d[i] == b[i];
  }

  // Folders above clean names are clean.
  lemma ListedAboveClean(rules: Rules, names: set<Name>, before: seq<Name>, now: seq<Name>)
    requires ListedAbove(names, before, now) && forall n | n in names :: Clean(rules, n)
    ensures ListedClean(rules, before, now)
  {
    forall i | |before| <= i < |now| ensures Clean(rules, now[i]) {
      assert AboveSome(now[i], names);
      var n :| n in names && Above(now[i], n);
      CleanAbove(rules, now[i], n);
    }
  }

  ghost predicate ListedIfClean(rules: Rules, folder: Name, before: seq<Name>, now: seq<Name>)
  {
    Clean(rules, folder) ==> ListedClean(rules, before, now)
  }

  lemma ListedIfCleanThen(rules: Rules, folder: Name, a: seq<Name>, b: seq<Name>, d: seq<Name>)
    requires ListedIfClean(rules, folder, a, b) && ListedIfClean(rules, folder, b, d)
    ensures ListedIfClean(rules, folder, a, d)
  {
    if Clean(rules, folder) { ListedCleanThen(rules, a, b, d); }
  }

  // What the loop over the children of rel has by child i.
  ghost predicate WalkedTo(rules: Rules, t: Tree, rel: Name, q: seq<Node>, i: nat, s: Scan)
  {
    i <= |q| && IsListing(t, rel, q) && Scanned(rules, t, FirstChildren(rel, q, i), s)
  }

  function Joined(s: Scan, part: Scan): Scan
  {
    Scan(s.refs + part.refs, s.skipped + part.skipped)
  }

  lemma WalkStart(rules: Rules, t: Tree, rel: Name, q: seq<Node>)
    requires IsListing(t, rel, q)
    ensures WalkedTo(rules, t, rel, q, 0, Scan(map[], []))
  {
    EmptyScanned(rules, t);
    assert FirstChildren(rel, q, 0) == {};
  }

  lemma WalkStep(rules: Rules, t: Tree, rel: Name, q: seq<Node>, i: nat, s: Scan, part: Scan)
    requires WalkedTo(rules, t, rel, q, i, s) && i < |q| && Scanned(rules, t, {Child(rel, q[i].leaf)}, part)
    ensures WalkedTo(rules, t, rel, q, i + 1, Joined(s, part))
  {
    FirstChildrenStep(rel, q, i);
    ScannedUnion(rules, t, FirstChildren(rel, q, i), s, {Child(rel, q[i].leaf)}, part);
  }

  lemma WalkEnd(rules: Rules, t: Tree, rel: Name, q: seq<Node>, s: Scan)
    requires WalkedTo(rules, t, rel, q, |q|, s)
    ensures Scanned(rules, t, ChildPaths(t, rel), s)
  {
    AllChildren(t, rel, q);
  }

  // Everything inside one clean folder.
  method Walk(r: Store, rules: Rules, rel: Name) returns (o: Option<Scan>)
    requires WellFormed(r.T()) && Clean(rules, rel)
    modifies r`listed
    ensures o.Some? ==> Scanned(rules, r.T(), ChildPaths(r.T(), rel), o.value)
    ensures !r.faulty ==> o.Some?
    ensures ListedClean(rules, old(r.listed), r.listed)
    decreases DirsBeneath(r.T(), rel), 3
  {
    var nodes := r.List(rel, r.faulty);
    if nodes.None? { return None; }
    ghost var listed := r.listed;
    o := WalkChildren(r, rules, rel, nodes.value);
    ListedCleanThen(rules, old(r.listed), listed, r.listed);
    if o.Some? { WalkEnd(rules, r.T(), rel, nodes.value, o.value); }
  }

  method WalkChildren(r: Store, rules: Rules, rel: Name, q: seq<Node>) returns (o: Option<Scan>)
    requires WellFormed(r.T()) && Clean(rules, rel) && IsListing(r.T(), rel, q)
    modifies r`listed
    ensures o.Some? ==> WalkedTo(rules, r.T(), rel, q, |q|, o.value)
    ensures !r.faulty ==> o.Some?
    ensures ListedClean(rules, old(r.listed), r.listed)
    decreases DirsBeneath(r.T(), rel), 2
  {
    ghost var t := r.T();
    WalkStart(rules, t, rel, q);
    o := Some(Scan(map[], []));
    var i := 0;
    while i < |q|
      invariant r.T() == t && i <= |q|
      invariant o.Some? && WalkedTo(rules, t, rel, q, i, o.value)
      invariant ListedClean(rules, old(r.listed), r.listed)
    {
      ghost var before := r.listed;
      o := WalkChild(r, rules, rel, q, i, o.value);
      ListedCleanThen(rules, old(r.listed), before, r.listed);
      if o.None? { return; }
      i := i + 1;
    }
  }

  ghost function FirstChildren(rel: Name, q: seq<Node>, n: nat): set<Name>
    requires n <= |q|
  {
    set j | 0 <= j < n :: Child(rel, q[j].leaf)
  }

  lemma FirstChildrenStep(rel: Name, q: seq<Node>, i: nat)
    requires i < |q|
    ensures FirstChildren(rel, q, i + 1) == FirstChildren(rel, q, i) + {Child(rel, q[i].leaf)}
  {
    var more := FirstChildren(rel, q, i) + {Child(rel, q[i].leaf)};
    forall c | c in FirstChildren(rel, q, i + 1) ensures c in more {
      var j :| 0 <= j < i + 1 && c == Child(rel, q[j].leaf);
      if j < i { assert c in FirstChildren(rel, q, i); }
    }
    forall c | c in more ensures c in FirstChildren(rel, q, i + 1) {
      if c in FirstChildren(rel, q, i) { var j :| 0 <= j < i && c == Child(rel, q[j].leaf); }
    }
  }

  lemma AllChildren(t: Tree, rel: Name, q: seq<Node>)
    requires IsListing(t, rel, q)
    ensures FirstChildren(rel, q, |q|) == ChildPaths(t, rel)
  {
    forall c | c in ChildPaths(t, rel) ensures c in FirstChildren(rel, q, |q|) {
      var leaf :| leaf in Leaves(t, rel) && c == Child(rel, leaf);
      var j :| 0 <= j < |q| && q[j].leaf == leaf;
    }
    forall c | c in FirstChildren(rel, q, |q|) ensures c in ChildPaths(t, rel) {
      var j :| 0 <= j < |q| && c == Child(rel, q[j].leaf);
    }
  }

  // The scan so far, with one more child and everything beneath it.
  method WalkChild(r: Store, rules: Rules, rel: Name, q: seq<Node>, i: nat, s: Scan) returns (o: Option<Scan>)
    requires WellFormed(r.T()) && Clean(rules, rel) && i < |q| && WalkedTo(rules, r.T(), rel, q, i, s)
    modifies r`listed
    ensures o.Some? ==> WalkedTo(rules, r.T(), rel, q, i + 1, o.value)
    ensures !r.faulty ==> o.Some?
    ensures ListedClean(rules, old(r.listed), r.listed)
    decreases DirsBeneath(r.T(), rel), 1
  {
    ghost var t := r.T();
    var part := WalkNode(r, rules, rel, q[i]);
    assert r.T() == t;
    if part.None? { return None; }
    WalkStep(rules, t, rel, q, i, s, part.value);
    return Some(Joined(s, part.value));
  }

  // One listed node, and everything beneath it.
  method WalkNode(r: Store, rules: Rules, rel: Name, node: Node) returns (o: Option<Scan>)
    requires WellFormed(r.T()) && Clean(rules, rel)
    requires node.leaf in Leaves(r.T(), rel) && node == NodeAt(r.T(), rel, node.leaf)
    modifies r`listed
    ensures o.Some? ==> Scanned(rules, r.T(), {Child(rel, node.leaf)}, o.value)
    ensures !r.faulty ==> o.Some?
    ensures ListedClean(rules, old(r.listed), r.listed)
    decreases DirsBeneath(r.T(), rel), 0
  {
    ghost var t := r.T();
    var c := Child(rel, node.leaf);
    LeafIsNode(t, rel, node.leaf);
    CleanChild(rules, rel, node.leaf);
    if !node.isDir {
      o := ScanFile(r, rules, c, node.size);
    } else if !rules.compOk(node.leaf) {
      ScannedInvalidFolder(rules, t, c);
      o := Some(Scan(map[], [Skipped(c, SkipInvalidNameFolder)]));
    } else {
      DirsBeneathShrinks(t, rel, c);
      o := Walk(r, rules, c);
      if o.Some? { ScannedFolder(rules, t, c, o.value); }
    }
  }

  // The refs to advertise, each with the object its file holds.
  ghost predicate ListsRefs(rules: Rules, t: Tree, refs: map<Name, Sha>)
  {
    && (forall n :: n in refs <==> Above(REFS, n) && Advertised(rules, t, n))
    && (forall n | n in refs :: ParseRef(t.files[n]) == Some(refs[n]))
  }

  // The whole of refs/.
  ghost predicate IsScan(rules: Rules, t: Tree, s: Scan)
  {
    && ListsRefs(rules, t, s.refs)
    && (forall i | 0 <= i < |s.skipped| :: SkipOk(rules, t, s.skipped[i]) && Above(REFS, s.skipped[i].path))
    && (forall n | n in t.files && Above(REFS, n) && n !in s.refs ::
          if Clean(rules, ParentOf(n)) then Recorded(s.skipped, n) else BeneathSkipped(s.skipped, n))
    && (forall d | d in t.dirs && Above(REFS, d) && !Clean(rules, d) :: BeneathSkipped(s.skipped, d))
  }

  lemma ScannedIsScan(rules: Rules, t: Tree, s: Scan)
    requires WellFormed(t) && Scanned(rules, t, ChildPaths(t, REFS), s)
    ensures IsScan(rules, t, s)
  {
    forall n | IsNode(t, n) ensures Above(REFS, n) <==> Under(ChildPaths(t, REFS), n) {
      if Above(REFS, n) { ChildrenCover(t, REFS, n); }
      if Under(ChildPaths(t, REFS), n) { ChildPathsAbove(t, REFS, n); }
    }
  }

  // What a scan says of a file, in full: it is advertised exactly when its name
  // passes the whole-name check and every component the component check, and it
  // holds 40 lowercase hex digits and a newline, which is its object.
  lemma ScanTells(rules: Rules, t: Tree, s: Scan, n: Name)
    requires IsScan(rules, t, s)
    ensures n in s.refs <==>
      && n in t.files && REFS + [SLASH] <= n && rules.wholeOk(n)
      && (forall p | AboveOrEqual(p, n) :: rules.compOk(LeafOf(p)))
      && exists sha: string :: HoldsObject(t.files[n], sha)
    ensures n in s.refs ==> HoldsObject(t.files[n], s.refs[n])
  {
    CleanIff(rules, n);
    if n in t.files && ParseRef(t.files[n]).Some? {
      ParseRefInverse(t.files[n]);
      assert HoldsObject(t.files[n], ParseRef(t.files[n]).value);
    }
    if n in t.files {
      forall sha: string | HoldsObject(t.files[n], sha) ensures ParseRef(t.files[n]) == Some(sha) {
        assert t.files[n] == RefContent(sha);
        RefContentRoundTrip(sha);
      }
    }
  }

  ghost predicate HoldsObject(body: Content, sha: string)
  {
    && |sha| == 40 && (forall i | 0 <= i < 40 :: '0' <= sha[i] <= '9' || 'a' <= sha[i] <= 'f')
    && body == sha + ['\n']
  }

  // Why a file that is not advertised was passed over.
  lemma SkippedTells(rules: Rules, t: Tree, s: Scan, i: nat)
    requires IsScan(rules, t, s) && i < |s.skipped|
    ensures var x := s.skipped[i];
      && REFS + [SLASH] <= x.path
      && (SLASH in x.path ==> forall p | AboveOrEqual(p, ParentOf(x.path)) :: rules.compOk(LeafOf(p)))
      && match x.kind
         case SkipInvalidNameFolder => x.path in t.dirs && !rules.compOk(LeafOf(x.path))
         case SkipInvalidName => x.path in t.files && !(rules.wholeOk(x.path) && rules.compOk(LeafOf(x.path)))
         case SkipContent => x.path in t.files && !exists sha: string :: HoldsObject(t.files[x.path], sha)
  {
    var x := s.skipped[i];
    assert SkipOk(rules, t, x) && Above(REFS, x.path);
    CleanIff(rules, ParentOf(x.path));
    if x.kind.SkipContent? {
      forall sha: string | HoldsObject(t.files[x.path], sha) ensures false {
        assert t.files[x.path] == RefContent(sha);
        RefContentRoundTrip(sha);
      }
    }
  }

  method ScanRefs(r: Store, rules: Rules) returns (o: Option<Scan>)
    requires WellFormed(r.T()) && Clean(rules, REFS)
    modifies r`listed
    ensures o.Some? ==> IsScan(rules, r.T(), o.value)
    ensures !r.faulty ==> o.Some?
    ensures ListedClean(rules, old(r.listed), r.listed)
  {
    o := Walk(r, rules, REFS);
    if o.Some? { ScannedIsScan(rules, r.T(), o.value); }
  }

  // Every file under refs/ is exactly one of advertised with its stored
  // object, recorded as skipped, or beneath a skipped folder.
  lemma ScanPartition(rules: Rules, t: Tree, s: Scan, n: Name)
    requires WellFormed(t) && IsScan(rules, t, s) && n in t.files && Above(REFS, n)
    ensures n in s.refs ==>
      t.files[n] == RefContent(s.refs[n]) && !Recorded(s.skipped, n) && !BeneathSkipped(s.skipped, n)
    ensures n !in s.refs ==> (Recorded(s.skipped, n) <==> !BeneathSkipped(s.skipped, n))
  {
    if n in s.refs { ParseRefInverse(t.files[n]); }
    if BeneathSkipped(s.skipped, n) {
      var i :| 0 <= i < |s.skipped| && s.skipped[i].kind.SkipInvalidNameFolder? && AboveOrEqual(s.skipped[i].path, n);
      var p := s.skipped[i].path;
      assert SkipOk(rules, t, s.skipped[i]);
      AboveParent(p, n);
      if Clean(rules, ParentOf(n)) { CleanAbove(rules, p, ParentOf(n)); }
      if Clean(rules, n) { CleanAbove(rules, p, n); }
    }
    if Recorded(s.skipped, n) {
      var i :| 0 <= i < |s.skipped| && !s.skipped[i].kind.SkipInvalidNameFolder? && s.skipped[i].path == n;
      assert SkipOk(rules, t, s.skipped[i]);
    }
  }

  // ---- the files beneath a folder

  ghost function FilesBeneath(t: Tree, p: Name): set<Name>
  {
    set n | n in t.files && Above(p, n)
  }

  // A folder strictly beneath p has a name that cannot be verified.
  ghost predicate Unverifiable(rules: Rules, t: Tree, p: Name)
  {
    exists d :: d in t.dirs && Above(p, d) && !rules.compOk(LeafOf(d))
  }

  // What the loop over the children of folder has by child i: their files, and
  // no unverifiable folder at or beneath any of them.
  ghost predicate GatheredTo(rules: Rules, t: Tree, folder: Name, q: seq<Node>, i: nat, fs: set<Name>)
  {
    && i <= |q| && IsListing(t, folder, q)
    && fs == FilesUnder(t, FirstChildren(folder, q, i))
    && Verifiable(rules, t, FirstChildren(folder, q, i))
  }

  ghost predicate Verifiable(rules: Rules, t: Tree, roots: set<Name>)
  {
    forall d | d in t.dirs && Under(roots, d) :: rules.compOk(LeafOf(d))
  }

  lemma GatherStart(rules: Rules, t: Tree, folder: Name, q: seq<Node>)
    requires IsListing(t, folder, q)
    ensures GatheredTo(rules, t, folder, q, 0, {})
  {
    assert FirstChildren(folder, q, 0) == {};
    assert FilesUnder(t, {}) == {};
  }

  lemma GatherStep(rules: Rules, t: Tree, folder: Name, q: seq<Node>, i: nat, fs: set<Name>, more: set<Name>)
    requires GatheredTo(rules, t, folder, q, i, fs) && i < |q|
    requires more == FilesUnder(t, {Child(folder, q[i].leaf)}) && Verifiable(rules, t, {Child(folder, q[i].leaf)})
    ensures GatheredTo(rules, t, folder, q, i + 1, fs + more)
  {
    FirstChildrenStep(folder, q, i);
    FilesUnderUnion(t, FirstChildren(folder, q, i), {Child(folder, q[i].leaf)});
    forall d | d in t.dirs && Under(FirstChildren(folder, q, i + 1), d) ensures rules.compOk(LeafOf(d)) {
      UnderUnion(FirstChildren(folder, q, i), {Child(folder, q[i].leaf)}, d);
    }
  }

  lemma GatherEnd(rules: Rules, t: Tree, folder: Name, q: seq<Node>, fs: set<Name>)
    requires WellFormed(t) && GatheredTo(rules, t, folder, q, |q|, fs)
    ensures fs == FilesBeneath(t, folder) && !Unverifiable(rules, t, folder)
  {
    AllChildren(t, folder, q);
    ChildFiles(t, folder);
    forall d | d in t.dirs && Above(folder, d) ensures rules.compOk(LeafOf(d)) { ChildrenCover(t, folder, d); }
  }

  // Every file beneath folder; None on a failed listing or when a folder
  // beneath it has an unverifiable name, which is never listed.
  method SubtreeFiles(r: Store, rules: Rules, folder: Name) returns (o: Option<set<Name>>)
    requires WellFormed(r.T())
    modifies r`listed
    ensures o.Some? ==> o.value == FilesBeneath(r.T(), folder) && !Unverifiable(rules, r.T(), folder)
    ensures !r.faulty && !Unverifiable(rules, r.T(), folder) ==> o.Some?
    ensures ListedIfClean(rules, folder, old(r.listed), r.listed)
    decreases DirsBeneath(r.T(), folder), 3
  {
    var nodes := r.List(folder, r.faulty);
    if nodes.None? { return None; }
    ghost var listed := r.listed;
    o := SubtreeChildren(r, rules, folder, nodes.value);
    ListedIfCleanThen(rules, folder, old(r.listed), listed, r.listed);
    if o.Some? { GatherEnd(rules, r.T(), folder, nodes.value, o.value); }
  }

  method SubtreeChildren(r: Store, rules: Rules, folder: Name, q: seq<Node>) returns (o: Option<set<Name>>)
    requires WellFormed(r.T()) && IsListing(r.T(), folder, q)
    modifies r`listed
    ensures o.Some? ==> GatheredTo(rules, r.T(), folder, q, |q|, o.value)
    ensures !r.faulty && !Unverifiable(rules, r.T(), folder) ==> o.Some?
    ensures ListedIfClean(rules, folder, old(r.listed), r.listed)
    decreases DirsBeneath(r.T(), folder), 2
  {
    ghost var t := r.T();
    GatherStart(rules, t, folder, q);
    o := Some({});
    var i := 0;
    while i < |q|
      invariant r.T() == t && i <= |q|
      invariant o.Some? && GatheredTo(rules, t, folder, q, i, o.value)
      invariant ListedIfClean(rules, folder, old(r.listed), r.listed)
    {
      ghost var before := r.listed;
      o := SubtreeChild(r, rules, folder, q, i, o.value);
      ListedIfCleanThen(rules, folder, old(r.listed), before, r.listed);
      if o.None? { return; }
      i := i + 1;
    }
  }

  // The files so far, with those at and beneath one more child.
  method SubtreeChild(r: Store, rules: Rules, folder: Name, q: seq<Node>, i: nat, fs: set<Name>)
    returns (o: Option<set<Name>>)
    requires WellFormed(r.T()) && i < |q| && GatheredTo(rules, r.T(), folder, q, i, fs)
    modifies r`listed
    ensures o.Some? ==> GatheredTo(rules, r.T(), folder, q, i + 1, o.value)
    ensures !r.faulty && !Unverifiable(rules, r.T(), folder) ==> o.Some?
    ensures ListedIfClean(rules, folder, old(r.listed), r.listed)
    decreases DirsBeneath(r.T(), folder), 1
  {
    ghost var t := r.T();
    var more := SubtreeNode(r, rules, folder, q[i]);
    assert r.T() == t;
    if more.None? { return None; }
    GatherStep(rules, t, folder, q, i, fs, more.value);
    return Some(fs + more.value);
  }

  // The files at and beneath one listed node.
  method SubtreeNode(r: Store, rules: Rules, folder: Name, node: Node) returns (o: Option<set<Name>>)
    requires WellFormed(r.T())
    requires node.leaf in Leaves(r.T(), folder) && node == NodeAt(r.T(), folder, node.leaf)
    modifies r`listed
    ensures o.Some? ==>
      o.value == FilesUnder(r.T(), {Child(folder, node.leaf)}) && Verifiable(rules, r.T(), {Child(folder, node.leaf)})
    ensures !r.faulty && !Unverifiable(rules, r.T(), folder) ==> o.Some?
    ensures ListedIfClean(rules, folder, old(r.listed), r.listed)
    decreases DirsBeneath(r.T(), folder), 0
  {
    ghost var t := r.T();
    var c := Child(folder, node.leaf);
    LeafIsNode(t, folder, node.leaf);
    CleanChild(rules, folder, node.leaf);
    ChildOf(folder, node.leaf);
    if !node.isDir {
      FileFiles(t, c);
      NoFoldersAtFile(t, c);
      return Some({c});
    }
    if !rules.compOk(node.leaf) { return None; }
    DirsBeneathShrinks(t, folder, c);
    DirFiles(t, c);
    BeneathChild(t, folder, c);
    o := SubtreeFiles(r, rules, c);
  }

  lemma NoFoldersAtFile(t: Tree, c: Name)
    requires WellFormed(t) && c in t.files
    ensures forall d | d in t.dirs :: !Under({c}, d)
  {
    forall d | d in t.dirs ensures !Under({c}, d) {
      if Above(c, d) { FolderAbove(t, c, d); }
    }
  }

  ghost function FilesUnder(t: Tree, roots: set<Name>): set<Name>
  {
    set n | n in t.files && Under(roots, n)
  }

  lemma FilesUnderUnion(t: Tree, a: set<Name>, b: set<Name>)
    ensures FilesUnder(t, a + b) == FilesUnder(t, a) + FilesUnder(t, b)
  {
    forall n ensures Under(a + b, n) <==> Under(a, n) || Under(b, n) { UnderUnion(a, b, n); }
  }

  lemma DirFiles(t: Tree, c: Name)
    requires WellFormed(t) && c in t.dirs
    ensures FilesUnder(t, {c}) == set n | n in t.files && Above(c, n)
  {
    forall n | n in t.files ensures Under({c}, n) <==> Above(c, n) {
      if Above(c, n) { assert c in {c} && AboveOrEqual(c, n); }
    }
  }

  lemma FileFiles(t: Tree, c: Name)
    requires WellFormed(t) && c in t.files
    ensures FilesUnder(t, {c}) == {c}
  {
    forall n | n in t.files && Under({c}, n) ensures n == c { OnlyFile(t, c, n); }
    assert AboveOrEqual(c, c) && Under({c}, c);
  }

  lemma ChildFiles(t: Tree, p: Name)
    requires WellFormed(t)
    ensures FilesUnder(t, ChildPaths(t, p)) == set n | n in t.files && Above(p, n)
  {
    forall n | n in t.files ensures Above(p, n) <==> Under(ChildPaths(t, p), n) {
      if Above(p, n) { ChildrenCover(t, p, n); }
      if Under(ChildPaths(t, p), n) { ChildPathsAbove(t, p, n); }
    }
  }

  lemma BeneathChild(t: Tree, p: Name, c: Name)
    requires Above(p, c)
    ensures forall d | Above(c, d) :: Above(p, d)
  {
    forall d | Above(c, d) ensures Above(p, d) { AboveTransitive(p, c, d); }
  }
}
