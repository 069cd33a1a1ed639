/** The remote as a tree of files and folders, and the transport's operations
    on it (transport.go, fake.go). Every operation of a faulty transport may
    fail, or land without its outcome being known; a faultless one behaves as
    the sequential store does. */
module Remote {
  import opened Names
  import opened Wrappers
  import opened Batch

  type Content = string

  datatype Tree = Tree(files: map<Name, Content>, dirs: set<Name>)

  // Permanent folders, never residue.
  const PROTECTED: set<Name> := {REFS, REFS_HEADS, REFS_TAGS}

  // Every node sits in a folder, nothing is both file and folder, and the
  // permanent folders are there.
  ghost predicate WellFormed(t: Tree)
  {
    && t.files.Keys !! t.dirs
    && [] !in t.files && [] !in t.dirs
    && (forall n | n in t.files && SLASH in n :: ParentOf(n) in t.dirs)
    && (forall n | n in t.dirs && SLASH in n :: ParentOf(n) in t.dirs)
    && PROTECTED <= t.dirs
  }

  predicate IsNode(t: Tree, n: Name)
  {
    n in t.files || n in t.dirs
  }

  lemma {:induction false} FolderAbove(t: Tree, p: Name, n: Name)
    requires WellFormed(t) && IsNode(t, n) && Above(p, n)
    ensures p in t.dirs
    decreases |n|
  {
    AboveParent(p, n);
    if p != ParentOf(n) { FolderAbove(t, p, ParentOf(n)); }
  }

  // p and everything beneath it gone.
  function Without(t: Tree, p: Name): Tree
  {
    Tree(map n | n in t.files && !AboveOrEqual(p, n) :: t.files[n], set d | d in t.dirs && !AboveOrEqual(p, d))
  }

  lemma WithoutWellFormed(t: Tree, p: Name)
    requires WellFormed(t) && forall q | q in PROTECTED :: !AboveOrEqual(p, q)
    ensures WellFormed(Without(t, p))
  {
    var u := Without(t, p);
    forall n | IsNode(u, n) && SLASH in n ensures ParentOf(n) in u.dirs {
      if AboveOrEqual(p, ParentOf(n)) { AboveTransitive(p, ParentOf(n), n); }
    }
  }

  // A file has nothing beneath it, so removing it removes it alone.
  lemma WithoutFile(t: Tree, p: Name)
    requires WellFormed(t) && p !in t.dirs
    ensures Without(t, p) == Tree(t.files - {p}, t.dirs)
  {
    forall n | IsNode(t, n) ensures !Above(p, n) {
      if Above(p, n) { FolderAbove(t, p, n); }
    }
  }

  datatype Outcome = Committed | Refusal | Ambiguous

  datatype Node = Node(leaf: Name, isDir: bool, size: nat)

  // The nodes directly inside p, by leaf name.
  function Leaves(t: Tree, p: Name): set<Name>
  {
    (set n | n in t.files && SLASH in n && ParentOf(n) == p :: LeafOf(n)) +
    (set n | n in t.dirs && SLASH in n && ParentOf(n) == p :: LeafOf(n))
  }

  function Child(p: Name, leaf: Name): Name
  {
    p + [SLASH] + leaf
  }

  function NodeAt(t: Tree, p: Name, leaf: Name): Node
  {
    if Child(p, leaf) in t.files then Node(leaf, false, |t.files[Child(p, leaf)]|) else Node(leaf, true, 0)
  }

  // A listing: the direct children, sorted, files as files.
  ghost predicate IsListing(t: Tree, p: Name, nodes: seq<Node>)
  {
    && (forall i | 0 <= i < |nodes| :: nodes[i].leaf in Leaves(t, p) && nodes[i] == NodeAt(t, p, nodes[i].leaf))
    && (forall leaf | leaf in Leaves(t, p) :: exists i :: 0 <= i < |nodes| && nodes[i].leaf == leaf)
    && forall i, j | 0 <= i < j < |nodes| :: Less(nodes[i].leaf, nodes[j].leaf)
  }

  lemma LeafIsNode(t: Tree, p: Name, leaf: Name)
    ensures leaf in Leaves(t, p) <==> SLASH !in leaf && IsNode(t, Child(p, leaf))
  {
    if SLASH !in leaf && IsNode(t, Child(p, leaf)) {
      ChildOf(p, leaf);
      assert Child(p, leaf)[|p|] == SLASH;
    }
    if leaf in Leaves(t, p) {
      var n :| IsNode(t, n) && SLASH in n && ParentOf(n) == p && LeafOf(n) == leaf;
      assert n == ParentOf(n) + [SLASH] + LeafOf(n);
    }
  }

  lemma SortedListing(t: Tree, p: Name, q: seq<Name>, nodes: seq<Node>)
    requires SortedBy(q) && (forall n :: n in q <==> n in Leaves(t, p))
    requires |nodes| == |q| && forall j | 0 <= j < |q| :: nodes[j] == NodeAt(t, p, q[j])
    ensures IsListing(t, p, nodes)
  {
    assert forall i | 0 <= i < |q| :: q[i] in q && nodes[i].leaf == q[i];
    forall leaf | leaf in Leaves(t, p) ensures exists i :: 0 <= i < |nodes| && nodes[i].leaf == leaf {
      var i :| 0 <= i < |q| && q[i] == leaf;
      assert nodes[i].leaf == leaf;
    }
  }

  method NodesOf(t: Tree, p: Name) returns (nodes: seq<Node>)
    ensures IsListing(t, p, nodes)
  {
    var q := SortNames(Leaves(t, p));
    nodes := NodesAt(t, p, q);
    SortedListing(t, p, q, nodes);
  }

  method NodesAt(t: Tree, p: Name, q: seq<Name>) returns (nodes: seq<Node>)
    ensures |nodes| == |q| && forall j | 0 <= j < |q| :: nodes[j] == NodeAt(t, p, q[j])
  {
    nodes := [];
    for i := 0 to |q|
      invariant |nodes| == i && forall j | 0 <= j < i :: nodes[j] == NodeAt(t, p, q[j])
    {
      nodes := nodes + [NodeAt(t, p, q[i])];
    }
  }

  class Store {
    const faulty: bool
    // Whether calls may fail where their failure is only noted.
    const brittle: bool
    var files: map<Name, Content>
    var dirs: set<Name>
    // What the HEAD file says.
    var head: HeadRead
    // Every path List was called with, oldest first.
    ghost var listed: seq<Name>

    constructor (faulty: bool, brittle: bool, t: Tree, head: HeadRead)
      ensures this.faulty == faulty && this.brittle == brittle && T() == t && this.head == head && listed == []
    {
      this.faulty, this.brittle := faulty, brittle;
      files, dirs, this.head, listed := t.files, t.dirs, head, [];
    }

    function T(): Tree
      reads this`files, this`dirs
    {
      Tree(files, dirs)
    }

    // Whether this call goes wrong.
    method Glitch(fallible: bool) returns (g: bool)
      ensures g ==> fallible
    {
      g := *;
      g := g && fallible;
    }

    method ReadHead() returns (h: HeadRead)
      ensures h == head || (faulty && h == HeadUnreadable)
    {
      var g := Glitch(faulty);
      h := if g then HeadUnreadable else head;
    }

    // Stat, then create the folder when it is missing.
    method EnsureDir(p: Name) returns (ok: bool)
      requires WellFormed(T()) && p != []
      modifies this`dirs
      ensures WellFormed(T()) && old(dirs) <= dirs <= old(dirs) + {p}
      ensures ok ==> p in dirs
      ensures !faulty && p !in files && (SLASH in p ==> ParentOf(p) in old(dirs)) ==> ok
    {
      var g := Glitch(faulty);
      if g { return false; }
      if p in dirs { return true; }
      if p in files || (SLASH in p && ParentOf(p) !in dirs) { return false; }
      dirs := dirs + {p};
      ok := *;
      ok := ok || !faulty;
    }

    method List(p: Name, fallible: bool) returns (o: Option<seq<Node>>)
      modifies this`listed
      ensures listed == old(listed) + [p]
      ensures o.Some? ==> IsListing(T(), p, o.value)
      ensures !fallible ==> o.Some?
    {
      listed := listed + [p];
      var g := Glitch(fallible);
      if g { return None; }
      var nodes := NodesOf(T(), p);
      return Some(nodes);
    }

    // None is a failure; Some(None) is a confirmed absence.
    method Stat(p: Name) returns (o: Option<Option<Node>>)
      ensures o.Some? ==> (o.value.Some? <==> IsNode(T(), p))
      ensures o.Some? && o.value.Some? ==> (o.value.value.isDir <==> p !in files)
      ensures o.Some? && p in files ==> o.value.value.size == |files[p]|
      ensures !faulty ==> o.Some?
    {
      var g := Glitch(faulty);
      if g { return None; }
      if p in files { return Some(Some(Node(LeafOf(p), false, |files[p]|))); }
      if p in dirs { return Some(Some(Node(LeafOf(p), true, 0))); }
      return Some(None);
    }

    method ReadTo(p: Name) returns (o: Option<Content>)
      ensures o.Some? ==> p in files && o.value == files[p]
      ensures !faulty && p in files ==> o.Some?
    {
      var g := Glitch(faulty);
      if g || p !in files { return None; }
      return Some(files[p]);
    }

    // A new file, refused when anything has the name.
    method CreateExclusive(p: Name, body: Content) returns (out: Outcome, err: bool)
      requires WellFormed(T()) && p != []
      modifies this`files
      ensures WellFormed(T())
      ensures files == old(files) || (!old(IsNode(T(), p)) && files == old(files)[p := body])
      ensures out == Committed && !err ==> !old(IsNode(T(), p)) && files == old(files)[p := body]
      ensures out == Refusal && !err ==> files == old(files) && old(IsNode(T(), p))
      ensures !faulty && old(IsNode(T(), p)) ==> out == Refusal && !err
      ensures !faulty && !old(IsNode(T(), p)) && (SLASH in p ==> ParentOf(p) in dirs) ==> out == Committed && !err
    {
      var g := Glitch(faulty);
      var landed: bool := *;
      if g && !landed { err := *; return Ambiguous, err; }
      if p in files || p in dirs { return Refusal, false; }
      if SLASH in p && ParentOf(p) !in dirs { return Ambiguous, true; }
      files := files[p := body];
      if g { err := *; return Ambiguous, err; }
      return Committed, false;
    }

    // New bytes for a file; a rewrite with the same bytes is skipped.
    method UpdateRevision(p: Name, body: Content) returns (out: Outcome, err: bool)
      requires WellFormed(T()) && p != []
      modifies this`files
      ensures WellFormed(T())
      ensures files == old(files) || (p !in dirs && files == old(files)[p := body])
      ensures out == Committed && !err ==> files == old(files)[p := body] && files != old(files)
      ensures out == Refusal && !err ==> files == old(files) && (p in dirs || (p in files && files[p] == body))
      ensures !faulty && (p in dirs || (p in old(files) && old(files)[p] == body)) ==> out == Refusal && !err
      ensures !faulty && p !in dirs && (SLASH in p ==> ParentOf(p) in dirs) ==>
        (p in old(files) ==> old(files)[p] != body) ==> out == Committed && !err
    {
      var g := Glitch(faulty);
      var landed: bool := *;
      if g && !landed { err := *; return Ambiguous, err; }
      if p in dirs { return Refusal, false; }
      if SLASH in p && ParentOf(p) !in dirs { return Ambiguous, true; }
      if p in files && files[p] == body { return Refusal, false; }
      files := files[p := body];
      if g { err := *; return Ambiguous, err; }
      return Committed, false;
    }

    // Removes p with everything beneath it; an absent p is success.
    method Trash(p: Name, fallible: bool) returns (out: Outcome, err: bool)
      requires WellFormed(T()) && forall q | q in PROTECTED :: !AboveOrEqual(p, q)
      modifies this`files, this`dirs
      ensures WellFormed(T())
      ensures T() == old(T()) || T() == Without(old(T()), p)
      ensures out == Committed && !err ==> T() == Without(old(T()), p)
      ensures !fallible ==> out == Committed && !err
    {
      var g := Glitch(fallible);
      var landed: bool := *;
      if g && !landed {
        var refused: bool := *;
        err := *;
        return (if refused then Refusal else Ambiguous), err;
      }
      WithoutWellFormed(T(), p);
      var t := Without(T(), p);
      files, dirs := t.files, t.dirs;
      if g { err := *; return Ambiguous, err; }
      return Committed, false;
    }
  }
}
