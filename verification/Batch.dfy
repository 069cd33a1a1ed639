/** A push batch: its entries, their verdicts, what phase 2 reads, and the set
    of refs the batch would leave (push.go, batchFinalSet). */
module Batch {
  import opened Names
  import opened Wrappers
  import opened Keys
  import opened CaseConflicts

  // 40 lowercase hexadecimal digits when well formed.
  type Sha = string

  // An empty source asks for a delete.
  datatype Update = Update(src: Name, dst: Name, force: bool)

  datatype SkipKind = SkipInvalidName | SkipInvalidNameFolder | SkipContent

  // A path under refs/ that the scan declined to advertise.
  datatype Skipped = Skipped(path: Name, kind: SkipKind)

  datatype HeadRead = HeadUnreadable | HeadAbsent | HeadAt(branch: Name)

  datatype ObjectType = Commit | NotCommit

  // git's own name check, the in-process whole-name check, and the check of one
  // path component.
  datatype Rules = Rules(gitOk: Name -> bool, wholeOk: Name -> bool, compOk: Name -> bool)

  // What phase 2 asks of the local repository.
  datatype Git = Git(resolve: Name -> Option<Sha>, typeOf: Sha -> Option<ObjectType>,
                     has: Sha -> bool, ancestor: (Sha, Sha) -> Option<bool>)

  // The local half of the Mac push rule.
  datatype LocalSide = LocalSide(refs: set<Name>, tracking: map<Name, set<Name>>)

  datatype Context = Context(keys: Keys, rules: Rules, git: Git, remote: map<Name, Sha>,
                             skipped: seq<Skipped>, head: HeadRead, local: Option<LocalSide>)

  // One tracking ref a Mac refusal names, with what it would meet.
  datatype Meeting = Meeting(c: Conflict, owner: Option<Name>, deleter: Option<Name>)
  datatype Clause = Clause(tracking: Name, meets: seq<Meeting>)

  datatype Reason =
    | InvalidDestination
    | Occupied(occupant: Skipped)
    | HeadNotReadable
    | IsHead
    | DuplicateDestination
    | Unresolved
    | UnknownType
    | BranchNotCommit
    | FetchFirst
    | AncestryUnknown
    | NonFastForward
    | TagNeedsForce
    | OtherNeedsForce
    | FolderConflict(other: Name)
    | CaseVariant(cs: seq<Conflict>)
    | MacKept(kept: seq<Name>, cs: seq<Conflict>)
    | RenameKept(create: Name, caseChanging: bool)
    | MacPaired(write: Name)
    | MacWrite(clauses: seq<Clause>, remoteHalf: seq<Conflict>)
    | MacDelete(clauses: seq<Clause>)
    | PackFailed

  datatype Verdict = Valid | Refused(why: Reason)

  // One entry with its flags: a delete; a create (a write of a name the remote
  // does not hold); the resolved object; and the verdict so far.
  datatype Item = Item(u: Update, del: bool, create: bool, sha: Sha, v: Verdict)
  {
    function Dst(): Name { u.dst }
    predicate ValidDelete() { v.Valid? && del }
    predicate ValidWrite() { v.Valid? && !del }
    predicate ValidCreate() { v.Valid? && !del && create }
    function Refuse(why: Reason): Item { this.(v := Refused(why)) }
  }

  function Elems(items: seq<Item>): set<Item>
  {
    set e | e in items
  }

  // Names still to be deleted, and still to be written.
  function Deleted(es: set<Item>): set<Name>
  {
    set e | e in es && e.ValidDelete() :: e.Dst()
  }

  function Written(es: set<Item>): set<Name>
  {
    set e | e in es && e.ValidWrite() :: e.Dst()
  }

  // The refs as the batch would leave them: deletes first, then writes.
  function FinalSet(remote: set<Name>, es: set<Item>): set<Name>
  {
    (remote - Deleted(es)) + Written(es)
  }

  // The two passes of batchFinalSet.
  method ComputeFinalSet(remote: set<Name>, items: seq<Item>) returns (f: set<Name>)
    ensures f == FinalSet(remote, Elems(items))
  {
    f := remote;
    for i := 0 to |items|
      invariant f == remote - Deleted(Elems(items[..i]))
    {
      assert items[..i + 1] == items[..i] + [items[i]];
      if items[i].ValidDelete() { f := f - {items[i].Dst()}; }
    }
    assert items[..|items|] == items;
    ghost var kept := f;
    for i := 0 to |items|
      invariant f == kept + Written(Elems(items[..i]))
    {
      assert items[..i + 1] == items[..i] + [items[i]];
      if items[i].ValidWrite() { f := f + {items[i].Dst()}; }
    }
  }

  // The names the still-valid writes write.
  method ComputeWritten(items: seq<Item>) returns (w: set<Name>)
    ensures w == Written(Elems(items))
  {
    w := {};
    for i := 0 to |items|
      invariant w == Written(Elems(items[..i]))
    {
      assert items[..i + 1] == items[..i] + [items[i]];
      if items[i].ValidWrite() { w := w + {items[i].Dst()}; }
    }
    assert items[..|items|] == items;
  }

  // ---- names

  // "refs/" and something below it.
  predicate IsRef(n: Name)
  {
    REFS_SLASH <= n && |n| > |REFS_SLASH|
  }

  predicate IsBranch(n: Name)
  {
    REFS_HEADS + [SLASH] <= n
  }

  predicate IsTag(n: Name)
  {
    REFS_TAGS + [SLASH] <= n
  }

  // Every component passes the component check.
  predicate Clean(r: Rules, n: Name)
    decreases |n|
  {
    r.compOk(LeafOf(n)) && (SLASH in n ==> Clean(r, ParentOf(n)))
  }

  predicate Advertisable(r: Rules, n: Name)
  {
    r.wholeOk(n) && Clean(r, n)
  }

  predicate GoodDestination(r: Rules, n: Name)
  {
    REFS_SLASH <= n && r.gitOk(n) && Advertisable(r, n)
  }

  // Every path at or above a clean name ends in a good component.
  lemma {:induction false} CleanIff(r: Rules, n: Name)
    ensures Clean(r, n) <==> forall p | AboveOrEqual(p, n) :: r.compOk(LeafOf(p))
    decreases |n|
  {
    if SLASH in n {
      CleanIff(r, ParentOf(n));
      forall p | AboveOrEqual(p, n) && p != n ensures AboveOrEqual(p, ParentOf(n)) { AboveParent(p, n); }
      forall p | AboveOrEqual(p, ParentOf(n)) ensures AboveOrEqual(p, n) { AboveTransitive(p, ParentOf(n), n); }
    } else {
      forall p | AboveOrEqual(p, n) && p != n ensures false { AboveParent(p, n); }
    }
    assert AboveOrEqual(n, n);
  }

  // Every component of a folder above a clean name is clean too.
  lemma {:induction false} CleanAbove(r: Rules, p: Name, n: Name)
    requires Clean(r, n) && AboveOrEqual(p, n)
    ensures Clean(r, p)
    decreases |n|
  {
    if p != n {
      AboveParent(p, n);
      CleanAbove(r, p, ParentOf(n));
    }
  }

  lemma GoodIsRef(r: Rules, n: Name)
    requires !r.compOk([]) && GoodDestination(r, n)
    ensures IsRef(n)
  {
    ChildOf(REFS, []);
    assert REFS + [SLASH] + [] == REFS_SLASH;
  }

  // One name is a leaf where the other needs a folder.
  predicate Nested(a: Name, b: Name)
  {
    Above(a, b) || Above(b, a)
  }

  // ---- what the callers guarantee

  ghost predicate ContextOk(c: Context)
  {
    && Split(c.keys)
    && !c.rules.compOk([])
    && forall r | r in c.remote :: IsRef(r)
  }

  // What phase 2's first loop establishes and its checks keep.
  ghost predicate ItemsOk(c: Context, items: seq<Item>)
  {
    && (forall i | 0 <= i < |items| && items[i].v.Valid? && !items[i].del ::
          IsRef(items[i].Dst()) && (items[i].create <==> items[i].Dst() !in c.remote))
    && (forall i, j | 0 <= i < j < |items| && items[i].ValidWrite() && items[j].ValidWrite() ::
          items[i].Dst() != items[j].Dst())
  }

  // after is before with some valid entries refused.
  ghost predicate OnlyRefuses(before: seq<Item>, after: seq<Item>)
  {
    && |after| == |before|
    && forall i | 0 <= i < |before| ::
         after[i] == before[i] || (before[i].v.Valid? && after[i].v.Refused? && after[i].(v := Valid) == before[i])
  }

  lemma OnlyRefusesTransitive(a: seq<Item>, b: seq<Item>, c: seq<Item>)
    requires OnlyRefuses(a, b) && OnlyRefuses(b, c)
    ensures OnlyRefuses(a, c)
  {
    forall i | 0 <= i < |a|
      ensures c[i] == a[i] || (a[i].v.Valid? && c[i].v.Refused? && c[i].(v := Valid) == a[i])
    {
      assert b[i] == a[i] || (a[i].v.Valid? && b[i].v.Refused? && b[i].(v := Valid) == a[i]);
      assert c[i] == b[i] || (b[i].v.Valid? && c[i].v.Refused? && c[i].(v := Valid) == b[i]);
    }
  }

  lemma OnlyRefusesKeepsItemsOk(c: Context, before: seq<Item>, after: seq<Item>)
    requires ItemsOk(c, before) && OnlyRefuses(before, after)
    ensures ItemsOk(c, after)
  {
    assert forall i | 0 <= i < |after| && after[i].v.Valid? :: after[i] == before[i];
  }

  // How many entries are still valid.
  function ValidCount(items: seq<Item>): nat
  {
    if items == [] then 0 else (if items[0].v.Valid? then 1 else 0) + ValidCount(items[1..])
  }

  lemma {:induction false} RefusingShrinks(before: seq<Item>, after: seq<Item>)
    requires OnlyRefuses(before, after)
    ensures ValidCount(after) <= ValidCount(before) <= |before|
    ensures after != before ==> ValidCount(after) < ValidCount(before)
  {
    if before != [] {
      assert OnlyRefuses(before[1..], after[1..]) by {
        assert forall i | 0 <= i < |before| - 1 :: before[1..][i] == before[i + 1] && after[1..][i] == after[i + 1];
      }
      RefusingShrinks(before[1..], after[1..]);
      assert before == [before[0]] + before[1..] && after == [after[0]] + after[1..];
    }
  }
}
