/** The streaming form of NFD: output written so far plus a pending run of
    non-starters, sorted in place when a starter closes it (canon.go, nfd). */
module Normalizer {
  import opened Names
  import opened UnicodeTables
  import opened Nfd

  ghost predicate AllMarks(t: Tables, xs: Name)
  {
    forall i | 0 <= i < |xs| :: Class(t, xs[i]) != 0
  }

  ghost predicate Nondecreasing(t: Tables, xs: Name)
  {
    forall i, j | 0 <= i < j < |xs| :: Class(t, xs[i]) <= Class(t, xs[j])
  }

  // The pending text, with the mark being placed written into its gap at j.
  // It is sorted except that everything after the gap is above the mark.
  ghost predicate Placing(t: Tables, xs: Name, i: nat, j: nat)
    requires j <= i < |xs|
  {
    && AllMarks(t, xs)
    && (forall p, q | 0 <= p < q <= i && p != j && q != j :: Class(t, xs[p]) <= Class(t, xs[q]))
    && (forall q | j < q <= i :: Class(t, xs[j]) < Class(t, xs[q]))
  }

  lemma PlacingStep(t: Tables, xs: Name, i: nat, j: nat)
    requires 0 < j <= i < |xs| && Placing(t, xs, i, j)
    requires Class(t, xs[j - 1]) > Class(t, xs[j])
    ensures Swappable(t, xs, j - 1) && Placing(t, SwapAt(xs, j - 1), i, j - 1)
  {
  }

  lemma PlacingDone(t: Tables, xs: Name, i: nat, j: nat)
    requires j <= i < |xs| && Placing(t, xs, i, j)
    requires j == 0 || Class(t, xs[j - 1]) <= Class(t, xs[j])
    ensures Nondecreasing(t, xs[..i + 1])
  {
    var ys := xs[..i + 1];
    forall p, q | 0 <= p < q < |ys| ensures Class(t, ys[p]) <= Class(t, ys[q]) {
      assert ys[p] == xs[p] && ys[q] == xs[q];
      assert q == j && p < j - 1 ==> Class(t, xs[p]) <= Class(t, xs[j - 1]);
    }
  }

  lemma ShiftIsSwap(xs: Name, m: Unit, j: nat)
    requires 0 < j < |xs|
    ensures SwapAt(xs[j := m], j - 1) == xs[j := xs[j - 1]][j - 1 := m]
  {
  }

  // Move the mark at i left past the marks of larger class.
  method PlaceMark(t: Tables, xs: Name, i: nat) returns (marks: Name)
    requires 0 < i < |xs| && AllMarks(t, xs) && Nondecreasing(t, xs[..i])
    ensures AllMarks(t, marks) && |marks| == |xs| && Nondecreasing(t, marks[..i + 1])
    ensures SwapEquivalent(t, xs, marks)
  {
    var m := xs[i];
    var j := i;
    marks := xs;
    ghost var whole := xs;
    SwapReflexive(t, xs);
    assert forall k | 0 <= k < i :: xs[..i][k] == xs[k];
    while j > 0 && Class(t, marks[j - 1]) > Class(t, m)
      invariant 0 <= j <= i < |marks| == |whole| == |xs|
      invariant whole == marks[j := m]
      invariant Placing(t, whole, i, j)
      invariant SwapEquivalent(t, xs, whole)
    {
      PlacingStep(t, whole, i, j);
      ShiftIsSwap(marks, m, j);
      OneSwap(t, whole, j - 1);
      SwapTransitive(t, xs, whole, SwapAt(whole, j - 1));
      marks := marks[j := marks[j - 1]];
      j := j - 1;
      whole := SwapAt(whole, j);
    }
    marks := marks[j := m];
    PlacingDone(t, marks, i, j);
  }

  lemma NondecreasingOrdered(t: Tables, xs: Name)
    requires Nondecreasing(t, xs)
    ensures Ordered(t, xs)
  {
  }

  // The insertion sort of flush, one mark at a time.
  method SortMarks(t: Tables, xs: Name) returns (marks: Name)
    requires AllMarks(t, xs)
    ensures marks == Reorder(t, xs)
  {
    marks := xs;
    SwapReflexive(t, xs);
    var i := 1;
    while i < |marks|
      invariant 1 <= i && |marks| == |xs| && (i <= |xs| || xs == [])
      invariant AllMarks(t, marks) && (i <= |marks| ==> Nondecreasing(t, marks[..i]))
      invariant SwapEquivalent(t, xs, marks)
    {
      var next := PlaceMark(t, marks, i);
      SwapTransitive(t, xs, marks, next);
      marks := next;
      i := i + 1;
    }
    assert marks == [] || marks[..i] == marks;
    NondecreasingOrdered(t, marks);
    OrderedIsReorder(t, xs, marks);
  }

  lemma ReorderSnocStarter(t: Tables, xs: Name, u: Unit)
    requires Class(t, u) == 0
    ensures Reorder(t, xs + [u]) == Reorder(t, xs) + [u]
  {
    ReorderAtStarter(t, xs, u, []);
    assert xs + [u] + [] == xs + [u];
  }

  ghost predicate EndsRun(t: Tables, xs: Name)
  {
    xs == [] || Class(t, xs[|xs| - 1]) == 0
  }

  // A closed run and what follows it reorder separately.
  lemma ReorderAfterRun(t: Tables, xs: Name, ys: Name)
    requires EndsRun(t, xs)
    ensures Reorder(t, xs + ys) == Reorder(t, xs) + Reorder(t, ys)
  {
    if xs == [] {
      assert xs + ys == ys;
    } else {
      var p, u := xs[..|xs| - 1], xs[|xs| - 1];
      assert xs == p + [u];
      ReorderAtStarter(t, p, u, ys);
      ReorderSnocStarter(t, p, u);
    }
  }

  class Buffer {
    const t: Tables
    var b: Name
    var marks: Name
    // What has been closed into b, in input order.
    ghost var closed: Name

    constructor (t: Tables)
      ensures this.t == t && Valid() && Stream() == []
    {
      this.t := t;
      b, marks, closed := [], [], [];
    }

    ghost predicate Valid()
      reads this
    {
      b == Reorder(t, closed) && EndsRun(t, closed) && AllMarks(t, marks)
    }

    // Everything emitted so far, before reordering.
    ghost function Stream(): Name
      reads this
    {
      closed + marks
    }

    method Flush()
      requires AllMarks(t, marks)
      modifies this`b, this`marks
      ensures marks == [] && b == old(b) + Reorder(t, old(marks))
    {
      var sorted := SortMarks(t, marks);
      b := b + sorted;
      marks := [];
    }

    // Close the pending run and write a starter.
    method WriteStarter(u: Unit)
      requires Valid() && Class(t, u) == 0
      modifies this
      ensures Valid() && Stream() == old(Stream()) + [u]
    {
      ghost var all := closed + marks;
      ReorderAfterRun(t, closed, marks);
      ReorderSnocStarter(t, all, u);
      Flush();
      b := b + [u];
      closed := all + [u];
    }

    method Emit(u: Unit)
      requires Valid()
      modifies this
      ensures Valid() && Stream() == old(Stream()) + [u]
    {
      if Class(t, u) != 0 {
        marks := marks + [u];
        assert Stream() == old(Stream()) + [u];
      } else {
        WriteStarter(u);
      }
    }

    method EmitAll(rs: seq<nat>)
      requires Valid()
      modifies this
      ensures Valid() && Stream() == old(Stream()) + Runes(rs)
    {
      var i := 0;
      while i < |rs|
        invariant 0 <= i <= |rs| && Valid()
        invariant Stream() == old(Stream()) + Runes(rs)[..i]
      {
        Emit(Rune(rs[i]));
        assert Runes(rs)[..i + 1] == Runes(rs)[..i] + [Rune(rs[i])];
        i := i + 1;
      }
      assert Runes(rs)[..i] == Runes(rs);
    }

    // One input unit.
    method Take(u: Unit)
      requires Valid()
      modifies this
      ensures Valid() && Stream() == old(Stream()) + Expand(t, u)
    {
      match u {
        case Bad(_) => WriteStarter(u);
        case Rune(r) =>
          if IsHangul(r) {
            EmitAll(Jamo(r));
          } else if DecomposeRune(t, r) != [] {
            EmitAll(DecomposeRune(t, r));
          } else {
            Emit(u);
          }
      }
    }
  }

  lemma DecomposeSnoc(t: Tables, s: Name, i: nat)
    requires i < |s|
    ensures Decompose(t, s[..i + 1]) == Decompose(t, s[..i]) + Expand(t, s[i])
  {
    assert s[..i + 1] == s[..i] + [s[i]];
    DecomposeConcat(t, s[..i], [s[i]]);
    assert Decompose(t, [s[i]]) == Expand(t, s[i]) + Decompose(t, []);
    assert Decompose(t, [s[i]]) == Expand(t, s[i]);
  }

  method Normalize(t: Tables, s: Name) returns (r: Name)
    ensures r == NfdOf(t, s)
  {
    var buf := new Buffer(t);
    var i := 0;
    while i < |s|
      invariant 0 <= i <= |s| && fresh(buf) && buf.t == t
      invariant buf.Valid() && buf.Stream() == Decompose(t, s[..i])
    {
      DecomposeSnoc(t, s, i);
      buf.Take(s[i]);
      i := i + 1;
    }
    assert s[..i] == s;
    ReorderAfterRun(t, buf.closed, buf.marks);
    buf.Flush();
    r := buf.b;
  }
}
