/** Unicode Normalization Form D (canon.go, nfd) and canonical equivalence
    (Unicode section 3.11): two names have one NFD exactly when their full
    decompositions differ only by swaps of adjacent non-starters of different
    combining class. */
module Nfd {
  import opened Names
  import opened UnicodeTables

  function Runes(rs: seq<nat>): (n: Name)
    ensures |n| == |rs| && forall i | 0 <= i < |rs| :: n[i] == Rune(rs[i])
  {
    seq(|rs|, i requires 0 <= i < |rs| => Rune(rs[i]))
  }

  // An invalid byte is copied through and counts as a starter.
  function Class(t: Tables, u: Unit): nat
  {
    match u
    case Rune(r) => CombiningClass(t, r)
    case Bad(_) => 0
  }

  function Expand(t: Tables, u: Unit): Name
  {
    match u
    case Bad(_) => [u]
    case Rune(r) =>
      if IsHangul(r) then Runes(Jamo(r))
      else if DecomposeRune(t, r) != [] then Runes(DecomposeRune(t, r))
      else [u]
  }

  // The full canonical decomposition, before reordering.
  function Decompose(t: Tables, s: Name): Name
  {
    if s == [] then [] else Expand(t, s[0]) + Decompose(t, s[1..])
  }

  // u moves right past the non-starters of smaller class at the front of xs.
  function Insert(t: Tables, u: Unit, xs: Name): (ys: Name)
    ensures multiset(ys) == multiset([u]) + multiset(xs)
  {
    if xs != [] && 0 < Class(t, xs[0]) < Class(t, u) then
      var ys := [xs[0]] + Insert(t, u, xs[1..]);
      assert xs == [xs[0]] + xs[1..];
      ys
    else [u] + xs
  }

  // The canonical ordering of section 3.11.
  function Reorder(t: Tables, xs: Name): (ys: Name)
    ensures multiset(ys) == multiset(xs)
  {
    if xs == [] then []
    else
      assert xs == [xs[0]] + xs[1..];
      Insert(t, xs[0], Reorder(t, xs[1..]))
  }

  function NfdOf(t: Tables, s: Name): Name
  {
    Reorder(t, Decompose(t, s))
  }

  // No adjacent pair is out of canonical order.
  ghost predicate Ordered(t: Tables, xs: Name)
  {
    forall i | 0 <= i < |xs| - 1 :: Class(t, xs[i + 1]) == 0 || Class(t, xs[i]) <= Class(t, xs[i + 1])
  }

  ghost predicate Decomposed(t: Tables, xs: Name)
  {
    forall i | 0 <= i < |xs| :: xs[i].Rune? ==> !Decomposable(t, xs[i].cp)
  }

  // ---- equivalence by swaps

  ghost predicate Swappable(t: Tables, xs: Name, i: nat)
  {
    && i + 1 < |xs|
    && Class(t, xs[i]) != 0 && Class(t, xs[i + 1]) != 0
    && Class(t, xs[i]) != Class(t, xs[i + 1])
  }

  ghost function SwapAt(xs: Name, i: nat): Name
    requires i + 1 < |xs|
  {
    xs[i := xs[i + 1]][i + 1 := xs[i]]
  }

  ghost predicate SwapPath(t: Tables, xs: Name, ys: Name, path: seq<nat>)
    decreases path
  {
    if path == [] then xs == ys
    else Swappable(t, xs, path[0]) && SwapPath(t, SwapAt(xs, path[0]), ys, path[1..])
  }

  ghost predicate SwapEquivalent(t: Tables, xs: Name, ys: Name)
  {
    exists path :: SwapPath(t, xs, ys, path)
  }

  lemma SwapPathConcat(t: Tables, xs: Name, ys: Name, zs: Name, p: seq<nat>, q: seq<nat>)
    requires SwapPath(t, xs, ys, p) && SwapPath(t, ys, zs, q)
    ensures SwapPath(t, xs, zs, p + q)
    decreases p
  {
    if p == [] {
      assert p + q == q;
    } else {
      SwapPathConcat(t, SwapAt(xs, p[0]), ys, zs, p[1..], q);
      assert (p + q)[1..] == p[1..] + q;
    }
  }

  lemma SwapTransitive(t: Tables, xs: Name, ys: Name, zs: Name)
    requires SwapEquivalent(t, xs, ys) && SwapEquivalent(t, ys, zs)
    ensures SwapEquivalent(t, xs, zs)
  {
    var p :| SwapPath(t, xs, ys, p);
    var q :| SwapPath(t, ys, zs, q);
    SwapPathConcat(t, xs, ys, zs, p, q);
  }

  lemma SwapReflexive(t: Tables, xs: Name)
    ensures SwapEquivalent(t, xs, xs)
  {
    assert SwapPath(t, xs, xs, []);
  }

  lemma OneSwap(t: Tables, xs: Name, i: nat)
    requires Swappable(t, xs, i)
    ensures SwapEquivalent(t, xs, SwapAt(xs, i))
  {
    assert SwapPath(t, SwapAt(xs, i), SwapAt(xs, i), []);
    assert [i][1..] == [];
    assert SwapPath(t, xs, SwapAt(xs, i), [i]);
  }

  lemma {:induction false} SwapPathSymmetric(t: Tables, xs: Name, ys: Name, path: seq<nat>)
    requires SwapPath(t, xs, ys, path)
    ensures SwapEquivalent(t, ys, xs)
    decreases path
  {
    if path == [] {
      SwapReflexive(t, xs);
    } else {
      var i := path[0];
      var zs := SwapAt(xs, i);
      SwapPathSymmetric(t, zs, ys, path[1..]);
      assert SwapAt(zs, i) == xs;
      OneSwap(t, zs, i);
      SwapTransitive(t, ys, zs, xs);
    }
  }

  lemma SwapSymmetric(t: Tables, xs: Name, ys: Name)
    requires SwapEquivalent(t, xs, ys)
    ensures SwapEquivalent(t, ys, xs)
  {
    var path :| SwapPath(t, xs, ys, path);
    SwapPathSymmetric(t, xs, ys, path);
  }

  lemma {:induction false} SwapPathCons(t: Tables, u: Unit, xs: Name, ys: Name, path: seq<nat>)
    requires SwapPath(t, xs, ys, path)
    ensures SwapEquivalent(t, [u] + xs, [u] + ys)
    decreases path
  {
    if path == [] {
      SwapReflexive(t, [u] + xs);
    } else {
      var i := path[0];
      var zs := SwapAt(xs, i);
      SwapPathCons(t, u, zs, ys, path[1..]);
      assert SwapAt([u] + xs, i + 1) == [u] + zs;
      OneSwap(t, [u] + xs, i + 1);
      SwapTransitive(t, [u] + xs, [u] + zs, [u] + ys);
    }
  }

  lemma SwapCons(t: Tables, u: Unit, xs: Name, ys: Name)
    requires SwapEquivalent(t, xs, ys)
    ensures SwapEquivalent(t, [u] + xs, [u] + ys)
  {
    var path :| SwapPath(t, xs, ys, path);
    SwapPathCons(t, u, xs, ys, path);
  }

  // ---- reordering is reached by swaps

  lemma {:induction false} InsertBySwaps(t: Tables, u: Unit, xs: Name)
    ensures SwapEquivalent(t, [u] + xs, Insert(t, u, xs))
  {
    if xs != [] && 0 < Class(t, xs[0]) < Class(t, u) {
      var zs := [xs[0]] + ([u] + xs[1..]);
      assert SwapAt([u] + xs, 0) == zs;
      OneSwap(t, [u] + xs, 0);
      InsertBySwaps(t, u, xs[1..]);
      SwapCons(t, xs[0], [u] + xs[1..], Insert(t, u, xs[1..]));
      SwapTransitive(t, [u] + xs, zs, Insert(t, u, xs));
    } else {
      SwapReflexive(t, [u] + xs);
    }
  }

  lemma {:induction false} ReorderBySwaps(t: Tables, xs: Name)
    ensures SwapEquivalent(t, xs, Reorder(t, xs))
  {
    if xs == [] {
      SwapReflexive(t, xs);
    } else {
      var tl := Reorder(t, xs[1..]);
      ReorderBySwaps(t, xs[1..]);
      SwapCons(t, xs[0], xs[1..], tl);
      assert xs == [xs[0]] + xs[1..];
      InsertBySwaps(t, xs[0], tl);
      SwapTransitive(t, xs, [xs[0]] + tl, Reorder(t, xs));
    }
  }

  lemma OrderedCons(t: Tables, u: Unit, xs: Name)
    requires Ordered(t, xs)
    requires xs == [] || Class(t, xs[0]) == 0 || Class(t, u) <= Class(t, xs[0])
    ensures Ordered(t, [u] + xs)
  {
    var ys := [u] + xs;
    forall i | 0 <= i < |ys| - 1 ensures Class(t, ys[i + 1]) == 0 || Class(t, ys[i]) <= Class(t, ys[i + 1]) {
      if i > 0 { assert ys[i] == xs[i - 1] && ys[i + 1] == xs[i]; }
    }
  }

  lemma OrderedTail(t: Tables, xs: Name)
    requires Ordered(t, xs) && xs != []
    ensures Ordered(t, xs[1..])
  {
    var ys := xs[1..];
    forall i | 0 <= i < |ys| - 1 ensures Class(t, ys[i + 1]) == 0 || Class(t, ys[i]) <= Class(t, ys[i + 1]) {
      assert ys[i] == xs[i + 1] && ys[i + 1] == xs[i + 2];
    }
  }

  lemma {:induction false} InsertOrdered(t: Tables, u: Unit, xs: Name)
    requires Ordered(t, xs)
    ensures Ordered(t, Insert(t, u, xs))
  {
    if xs != [] && 0 < Class(t, xs[0]) < Class(t, u) {
      OrderedTail(t, xs);
      InsertOrdered(t, u, xs[1..]);
      assert |xs| > 1 ==> xs[1..][0] == xs[1];
      OrderedCons(t, xs[0], Insert(t, u, xs[1..]));
    } else {
      OrderedCons(t, u, xs);
    }
  }

  lemma {:induction false} ReorderOrdered(t: Tables, xs: Name)
    ensures Ordered(t, Reorder(t, xs))
  {
    if xs != [] {
      ReorderOrdered(t, xs[1..]);
      InsertOrdered(t, xs[0], Reorder(t, xs[1..]));
    }
  }

  // Ordered text is a fixed point of reordering.
  lemma {:induction false} ReorderFixed(t: Tables, xs: Name)
    requires Ordered(t, xs)
    ensures Reorder(t, xs) == xs
  {
    if xs != [] {
      OrderedTail(t, xs);
      ReorderFixed(t, xs[1..]);
      assert |xs| > 1 ==> Class(t, xs[0 + 1]) == 0 || Class(t, xs[0]) <= Class(t, xs[0 + 1]);
      assert xs == [xs[0]] + xs[1..];
    }
  }

  // ---- and undoes them

  lemma {:induction false} InsertCommutes(t: Tables, u: Unit, v: Unit, xs: Name)
    requires Class(t, u) != 0 && Class(t, v) != 0 && Class(t, u) != Class(t, v)
    ensures Insert(t, u, Insert(t, v, xs)) == Insert(t, v, Insert(t, u, xs))
    decreases |xs|, if Class(t, u) < Class(t, v) then 1 else 0
  {
    if Class(t, u) < Class(t, v) {
      InsertCommutes(t, v, u, xs);
    } else if xs != [] && 0 < Class(t, xs[0]) < Class(t, v) {
      InsertCommutes(t, u, v, xs[1..]);
      assert ([xs[0]] + Insert(t, v, xs[1..]))[1..] == Insert(t, v, xs[1..]);
      assert ([xs[0]] + Insert(t, u, xs[1..]))[1..] == Insert(t, u, xs[1..]);
    } else {
      assert ([v] + xs)[1..] == xs;
      assert Insert(t, u, [v] + xs) == [v] + Insert(t, u, xs);
    }
  }

  lemma {:induction false} ReorderSwapFirst(t: Tables, xs: Name)
    requires Swappable(t, xs, 0)
    ensures Reorder(t, SwapAt(xs, 0)) == Reorder(t, xs)
  {
    var ys, rest := SwapAt(xs, 0), xs[1..][1..];
    assert ys[1..][1..] == rest;
    InsertCommutes(t, xs[0], xs[1], Reorder(t, rest));
  }

  lemma {:induction false} ReorderSwap(t: Tables, xs: Name, i: nat)
    requires Swappable(t, xs, i)
    ensures Reorder(t, SwapAt(xs, i)) == Reorder(t, xs)
  {
    var ys := SwapAt(xs, i);
    if i == 0 {
      ReorderSwapFirst(t, xs);
    } else {
      assert ys[1..] == SwapAt(xs[1..], i - 1);
      ReorderSwap(t, xs[1..], i - 1);
    }
  }

  lemma {:induction false} ReorderSwapPath(t: Tables, xs: Name, ys: Name, path: seq<nat>)
    requires SwapPath(t, xs, ys, path)
    ensures Reorder(t, xs) == Reorder(t, ys)
    decreases path
  {
    if path != [] {
      ReorderSwap(t, xs, path[0]);
      ReorderSwapPath(t, SwapAt(xs, path[0]), ys, path[1..]);
    }
  }

  // Ordered text reached by swaps is the reordering: canonical order is unique.
  lemma OrderedIsReorder(t: Tables, xs: Name, ys: Name)
    requires SwapEquivalent(t, xs, ys) && Ordered(t, ys)
    ensures ys == Reorder(t, xs)
  {
    var path :| SwapPath(t, xs, ys, path);
    ReorderSwapPath(t, xs, ys, path);
    ReorderFixed(t, ys);
  }

  // One NFD exactly when the decompositions differ by legal swaps.
  lemma NfdDecidesEquivalence(t: Tables, a: Name, b: Name)
    ensures NfdOf(t, a) == NfdOf(t, b) <==> SwapEquivalent(t, Decompose(t, a), Decompose(t, b))
  {
    var x, y := Decompose(t, a), Decompose(t, b);
    ReorderBySwaps(t, x);
    ReorderBySwaps(t, y);
    if NfdOf(t, a) == NfdOf(t, b) {
      SwapSymmetric(t, y, Reorder(t, y));
      SwapTransitive(t, x, Reorder(t, x), y);
    }
    if SwapEquivalent(t, x, y) {
      var path :| SwapPath(t, x, y, path);
      ReorderSwapPath(t, x, y, path);
    }
  }

  // ---- the output is decomposed, ordered and stable

  lemma ExpandDecomposed(t: Tables, u: Unit)
    requires Closed(t)
    ensures Decomposed(t, Expand(t, u))
  {
    if u.Rune? && IsHangul(u.cp) { JamoRoundTrip(u.cp); }
  }

  lemma {:induction false} DecomposeDecomposed(t: Tables, s: Name)
    requires Closed(t)
    ensures Decomposed(t, Decompose(t, s))
  {
    if s != [] {
      ExpandDecomposed(t, s[0]);
      DecomposeDecomposed(t, s[1..]);
    }
  }

  lemma DecomposedMultiset(t: Tables, xs: Name, ys: Name)
    requires Decomposed(t, xs) && multiset(xs) == multiset(ys)
    ensures Decomposed(t, ys)
  {
    forall i | 0 <= i < |ys| ensures ys[i].Rune? ==> !Decomposable(t, ys[i].cp) {
      assert ys[i] in multiset(xs);
    }
  }

  lemma {:induction false} DecomposeFixed(t: Tables, s: Name)
    requires Decomposed(t, s)
    ensures Decompose(t, s) == s
  {
    if s != [] {
      assert forall i | 0 <= i < |s[1..]| :: s[1..][i] == s[i + 1];
      DecomposeFixed(t, s[1..]);
      assert s[0] == s[0 + 0];
      assert s == [s[0]] + s[1..];
    }
  }

  lemma NfdOutput(t: Tables, s: Name)
    requires Closed(t)
    ensures Decomposed(t, NfdOf(t, s)) && Ordered(t, NfdOf(t, s))
  {
    DecomposeDecomposed(t, s);
    DecomposedMultiset(t, Decompose(t, s), NfdOf(t, s));
    ReorderOrdered(t, Decompose(t, s));
  }

  // Decomposed, ordered text is its own NFD.
  lemma NfdFixed(t: Tables, s: Name)
    requires Decomposed(t, s) && Ordered(t, s)
    ensures NfdOf(t, s) == s
  {
    DecomposeFixed(t, s);
    ReorderFixed(t, s);
  }

  lemma NfdIdempotent(t: Tables, s: Name)
    requires Closed(t)
    ensures NfdOf(t, NfdOf(t, s)) == NfdOf(t, s)
  {
    NfdOutput(t, s);
    NfdFixed(t, NfdOf(t, s));
  }

  // ---- a starter is a wall

  lemma {:induction false} InsertBeforeStarter(t: Tables, u: Unit, xs: Name, v: Unit, ys: Name)
    requires Class(t, v) == 0
    ensures Insert(t, u, xs + [v] + ys) == Insert(t, u, xs) + [v] + ys
  {
    if xs != [] {
      assert (xs + [v] + ys)[1..] == xs[1..] + [v] + ys;
      InsertBeforeStarter(t, u, xs[1..], v, ys);
      if 0 < Class(t, xs[0]) < Class(t, u) {
        assert Insert(t, u, xs + [v] + ys) == [xs[0]] + (Insert(t, u, xs[1..]) + [v] + ys);
      } else {
        assert [u] + (xs + [v] + ys) == [u] + xs + [v] + ys;
      }
    } else {
      assert [] + [v] + ys == [v] + ys;
      assert [u] + ([v] + ys) == [u] + [v] + ys;
    }
  }

  lemma InsertStarter(t: Tables, v: Unit, xs: Name)
    requires Class(t, v) == 0
    ensures Insert(t, v, xs) == [v] + xs
  {
  }

  lemma {:induction false} ReorderAtStarter(t: Tables, xs: Name, v: Unit, ys: Name)
    requires Class(t, v) == 0
    ensures Reorder(t, xs + [v] + ys) == Reorder(t, xs) + [v] + Reorder(t, ys)
  {
    if xs == [] {
      assert [] + [v] + ys == [v] + ys && ([v] + ys)[1..] == ys;
      InsertStarter(t, v, Reorder(t, ys));
    } else {
      assert (xs + [v] + ys)[1..] == xs[1..] + [v] + ys;
      ReorderAtStarter(t, xs[1..], v, ys);
      InsertBeforeStarter(t, xs[0], Reorder(t, xs[1..]), v, Reorder(t, ys));
    }
  }

  lemma DecomposeConcat(t: Tables, a: Name, b: Name)
    ensures Decompose(t, a + b) == Decompose(t, a) + Decompose(t, b)
  {
    if a == [] {
      assert a + b == b;
    } else {
      assert (a + b)[1..] == a[1..] + b;
      DecomposeConcat(t, a[1..], b);
    }
  }
}
