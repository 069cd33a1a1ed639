/** NFD against canonical equivalence itself, said of the tables alone: the
    equivalence generated by replacing a character by its mapping, a Hangul
    syllable by its jamo, and two adjacent marks of different class by each
    other (sections 3.7, 3.11 and 3.12 of the Unicode Standard). */
module Canonical {
  import opened Names
  import opened UnicodeTables
  import opened Nfd
  import opened Keys

  // The jamo of syllable r, by the arithmetic of section 3.12.
  predicate IsJamoOf(js: seq<nat>, r: nat)
  {
    && 2 <= |js| <= 3 && 0x1100 <= js[0] <= 0x1112 && 0x1161 <= js[1] <= 0x1175
    && (|js| == 3 ==> 0x11A8 <= js[2] <= 0x11C2)
    && r == 0xAC00 + ((js[0] - 0x1100) * 21 + (js[1] - 0x1161)) * 28 + (if |js| == 3 then js[2] - 0x11A7 else 0)
  }

  predicate IsSyllable(r: nat)
  {
    0xAC00 <= r <= 0xD7A3
  }

  // r is written as ms.
  ghost predicate MapsTo(t: Tables, r: nat, ms: seq<nat>)
  {
    if IsSyllable(r) then IsJamoOf(ms, r) else r in t.decomp && t.decomp[r] == ms && ms != []
  }

  ghost predicate Unmapped(t: Tables, r: nat)
  {
    !IsSyllable(r) && (r in t.decomp ==> t.decomp[r] == [])
  }

  // Text of code points.
  ghost predicate Spells(n: Name, ms: seq<nat>)
  {
    |n| == |ms| && forall i | 0 <= i < |ms| :: n[i] == Rune(ms[i])
  }

  // The two ways in which x and y are the same text.
  ghost predicate Same(t: Tables, x: Name, y: Name)
  {
    || (exists r, ms :: x == [Rune(r)] && MapsTo(t, r, ms) && Spells(y, ms))
    || (exists a, b :: x == [Rune(a), Rune(b)] && y == [Rune(b), Rune(a)] && Unmapped(t, a) && Unmapped(t, b)
                       && a in t.ccc && b in t.ccc && t.ccc[a] != 0 && t.ccc[b] != 0 && t.ccc[a] != t.ccc[b])
  }

  ghost predicate RewritesAt(t: Tables, a: Name, b: Name, p: Name, x: Name, y: Name, q: Name)
  {
    a == p + x + q && b == p + y + q && Same(t, x, y)
  }

  ghost predicate Rewrites(t: Tables, a: Name, b: Name)
  {
    exists p, x, y, q :: RewritesAt(t, a, b, p, x, y, q)
  }

  ghost predicate Adjacent(t: Tables, a: Name, b: Name)
  {
    a == b || Rewrites(t, a, b) || Rewrites(t, b, a)
  }

  ghost predicate IsChain(t: Tables, c: seq<Name>)
  {
    |c| > 0 && forall i | 0 <= i < |c| - 1 :: Adjacent(t, c[i], c[i + 1])
  }

  // Canonical equivalence.
  ghost predicate Equivalent(t: Tables, a: Name, b: Name)
  {
    exists c :: IsChain(t, c) && c[0] == a && c[|c| - 1] == b
  }

  // ---- it is an equivalence, and holds within any text

  lemma Step(t: Tables, a: Name, b: Name)
    requires Adjacent(t, a, b)
    ensures Equivalent(t, a, b)
  {
    assert IsChain(t, [a, b]);
  }

  lemma Transitive(t: Tables, a: Name, b: Name, d: Name)
    requires Equivalent(t, a, b) && Equivalent(t, b, d)
    ensures Equivalent(t, a, d)
  {
    var c :| IsChain(t, c) && c[0] == a && c[|c| - 1] == b;
    var e :| IsChain(t, e) && e[0] == b && e[|e| - 1] == d;
    var f := c + e;
    forall i | 0 <= i < |f| - 1 ensures Adjacent(t, f[i], f[i + 1]) {
      if i < |c| - 1 { assert Adjacent(t, c[i], c[i + 1]); }
      if i >= |c| { assert Adjacent(t, e[i - |c|], e[i - |c| + 1]); }
    }
    assert IsChain(t, f);
  }

  lemma Symmetric(t: Tables, a: Name, b: Name)
    requires Equivalent(t, a, b)
    ensures Equivalent(t, b, a)
  {
    var c :| IsChain(t, c) && c[0] == a && c[|c| - 1] == b;
    var d := seq(|c|, i requires 0 <= i < |c| => c[|c| - 1 - i]);
    forall i | 0 <= i < |d| - 1 ensures Adjacent(t, d[i], d[i + 1]) {
      assert Adjacent(t, c[|c| - 2 - i], c[|c| - 1 - i]);
    }
    assert IsChain(t, d);
  }

  lemma Regroup(p: Name, p': Name, x: Name, q': Name, q: Name)
    ensures p + (p' + x + q') + q == (p + p') + x + (q' + q)
  {
  }

  lemma StepWithin(t: Tables, a: Name, b: Name, p: Name, q: Name)
    requires Rewrites(t, a, b)
    ensures Rewrites(t, p + a + q, p + b + q)
  {
    var p', x, y, q' :| RewritesAt(t, a, b, p', x, y, q');
    Regroup(p, p', x, q', q);
    Regroup(p, p', y, q', q);
    assert RewritesAt(t, p + a + q, p + b + q, p + p', x, y, q' + q);
  }

  lemma Within(t: Tables, a: Name, b: Name, p: Name, q: Name)
    requires Equivalent(t, a, b)
    ensures Equivalent(t, p + a + q, p + b + q)
  {
    var c :| IsChain(t, c) && c[0] == a && c[|c| - 1] == b;
    var d := seq(|c|, i requires 0 <= i < |c| => p + c[i] + q);
    forall i | 0 <= i < |d| - 1 ensures Adjacent(t, d[i], d[i + 1]) {
      assert Adjacent(t, c[i], c[i + 1]);
      if Rewrites(t, c[i], c[i + 1]) { StepWithin(t, c[i], c[i + 1], p, q); }
      if Rewrites(t, c[i + 1], c[i]) { StepWithin(t, c[i + 1], c[i], p, q); }
    }
    assert IsChain(t, d);
  }

  // ---- every text is equivalent to its NFD

  lemma JamoIs(r: nat)
    requires IsHangul(r)
    ensures IsJamoOf(Jamo(r), r)
  {
    JamoRoundTrip(r);
  }

  lemma JamoOnly(js: seq<nat>, r: nat)
    requires IsJamoOf(js, r)
    ensures IsHangul(r) && Jamo(r) == js
  {
    var l, v, x := js[0] - 0x1100, js[1] - 0x1161, if |js| == 3 then js[2] - 0x11A7 else 0;
    var si := r - SBASE;
    assert si == (l * 21 + v) * 28 + x && 0 <= x < 28 && 0 <= v < 21 && 0 <= l < 19;
    assert si == l * 588 + (v * 28 + x) && 0 <= v * 28 + x < 588;
    assert si / 588 == l && si % 588 == v * 28 + x;
    assert (v * 28 + x) / 28 == v && si % 28 == x;
  }

  lemma MapsIff(t: Tables, r: nat, y: Name)
    ensures (exists ms :: MapsTo(t, r, ms) && Spells(y, ms)) <==> Decomposable(t, r) && y == Expand(t, Rune(r))
    ensures Unmapped(t, r) <==> !Decomposable(t, r)
  {
    if ms :| MapsTo(t, r, ms) && Spells(y, ms) {
      if IsSyllable(r) { JamoOnly(ms, r); }
      assert y == Runes(ms);
    }
    if Decomposable(t, r) && y == Expand(t, Rune(r)) {
      if IsHangul(r) { JamoIs(r); }
      var ms := if IsHangul(r) then Jamo(r) else t.decomp[r];
      assert MapsTo(t, r, ms) && Spells(y, ms);
    }
  }

  lemma ExpandIsSame(t: Tables, u: Unit)
    ensures Equivalent(t, [u], Expand(t, u))
  {
    if u.Rune? && Decomposable(t, u.cp) {
      MapsIff(t, u.cp, Expand(t, u));
      var ms :| MapsTo(t, u.cp, ms) && Spells(Expand(t, u), ms);
      assert Same(t, [u], Expand(t, u));
      assert [] + [u] + [] == [u] && [] + Expand(t, u) + [] == Expand(t, u);
      assert RewritesAt(t, [u], Expand(t, u), [], [u], Expand(t, u), []);
    }
    Step(t, [u], Expand(t, u));
  }

  lemma {:induction false} DecomposeIsSame(t: Tables, s: Name)
    ensures Equivalent(t, s, Decompose(t, s))
  {
    if s == [] {
      Step(t, s, s);
    } else {
      DecomposeIsSame(t, s[1..]);
      ExpandIsSame(t, s[0]);
      SameBeside(t, [s[0]], Expand(t, s[0]), s[1..], Decompose(t, s[1..]));
      assert [s[0]] + s[1..] == s;
    }
  }

  lemma SameBeside(t: Tables, a: Name, x: Name, b: Name, y: Name)
    requires Equivalent(t, a, x) && Equivalent(t, b, y)
    ensures Equivalent(t, a + b, x + y)
  {
    Within(t, b, y, a, []);
    assert a + b + [] == a + b && a + y + [] == a + y;
    Within(t, a, x, [], y);
    assert [] + a + y == a + y && [] + x + y == x + y;
    Transitive(t, a + b, a + y, x + y);
  }

  // A legal swap of decomposed text is a rewriting, and the other way round.
  lemma SwapIsSame(t: Tables, xs: Name, i: nat)
    requires Decomposed(t, xs) && Swappable(t, xs, i)
    ensures Rewrites(t, xs, SwapAt(xs, i)) && Decomposed(t, SwapAt(xs, i))
  {
    var x, y := [xs[i], xs[i + 1]], [xs[i + 1], xs[i]];
    MapsIff(t, xs[i].cp, []);
    MapsIff(t, xs[i + 1].cp, []);
    assert Same(t, x, y);
    assert xs == xs[..i] + x + xs[i + 2..] && SwapAt(xs, i) == xs[..i] + y + xs[i + 2..];
    assert RewritesAt(t, xs, SwapAt(xs, i), xs[..i], x, y, xs[i + 2..]);
  }

  lemma {:induction false} SwapsAreSame(t: Tables, xs: Name, ys: Name, path: seq<nat>)
    requires Decomposed(t, xs) && SwapPath(t, xs, ys, path)
    ensures Equivalent(t, xs, ys)
    decreases path
  {
    if path == [] {
      Step(t, xs, ys);
    } else {
      var zs := SwapAt(xs, path[0]);
      SwapIsSame(t, xs, path[0]);
      Step(t, xs, zs);
      SwapsAreSame(t, zs, ys, path[1..]);
      Transitive(t, xs, zs, ys);
    }
  }

  lemma NfdIsSame(t: Tables, s: Name)
    requires Closed(t)
    ensures Equivalent(t, s, NfdOf(t, s))
  {
    DecomposeIsSame(t, s);
    DecomposeDecomposed(t, s);
    ReorderBySwaps(t, Decompose(t, s));
    var path :| SwapPath(t, Decompose(t, s), NfdOf(t, s), path);
    SwapsAreSame(t, Decompose(t, s), NfdOf(t, s), path);
    Transitive(t, s, Decompose(t, s), NfdOf(t, s));
  }

  // ---- equivalent texts share their NFD

  lemma DecomposeOne(t: Tables, u: Unit)
    ensures Decompose(t, [u]) == Expand(t, u)
  {
    assert Decompose(t, [u]) == Expand(t, u) + Decompose(t, []);
  }

  lemma DecomposeAround(t: Tables, p: Name, x: Name, q: Name)
    ensures Decompose(t, p + x + q) == Decompose(t, p) + Decompose(t, x) + Decompose(t, q)
  {
    DecomposeConcat(t, p + x, q);
    DecomposeConcat(t, p, x);
  }

  lemma MappingKeepsNfd(t: Tables, r: nat, ms: seq<nat>, y: Name, p: Name, q: Name)
    requires Closed(t) && MapsTo(t, r, ms) && Spells(y, ms)
    ensures NfdOf(t, p + [Rune(r)] + q) == NfdOf(t, p + y + q)
  {
    MapsIff(t, r, y);
    ExpandDecomposed(t, Rune(r));
    DecomposeOne(t, Rune(r));
    DecomposeFixed(t, y);
    DecomposeAround(t, p, [Rune(r)], q);
    DecomposeAround(t, p, y, q);
  }

  lemma SwapKeepsNfd(t: Tables, a: nat, b: nat, p: Name, q: Name)
    requires Unmapped(t, a) && Unmapped(t, b) && a in t.ccc && b in t.ccc
    requires t.ccc[a] != 0 && t.ccc[b] != 0 && t.ccc[a] != t.ccc[b]
    ensures NfdOf(t, p + [Rune(a), Rune(b)] + q) == NfdOf(t, p + [Rune(b), Rune(a)] + q)
  {
    var x, y := [Rune(a), Rune(b)], [Rune(b), Rune(a)];
    MapsIff(t, a, []);
    MapsIff(t, b, []);
    DecomposeFixed(t, x);
    DecomposeFixed(t, y);
    DecomposeAround(t, p, x, q);
    DecomposeAround(t, p, y, q);
    SwapInMiddle(t, Decompose(t, p), Rune(a), Rune(b), Decompose(t, q));
  }

  lemma SwapInMiddle(t: Tables, p: Name, u: Unit, v: Unit, q: Name)
    requires Class(t, u) != 0 && Class(t, v) != 0 && Class(t, u) != Class(t, v)
    ensures Reorder(t, p + [u, v] + q) == Reorder(t, p + [v, u] + q)
  {
    var xs := p + [u, v] + q;
    Middle(p, u, v, q);
    ReorderSwap(t, xs, |p|);
  }

  lemma Middle(p: Name, u: Unit, v: Unit, q: Name)
    ensures var xs := p + [u, v] + q;
      |p| + 1 < |xs| && xs[|p|] == u && xs[|p| + 1] == v && SwapAt(xs, |p|) == p + [v, u] + q
  {
    var xs, ys := p + [u, v] + q, p + [v, u] + q;
    assert |xs| == |ys| == |p| + 2 + |q|;
    forall k | 0 <= k < |xs| ensures SwapAt(xs, |p|)[k] == ys[k] {
      if k >= |p| + 2 { assert xs[k] == q[k - |p| - 2] == ys[k]; }
    }
  }

  lemma RewriteKeepsNfd(t: Tables, a: Name, b: Name)
    requires Closed(t) && Rewrites(t, a, b)
    ensures NfdOf(t, a) == NfdOf(t, b)
  {
    var p, x, y, q :| RewritesAt(t, a, b, p, x, y, q);
    if r, ms :| x == [Rune(r)] && MapsTo(t, r, ms) && Spells(y, ms) {
      MappingKeepsNfd(t, r, ms, y, p, q);
    } else {
      var c, d :| x == [Rune(c), Rune(d)] && y == [Rune(d), Rune(c)] && Unmapped(t, c) && Unmapped(t, d)
        && c in t.ccc && d in t.ccc && t.ccc[c] != 0 && t.ccc[d] != 0 && t.ccc[c] != t.ccc[d];
      SwapKeepsNfd(t, c, d, p, q);
    }
  }

  lemma {:induction false} ChainKeepsNfd(t: Tables, c: seq<Name>, i: nat)
    requires Closed(t) && IsChain(t, c) && i < |c|
    ensures NfdOf(t, c[i]) == NfdOf(t, c[0])
  {
    if i > 0 {
      ChainKeepsNfd(t, c, i - 1);
      assert Adjacent(t, c[i - 1], c[i - 1 + 1]);
      if Rewrites(t, c[i - 1], c[i]) { RewriteKeepsNfd(t, c[i - 1], c[i]); }
      if Rewrites(t, c[i], c[i - 1]) { RewriteKeepsNfd(t, c[i], c[i - 1]); }
    }
  }

  // The normal form decides canonical equivalence: two texts share it exactly
  // when they are equivalent.
  lemma NfdDecides(t: Tables, a: Name, b: Name)
    requires Closed(t)
    ensures NfdOf(t, a) == NfdOf(t, b) <==> Equivalent(t, a, b)
  {
    if NfdOf(t, a) == NfdOf(t, b) {
      NfdIsSame(t, a);
      NfdIsSame(t, b);
      Symmetric(t, b, NfdOf(t, b));
      Transitive(t, a, NfdOf(t, a), b);
    }
    if Equivalent(t, a, b) {
      var c :| IsChain(t, c) && c[0] == a && c[|c| - 1] == b;
      ChainKeepsNfd(t, c, |c| - 1);
    }
  }

  // And it is a normal form: equivalent to the text, with nothing in it that
  // has a mapping and no mark after one of a higher class.
  lemma NfdIsNormal(t: Tables, s: Name)
    requires Closed(t)
    ensures Equivalent(t, s, NfdOf(t, s))
    ensures forall i | 0 <= i < |NfdOf(t, s)| && NfdOf(t, s)[i].Rune? :: Unmapped(t, NfdOf(t, s)[i].cp)
    ensures forall i, a, b | 0 <= i < |NfdOf(t, s)| - 1 && NfdOf(t, s)[i] == Rune(a) && NfdOf(t, s)[i + 1] == Rune(b) ::
      a in t.ccc && b in t.ccc && t.ccc[b] != 0 ==> t.ccc[a] <= t.ccc[b]
  {
    var n := NfdOf(t, s);
    NfdIsSame(t, s);
    NfdOutput(t, s);
    forall i | 0 <= i < |n| && n[i].Rune? ensures Unmapped(t, n[i].cp) { MapsIff(t, n[i].cp, []); }
    forall i, a, b | 0 <= i < |n| - 1 && n[i] == Rune(a) && n[i + 1] == Rune(b)
      ensures a in t.ccc && b in t.ccc && t.ccc[b] != 0 ==> t.ccc[a] <= t.ccc[b]
    {
      assert Class(t, n[i + 1]) == 0 || Class(t, n[i]) <= Class(t, n[i + 1]);
    }
  }

  // ---- what the normal form and the keys are made of

  // A mapped character becomes exactly the characters of its mapping, a
  // syllable its jamo; anything else stays as it is.
  lemma NfdOfOne(t: Tables, r: nat, ms: seq<nat>)
    ensures MapsTo(t, r, ms) ==> multiset(NfdOf(t, [Rune(r)])) == multiset(Runes(ms))
    ensures Unmapped(t, r) ==> NfdOf(t, [Rune(r)]) == [Rune(r)]
  {
    DecomposeOne(t, Rune(r));
    MapsIff(t, r, Runes(ms));
  }

  lemma NfdOfByte(t: Tables, byte: nat)
    ensures NfdOf(t, [Bad(byte)]) == [Bad(byte)]
  {
    DecomposeOne(t, Bad(byte));
  }

  // Nothing is lost or made up where two texts meet.
  lemma NfdOfBoth(t: Tables, a: Name, b: Name)
    ensures multiset(NfdOf(t, a + b)) == multiset(NfdOf(t, a)) + multiset(NfdOf(t, b))
  {
    DecomposeConcat(t, a, b);
  }

  // Equivalent names have one canonical key.
  lemma EquivalentShareKey(t: Tables, a: Name, b: Name)
    requires Closed(t) && Equivalent(t, a, b)
    ensures KeysOf(t).canonOf(a) == KeysOf(t).canonOf(b)
  {
    NfdDecides(t, a, b);
  }

  // Both keys fold unit by unit, the canonical one after decomposition.
  lemma KeysFold(t: Tables, s: Name, i: nat)
    ensures |KeysOf(t).caseOf(s)| == |s| && |KeysOf(t).canonOf(s)| == |NfdOf(t, s)|
    ensures i < |s| ==> FoldsTo(t, s[i], KeysOf(t).caseOf(s)[i])
    ensures i < |NfdOf(t, s)| ==> FoldsTo(t, NfdOf(t, s)[i], KeysOf(t).canonOf(s)[i])
  {
  }

  ghost predicate FoldsTo(t: Tables, u: Unit, v: Unit)
  {
    match u
    case Bad(_) => v == u
    case Rune(r) => v == if r in t.fold then Rune(t.fold[r]) else u
  }
}
