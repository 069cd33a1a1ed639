/** Ref names and the string facts everything else rests on.

    A name is a sequence of units, each a decoded code point or one byte that
    is not part of valid UTF-8. Remote paths are names relative to the
    repository root. */
module Names {

  datatype Unit = Rune(cp: nat) | Bad(byte: nat)

  type Name = seq<Unit>

  const SLASH := Rune(0x2F)

  // The text of an ASCII literal as units.
  function Ascii(s: string): (n: Name)
    ensures |n| == |s|
    ensures forall i | 0 <= i < |s| :: n[i] == Rune(s[i] as nat)
  {
    seq(|s|, i requires 0 <= i < |s| => Rune(s[i] as nat))
  }

  const REFS := Ascii("refs")
  const REFS_HEADS := Ascii("refs/heads")
  const REFS_TAGS := Ascii("refs/tags")

  // "p/" is a prefix of "n": n lies somewhere beneath the folder p.
  predicate Above(p: Name, n: Name)
  {
    p + [SLASH] <= n
  }

  predicate AboveOrEqual(p: Name, n: Name)
  {
    p == n || Above(p, n)
  }

  lemma AboveTransitive(a: Name, b: Name, c: Name)
    requires AboveOrEqual(a, b) && AboveOrEqual(b, c)
    ensures AboveOrEqual(a, c)
    ensures Above(a, b) || Above(b, c) ==> Above(a, c)
  {
  }

  lemma AboveIsStrict(a: Name, b: Name)
    requires Above(a, b)
    ensures a != b && |a| < |b| && !AboveOrEqual(b, a)
  {
  }

  // Two folders on the way to one name are nested.
  lemma AboveComparable(a: Name, b: Name, n: Name)
    requires AboveOrEqual(a, n) && AboveOrEqual(b, n)
    ensures AboveOrEqual(a, b) || Above(b, a)
  {
    assert a == n[..|a|] && b == n[..|b|];
    if |a| < |b| {
      assert n[|a|] == SLASH;
      assert a + [SLASH] == b[..|a| + 1];
    } else if |b| < |a| {
      assert n[|b|] == SLASH;
      assert b + [SLASH] == a[..|b| + 1];
    }
  }

  // Everything before the last '/', or the empty name when there is none.
  function ParentOf(n: Name): (p: Name)
    ensures |p| <= |n|
    ensures n != [] ==> |p| < |n|
    ensures SLASH in n ==> Above(p, n) && forall k | |p| < k < |n| :: n[k] != SLASH
    ensures SLASH !in n ==> p == []
  {
    if n == [] then []
    else if n[|n| - 1] == SLASH then
      assert n == n[..|n| - 1] + [SLASH];
      n[..|n| - 1]
    else
      var init := n[..|n| - 1];
      assert n == init + [n[|n| - 1]];
      var p := ParentOf(init);
      assert SLASH in n <==> SLASH in init;
      p
  }

  // The last path component.
  function LeafOf(n: Name): (c: Name)
    ensures SLASH !in c
    ensures SLASH in n ==> n == ParentOf(n) + [SLASH] + c
  {
    if SLASH in n then
      var c := n[|ParentOf(n)| + 1..];
      assert forall k | 0 <= k < |c| :: c[k] == n[|ParentOf(n)| + 1 + k];
      c
    else n
  }

  // A folder strictly above n is its parent or above its parent.
  lemma AboveParent(p: Name, n: Name)
    requires Above(p, n)
    ensures SLASH in n && AboveOrEqual(p, ParentOf(n))
  {
    assert n[|p|] == SLASH;
    var q := ParentOf(n);
    AboveComparable(p, q, n);
  }

  lemma ChildOf(dir: Name, leaf: Name)
    requires SLASH !in leaf
    ensures ParentOf(dir + [SLASH] + leaf) == dir
    ensures LeafOf(dir + [SLASH] + leaf) == leaf
  {
    var n := dir + [SLASH] + leaf;
    assert n[|dir|] == SLASH;
    assert dir + [SLASH] <= n;
    AboveParent(dir, n);
    var q := ParentOf(n);
    assert n[|q|] == SLASH;
    assert forall k | |dir| < k < |n| :: n[k] == leaf[k - |dir| - 1];
  }

  // ---- order

  predicate UnitLess(a: Unit, b: Unit)
  {
    match (a, b)
    case (Rune(x), Rune(y)) => x < y
    case (Bad(x), Bad(y)) => x < y
    case (Rune(_), Bad(_)) => true
    case (Bad(_), Rune(_)) => false
  }

  predicate Less(a: Name, b: Name)
  {
    b != [] &&
    (a == [] || UnitLess(a[0], b[0]) || (a[0] == b[0] && Less(a[1..], b[1..])))
  }

  // Code points by value, then invalid bytes by value.
  function Rank(u: Unit): (bool, nat)
  {
    match u
    case Rune(cp) => (false, cp)
    case Bad(byte) => (true, byte)
  }

  // The order of two names is that of the first units in which they differ; a
  // name goes before those it is the beginning of.
  lemma {:induction false} LessIff(a: Name, b: Name)
    ensures Less(a, b) <==> exists i :: FirstDiffers(a, b, i)
  {
    if Less(a, b) {
      if a == [] {
        assert FirstDiffers(a, b, 0);
      } else if a[0] != b[0] {
        assert a[..0] == b[..0];
        assert FirstDiffers(a, b, 0);
      } else {
        LessIff(a[1..], b[1..]);
        var i :| FirstDiffers(a[1..], b[1..], i);
        assert a[..i + 1] == [a[0]] + a[1..][..i] && b[..i + 1] == [b[0]] + b[1..][..i];
        assert FirstDiffers(a, b, i + 1);
      }
    }
    if i :| FirstDiffers(a, b, i) {
      if i > 0 {
        LessIff(a[1..], b[1..]);
        assert a[0] == a[..i][0] == b[..i][0] == b[0];
        assert a[1..][..i - 1] == a[..i][1..] && b[1..][..i - 1] == b[..i][1..];
        assert FirstDiffers(a[1..], b[1..], i - 1);
      }
    }
  }

  ghost predicate FirstDiffers(a: Name, b: Name, i: int)
  {
    && 0 <= i <= |a| && i < |b| && a[..i] == b[..i]
    && (i < |a| ==> (!Rank(a[i]).0 && Rank(b[i]).0) || (Rank(a[i]).0 == Rank(b[i]).0 && Rank(a[i]).1 < Rank(b[i]).1))
  }

  lemma LessTotal(a: Name, b: Name)
    ensures a == b || Less(a, b) || Less(b, a)
    ensures !(Less(a, b) && Less(b, a))
    ensures !Less(a, a)
  {
    if a != [] && b != [] {
      LessTotal(a[1..], b[1..]);
      assert a == [a[0]] + a[1..] && b == [b[0]] + b[1..];
    }
    if a != [] { LessTotal(a[1..], a[1..]); }
  }

  lemma LessTransitive(a: Name, b: Name, c: Name)
    requires Less(a, b) && Less(b, c)
    ensures Less(a, c)
  {
    if a != [] && a[0] == b[0] && b[0] == c[0] {
      LessTransitive(a[1..], b[1..], c[1..]);
    }
  }

  predicate IsMin(m: Name, s: set<Name>)
  {
    m in s && forall o | o in s :: o == m || Less(m, o)
  }

  lemma MinExists(s: set<Name>) returns (m: Name)
    requires s != {}
    ensures IsMin(m, s)
  {
    var x :| x in s;
    if s == {x} {
      m := x;
    } else {
      var m' := MinExists(s - {x});
      LessTotal(x, m');
      m := if Less(x, m') then x else m';
      forall o | o in s && o != m ensures Less(m, o) {
        if m == x && o != m' { LessTransitive(x, m', o); }
      }
    }
  }

  lemma MinUnique(s: set<Name>, m: Name, n: Name)
    requires IsMin(m, s) && IsMin(n, s)
    ensures m == n
  {
    LessTotal(m, n);
  }

  // The smallest name of a non-empty set.
  function MinName(s: set<Name>): (m: Name)
    requires s != {}
    ensures IsMin(m, s)
  {
    assert exists m :: IsMin(m, s) by {
      var w := MinExists(s);
    }
    assert forall m, n | IsMin(m, s) && IsMin(n, s) :: m == n by {
      forall m, n | IsMin(m, s) && IsMin(n, s) ensures m == n { MinUnique(s, m, n); }
    }
    var m :| m in s && IsMin(m, s);
    m
  }

  ghost predicate SortedBy(q: seq<Name>)
  {
    forall i, j | 0 <= i < j < |q| :: Less(q[i], q[j])
  }

  // The members of s, each once, in increasing order.
  function SortedNames(s: set<Name>): (q: seq<Name>)
    ensures SortedBy(q)
    ensures forall n :: n in q <==> n in s
  {
    if s == {} then []
    else
      var m := MinName(s);
      [m] + SortedNames(s - {m})
  }

  // The first of a sorted sequence is the least of its members.
  lemma SortedHead(p: seq<Name>)
    requires SortedBy(p) && p != []
    ensures IsMin(p[0], set n | n in p)
    ensures forall n :: n in p[1..] <==> n in p && n != p[0]
  {
    LessTotal(p[0], p[0]);
    forall n | n in p ensures n == p[0] || (Less(p[0], n) && n in p[1..]) {
      var j :| 0 <= j < |p| && p[j] == n;
      if j > 0 { assert p[1..][j - 1] == n; }
    }
    forall n | n in p[1..] ensures n in p && Less(p[0], n) {
      var j :| 0 <= j < |p[1..]| && p[1..][j] == n;
      assert p[j + 1] == n;
    }
  }

  lemma SortedUnique(p: seq<Name>, q: seq<Name>)
    requires SortedBy(p) && SortedBy(q)
    requires forall n :: n in p <==> n in q
    ensures p == q
  {
    assert p == [] <==> q == [] by {
      if p != [] { assert p[0] in p; }
      if q != [] { assert q[0] in q; }
    }
    if p != [] {
      SortedHead(p);
      SortedHead(q);
      assert (set n | n in p) == (set n | n in q);
      MinUnique((set n | n in p), p[0], q[0]);
      assert p == [p[0]] + p[1..] && q == [q[0]] + q[1..];
      SortedUnique(p[1..], q[1..]);
    }
  }

  // Sorting by repeated selection, as the source's sorted result slices.
  method SortNames(s: set<Name>) returns (q: seq<Name>)
    ensures q == SortedNames(s)
  {
    q := [];
    var rest := s;
    while rest != {}
      invariant q + SortedNames(rest) == SortedNames(s)
      decreases rest
    {
      var m := MinName(rest);
      SortedStep(q, rest);
      q := q + [m];
      rest := rest - {m};
    }
  }

  lemma SortedStep(q: seq<Name>, rest: set<Name>)
    requires rest != {}
    ensures var m := MinName(rest); q + SortedNames(rest) == q + [m] + SortedNames(rest - {m})
  {
    var m := MinName(rest);
    assert SortedNames(rest) == [m] + SortedNames(rest - {m});
  }

  // ---- the component chains of a ref below refs/

  const REFS_SLASH := REFS + [SLASH]

  // The part of a ref below "refs/", or empty for a name outside it.
  function Below(ref: Name): Name
  {
    if REFS_SLASH <= ref then ref[|REFS_SLASH|..] else []
  }

  // "a/b/c" gives "a", "a/b", "a/b/c": every cut at a '/', then the whole.
  function Chains(rest: Name): (ps: seq<Name>)
    requires rest != []
    ensures |ps| > 0
  {
    ChainsFrom(rest, 0)
  }

  function ChainsFrom(rest: Name, i: nat): (ps: seq<Name>)
    requires i <= |rest|
    ensures |ps| > 0
    decreases |rest| - i
  {
    if i == |rest| then [rest]
    else if rest[i] == SLASH then [rest[..i]] + ChainsFrom(rest, i + 1)
    else ChainsFrom(rest, i + 1)
  }

  function RefPrefixes(ref: Name): seq<Name>
  {
    if Below(ref) == [] then [] else Chains(Below(ref))
  }

  method ComputeRefPrefixes(ref: Name) returns (ps: seq<Name>)
    ensures ps == RefPrefixes(ref)
  {
    var rest := Below(ref);
    if rest == [] { return []; }
    ps := [];
    var i := 0;
    while i < |rest|
      invariant 0 <= i <= |rest|
      invariant ps + ChainsFrom(rest, i) == Chains(rest)
    {
      if rest[i] == SLASH {
        assert ps + ChainsFrom(rest, i) == (ps + [rest[..i]]) + ChainsFrom(rest, i + 1);
        ps := ps + [rest[..i]];
      }
      i := i + 1;
    }
    ps := ps + [rest];
  }

  function Depth(n: Name): nat
  {
    if n == [] then 0 else (if n[0] == SLASH then 1 else 0) + Depth(n[1..])
  }

  lemma DepthConcat(a: Name, b: Name)
    ensures Depth(a + b) == Depth(a) + Depth(b)
  {
    if a == [] {
      assert a + b == b;
    } else {
      DepthConcat(a[1..], b);
      assert (a + b)[1..] == a[1..] + b;
    }
  }

  lemma DepthSnoc(a: Name, u: Unit)
    ensures Depth(a + [u]) == Depth(a) + (if u == SLASH then 1 else 0)
  {
    DepthConcat(a, [u]);
    assert [u][1..] == [];
  }

  // ps lists, from depth d up, chains of rest no shorter than i.
  ghost predicate ChainsOk(ps: seq<Name>, rest: Name, i: nat, d: nat)
  {
    forall k | 0 <= k < |ps| :: AboveOrEqual(ps[k], rest) && |ps[k]| >= i && Depth(ps[k]) == d + k
  }

  // The chain at position k is the one cut at the k-th '/', so has depth k.
  lemma {:induction false} ChainsFromDepths(rest: Name, i: nat)
    requires i <= |rest|
    ensures var ps := ChainsFrom(rest, i);
            var d := Depth(rest[..i]);
            |ps| == Depth(rest) - d + 1 && ChainsOk(ps, rest, i, d)
    decreases |rest| - i
  {
    if i == |rest| {
      assert rest[..i] == rest;
    } else {
      ChainsFromDepths(rest, i + 1);
      assert rest[..i + 1] == rest[..i] + [rest[i]];
      DepthSnoc(rest[..i], rest[i]);
      if rest[i] == SLASH {
        var p, tl, d := rest[..i], ChainsFrom(rest, i + 1), Depth(rest[..i]);
        assert p + [SLASH] <= rest;
        assert ChainsFrom(rest, i) == [p] + tl;
        forall k | 0 <= k < |[p] + tl|
          ensures AboveOrEqual(([p] + tl)[k], rest) && |([p] + tl)[k]| >= i && Depth(([p] + tl)[k]) == d + k
        {
          if k > 0 { assert ([p] + tl)[k] == tl[k - 1]; }
        }
      }
    }
  }

  // Every chain is listed.
  lemma {:induction false} ChainsFromComplete(rest: Name, i: nat, p: Name)
    requires i <= |rest| && AboveOrEqual(p, rest) && |p| >= i
    ensures p in ChainsFrom(rest, i)
    decreases |rest| - i
  {
    assert |p| < |rest| ==> rest[|p|] == SLASH && p == rest[..|p|];
    if i < |rest| && |p| > i {
      ChainsFromComplete(rest, i + 1, p);
    }
  }

  // RefPrefixes holds exactly the chains, the one of depth k at position k.
  lemma RefPrefixesSpec(ref: Name)
    ensures var ps := RefPrefixes(ref); var rest := Below(ref);
            && (rest != [] ==> |ps| == Depth(rest) + 1)
            && (forall k | 0 <= k < |ps| :: AboveOrEqual(ps[k], rest) && Depth(ps[k]) == k)
            && (forall p | rest != [] && AboveOrEqual(p, rest) :: p in ps && Depth(p) < |ps| && ps[Depth(p)] == p)
  {
    var rest := Below(ref);
    if rest != [] {
      ChainsFromDepths(rest, 0);
      assert rest[..0] == [];
      var ps := RefPrefixes(ref);
      forall p | AboveOrEqual(p, rest) ensures p in ps && Depth(p) < |ps| && ps[Depth(p)] == p {
        ChainsFromComplete(rest, 0, p);
        var k :| 0 <= k < |ps| && ps[k] == p;
      }
    }
  }
}
