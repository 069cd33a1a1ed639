/** The two ref keys (casefold.go caseKey, canon.go canonKey), the claim that
    one decomposition is enough, and how both keys respect '/'. */
module Keys {
  import opened Names
  import opened UnicodeTables
  import opened Nfd

  function FoldUnit(t: Tables, u: Unit): Unit
  {
    match u
    case Rune(r) => Rune(FoldRune(t, r))
    case Bad(_) => u
  }

  function CaseKey(t: Tables, s: Name): (k: Name)
    ensures |k| == |s| && forall i | 0 <= i < |s| :: k[i] == FoldUnit(t, s[i])
  {
    seq(|s|, i requires 0 <= i < |s| => FoldUnit(t, s[i]))
  }

  method ComputeCaseKey(t: Tables, s: Name) returns (k: Name)
    ensures k == CaseKey(t, s)
  {
    k := [];
    for i := 0 to |s|
      invariant k == CaseKey(t, s)[..i]
    {
      k := k + [FoldUnit(t, s[i])];
    }
  }

  function CanonKey(t: Tables, s: Name): Name
  {
    CaseKey(t, NfdOf(t, s))
  }

  // ---- one decomposition is enough

  lemma FoldDecomposed(t: Tables, xs: Name)
    requires FoldKeepsDecomposed(t) && Decomposed(t, xs)
    ensures Decomposed(t, CaseKey(t, xs))
  {
    var k := CaseKey(t, xs);
    forall i | 0 <= i < |k| ensures k[i].Rune? ==> !Decomposable(t, k[i].cp) {
      assert k[i] == FoldUnit(t, xs[i]);
    }
  }

  lemma FoldOrdered(t: Tables, xs: Name)
    requires FoldKeepsOrder(t) && Ordered(t, xs)
    ensures Ordered(t, CaseKey(t, xs))
  {
    var k := CaseKey(t, xs);
    forall i | 0 <= i < |k| - 1 ensures Class(t, k[i + 1]) == 0 || Class(t, k[i]) <= Class(t, k[i + 1]) {
      assert k[i] == FoldUnit(t, xs[i]) && k[i + 1] == FoldUnit(t, xs[i + 1]);
    }
  }

  // Folding decomposed, ordered text leaves it decomposed and ordered.
  lemma CanonKeyIsNormal(t: Tables, s: Name)
    requires Facts(t)
    ensures NfdOf(t, CanonKey(t, s)) == CanonKey(t, s)
  {
    NfdOutput(t, s);
    FoldDecomposed(t, NfdOf(t, s));
    FoldOrdered(t, NfdOf(t, s));
    NfdFixed(t, CanonKey(t, s));
  }

  // Canonical caseless matching, D145 of Unicode section 3.13, with the simple
  // folding: NFD(fold(NFD(a))) == NFD(fold(NFD(b))).
  ghost predicate CanonicalCaseless(t: Tables, a: Name, b: Name)
  {
    NfdOf(t, CaseKey(t, NfdOf(t, a))) == NfdOf(t, CaseKey(t, NfdOf(t, b)))
  }

  lemma CanonKeyIsCanonicalCaseless(t: Tables, a: Name, b: Name)
    requires Facts(t)
    ensures CanonKey(t, a) == CanonKey(t, b) <==> CanonicalCaseless(t, a, b)
  {
    CanonKeyIsNormal(t, a);
    CanonKeyIsNormal(t, b);
  }

  // Canonically equivalent spellings always share the canonical key.
  lemma EquivalentShareCanonKey(t: Tables, a: Name, b: Name)
    requires SwapEquivalent(t, Decompose(t, a), Decompose(t, b))
    ensures CanonKey(t, a) == CanonKey(t, b)
  {
    NfdDecidesEquivalence(t, a, b);
  }

  // Check 2 is needed as well as enough: a decomposed code point that folds
  // to one that decomposes has a key that a second decomposition changes.
  lemma CheckTwoIsNeeded(t: Tables, r: nat)
    requires Closed(t) && r in t.fold && !Decomposable(t, r) && Decomposable(t, t.fold[r])
    ensures NfdOf(t, CanonKey(t, [Rune(r)])) != CanonKey(t, [Rune(r)])
  {
    var f := t.fold[r];
    var s := [Rune(r)];
    assert Decomposed(t, s);
    NfdFixed(t, s);
    assert CanonKey(t, s) == [Rune(f)];
    NfdOutput(t, [Rune(f)]);
    assert [Rune(f)][0].Rune?;
  }

  // ---- both keys split at '/'

  datatype Keys = Keys(caseOf: Name -> Name, canonOf: Name -> Name)

  ghost predicate SplitsAtSlash(key: Name -> Name)
  {
    && (forall a, b {:trigger key(a + [SLASH] + b)} :: key(a + [SLASH] + b) == key(a) + [SLASH] + key(b))
    && (forall s :: SLASH in key(s) <==> SLASH in s)
  }

  ghost predicate Split(k: Keys)
  {
    SplitsAtSlash(k.caseOf) && SplitsAtSlash(k.canonOf)
  }

  function KeysOf(t: Tables): Keys
  {
    Keys(s => CaseKey(t, s), s => CanonKey(t, s))
  }

  lemma CaseKeyConcat(t: Tables, a: Name, b: Name)
    ensures CaseKey(t, a + b) == CaseKey(t, a) + CaseKey(t, b)
  {
  }

  lemma CaseKeySlash(t: Tables, s: Name)
    requires SlashAlone(t)
    ensures SLASH in CaseKey(t, s) <==> SLASH in s
    ensures CaseKey(t, [SLASH]) == [SLASH]
  {
    var k := CaseKey(t, s);
    if SLASH in k {
      var i :| 0 <= i < |k| && k[i] == SLASH;
      assert k[i] == FoldUnit(t, s[i]) && s[i] == SLASH;
    }
    if SLASH in s {
      var i :| 0 <= i < |s| && s[i] == SLASH;
      assert k[i] == FoldUnit(t, s[i]) && k[i] == SLASH;
    }
  }

  lemma ExpandSlash(t: Tables, u: Unit)
    requires SlashAlone(t)
    ensures SLASH in Expand(t, u) <==> u == SLASH
    ensures Expand(t, SLASH) == [SLASH]
  {
    if u.Rune? && IsHangul(u.cp) {
      JamoRoundTrip(u.cp);
      assert forall j | j in Jamo(u.cp) :: j != SLASH_CP;
    }
  }

  lemma {:induction false} DecomposeSlash(t: Tables, s: Name)
    requires SlashAlone(t)
    ensures SLASH in Decompose(t, s) <==> SLASH in s
  {
    if s != [] {
      ExpandSlash(t, s[0]);
      DecomposeSlash(t, s[1..]);
      assert s == [s[0]] + s[1..];
    }
  }

  lemma DecomposeAtSlash(t: Tables, a: Name, b: Name)
    requires SlashAlone(t)
    ensures Decompose(t, a + [SLASH] + b) == Decompose(t, a) + [SLASH] + Decompose(t, b)
  {
    DecomposeConcat(t, a + [SLASH], b);
    DecomposeConcat(t, a, [SLASH]);
    OneSlash(t);
  }

  lemma OneSlash(t: Tables)
    requires SlashAlone(t)
    ensures Decompose(t, [SLASH]) == [SLASH] && Class(t, SLASH) == 0
  {
    ExpandSlash(t, SLASH);
    assert Decompose(t, [SLASH]) == Expand(t, SLASH) + Decompose(t, []);
  }

  lemma NfdSlash(t: Tables, a: Name, b: Name)
    requires SlashAlone(t)
    ensures NfdOf(t, a + [SLASH] + b) == NfdOf(t, a) + [SLASH] + NfdOf(t, b)
  {
    DecomposeAtSlash(t, a, b);
    OneSlash(t);
    ReorderAtStarter(t, Decompose(t, a), SLASH, Decompose(t, b));
  }

  lemma ReorderMember(t: Tables, xs: Name, u: Unit)
    ensures u in Reorder(t, xs) <==> u in xs
  {
    assert u in Reorder(t, xs) <==> u in multiset(Reorder(t, xs));
    assert u in xs <==> u in multiset(xs);
  }

  // The keys of the pinned tables meet the one fact about keys that the
  // conflict index and the push rules rest on.
  lemma CaseKeySplits(t: Tables)
    requires SlashAlone(t)
    ensures SplitsAtSlash(KeysOf(t).caseOf)
  {
    var key := KeysOf(t).caseOf;
    CaseKeySlash(t, []);
    forall a, b ensures key(a + [SLASH] + b) == key(a) + [SLASH] + key(b) {
      CaseKeyConcat(t, a + [SLASH], b);
      CaseKeyConcat(t, a, [SLASH]);
    }
    forall s ensures SLASH in key(s) <==> SLASH in s { CaseKeySlash(t, s); }
  }

  lemma CanonKeySplits(t: Tables)
    requires SlashAlone(t)
    ensures SplitsAtSlash(KeysOf(t).canonOf)
  {
    var key := KeysOf(t).canonOf;
    CaseKeySlash(t, []);
    forall a, b ensures key(a + [SLASH] + b) == key(a) + [SLASH] + key(b) {
      NfdSlash(t, a, b);
      CaseKeyConcat(t, NfdOf(t, a) + [SLASH], NfdOf(t, b));
      CaseKeyConcat(t, NfdOf(t, a), [SLASH]);
    }
    forall s ensures SLASH in key(s) <==> SLASH in s {
      CaseKeySlash(t, NfdOf(t, s));
      ReorderMember(t, Decompose(t, s), SLASH);
      DecomposeSlash(t, s);
    }
  }

  // Both keys of the tables split at '/'.
  lemma TableKeysSplit(t: Tables)
    requires SlashAlone(t)
    ensures Split(KeysOf(t))
  {
    CaseKeySplits(t);
    CanonKeySplits(t);
  }

  // ---- what splitting gives: keys are equal chain by chain

  function FirstSlash(s: Name): (i: nat)
    requires SLASH in s
    ensures i < |s| && s[i] == SLASH && SLASH !in s[..i]
  {
    if s[0] == SLASH then 0
    else
      assert s == [s[0]] + s[1..];
      var j := FirstSlash(s[1..]);
      assert s[..j + 1] == [s[0]] + s[1..][..j];
      j + 1
  }

  lemma CutAt(s: Name, i: nat)
    requires i < |s| && s[i] == SLASH
    ensures s == s[..i] + [SLASH] + s[i + 1..]
  {
  }

  // Cutting at the first '/' is unambiguous.
  lemma FirstCutUnique(a: Name, b: Name, c: Name, d: Name)
    requires SLASH !in a && SLASH !in c && a + [SLASH] + b == c + [SLASH] + d
    ensures a == c && b == d
  {
    var x := a + [SLASH] + b;
    assert x[|a|] == SLASH && x[|c|] == SLASH;
    assert forall k | 0 <= k < |c| :: x[k] == c[k] && c[k] in c;
    assert forall k | 0 <= k < |a| :: x[k] == a[k] && a[k] in a;
    assert |a| == |c|;
    assert a == x[..|a|] && c == x[..|c|];
    assert b == x[|a| + 1..] && d == x[|c| + 1..];
  }

  // A name with the key of "a/b", a without '/', is "a'/b'" with the keys of
  // a and b.
  lemma SplitFirst(key: Name -> Name, a: Name, b: Name, q: Name) returns (a': Name, b': Name)
    requires SplitsAtSlash(key) && key(a + [SLASH] + b) == key(q) && SLASH !in a
    ensures q == a' + [SLASH] + b' && key(a') == key(a) && key(b') == key(b)
    ensures Depth(a') == Depth(a) == 0
  {
    assert SLASH in key(a + [SLASH] + b);
    var i := FirstSlash(q);
    a', b' := q[..i], q[i + 1..];
    CutAt(q, i);
    assert key(q) == key(a' + [SLASH] + b');
    DepthNoSlash(a');
    DepthNoSlash(a);
    FirstCutUnique(key(a), key(b), key(a'), key(b'));
  }

  // The same for any cut.
  lemma {:induction false} SplitTransfer(key: Name -> Name, a: Name, b: Name, q: Name) returns (a': Name, b': Name)
    requires SplitsAtSlash(key) && key(a + [SLASH] + b) == key(q)
    ensures q == a' + [SLASH] + b' && key(a') == key(a) && key(b') == key(b)
    ensures Depth(a') == Depth(a)
    decreases |a|
  {
    if SLASH !in a {
      a', b' := SplitFirst(key, a, b, q);
    } else {
      var j := FirstSlash(a);
      var c, d := a[..j], a[j + 1..];
      CutAt(a, j);
      AppendCut(c, d, b);
      var c', r' := SplitFirst(key, c, d + [SLASH] + b, q);
      var d';
      d', b' := SplitTransfer(key, d, b, r');
      a' := c' + [SLASH] + d';
      AppendCut(c', d', b');
      assert key(a) == key(c + [SLASH] + d);
      DepthCut(c, d);
      DepthCut(c', d');
    }
  }

  lemma AppendCut(c: Name, d: Name, b: Name)
    ensures (c + [SLASH] + d) + [SLASH] + b == c + [SLASH] + (d + [SLASH] + b)
  {
  }

  lemma DepthNoSlash(a: Name)
    requires SLASH !in a
    ensures Depth(a) == 0
  {
    if a != [] { DepthNoSlash(a[1..]); }
  }

  lemma DepthCut(a: Name, b: Name)
    ensures Depth(a + [SLASH] + b) == Depth(a) + 1 + Depth(b)
  {
    DepthSnoc(a, SLASH);
    DepthConcat(a + [SLASH], b);
  }

  // Names with equal keys have equally many components.
  lemma {:induction false} EqualKeysEqualDepth(key: Name -> Name, p: Name, q: Name)
    requires SplitsAtSlash(key) && key(p) == key(q)
    ensures Depth(p) == Depth(q)
    decreases |p|
  {
    assert SLASH in key(p) <==> SLASH in key(q);
    if SLASH in p {
      var i := FirstSlash(p);
      CutAt(p, i);
      var a', b' := SplitTransfer(key, p[..i], p[i + 1..], q);
      EqualKeysEqualDepth(key, p[i + 1..], b');
      DepthCut(p[..i], p[i + 1..]);
      DepthCut(a', b');
    } else {
      DepthNoSlash(p);
      DepthNoSlash(q);
    }
  }
}
