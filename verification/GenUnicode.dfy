/** The table generator (gen_unicode.go): full decompositions by memoised
    recursion, the folding table, the four checks, and the sorted tables it
    renders. What passes the checks meets `UnicodeTables.Facts`. */
module GenUnicode {
  import opened UnicodeTables
  import opened Wrappers

  // ---- full decompositions

  // The recursive expansion of r, if no more than fuel mappings nest in it.
  ghost function Expansion(canon: map<nat, seq<nat>>, r: nat, fuel: nat): Option<seq<nat>>
    decreases fuel, 0
  {
    if r !in canon then Some([r])
    else if fuel == 0 then None
    else ExpansionOf(canon, canon[r], fuel - 1)
  }

  ghost function ExpansionOf(canon: map<nat, seq<nat>>, rs: seq<nat>, fuel: nat): Option<seq<nat>>
    decreases fuel, 1 + |rs|
  {
    if rs == [] then Some([])
    else
      match (Expansion(canon, rs[0], fuel), ExpansionOf(canon, rs[1..], fuel))
      case (Some(d), Some(ds)) => Some(d + ds)
      case _ => None
  }

  // More fuel never changes an answer.
  lemma {:induction false} ExpansionMonotone(canon: map<nat, seq<nat>>, r: nat, fuel: nat, more: nat)
    requires fuel <= more && Expansion(canon, r, fuel).Some?
    ensures Expansion(canon, r, more) == Expansion(canon, r, fuel)
    decreases fuel, 0
  {
    if r in canon { ExpansionOfMonotone(canon, canon[r], fuel - 1, more - 1); }
  }

  lemma {:induction false} ExpansionOfMonotone(canon: map<nat, seq<nat>>, rs: seq<nat>, fuel: nat, more: nat)
    requires fuel <= more && ExpansionOf(canon, rs, fuel).Some?
    ensures ExpansionOf(canon, rs, more) == ExpansionOf(canon, rs, fuel)
    decreases fuel, 1 + |rs|
  {
    if rs != [] {
      ExpansionMonotone(canon, rs[0], fuel, more);
      ExpansionOfMonotone(canon, rs[1..], fuel, more);
    }
  }

  // Everything in canon's mappings.
  ghost predicate Mentioned(canon: map<nat, seq<nat>>, e: nat)
  {
    exists r :: r in canon && e in canon[r]
  }

  // Nothing in an expansion maps any further, and every code point of it is
  // written in some mapping.
  lemma {:induction false} ExpansionUnmapped(canon: map<nat, seq<nat>>, r: nat, fuel: nat, e: nat)
    requires r in canon && Expansion(canon, r, fuel).Some? && e in Expansion(canon, r, fuel).value
    ensures e !in canon && Mentioned(canon, e)
    decreases fuel, 0
  {
    ExpansionOfUnmapped(canon, canon[r], fuel - 1, e);
    if e in canon[r] { assert Mentioned(canon, e); }
  }

  lemma {:induction false} ExpansionOfUnmapped(canon: map<nat, seq<nat>>, rs: seq<nat>, fuel: nat, e: nat)
    requires ExpansionOf(canon, rs, fuel).Some? && e in ExpansionOf(canon, rs, fuel).value
    ensures e !in canon && (e in rs || Mentioned(canon, e))
    decreases fuel, 1 + |rs|
  {
    if e in Expansion(canon, rs[0], fuel).value {
      if rs[0] in canon { ExpansionUnmapped(canon, rs[0], fuel, e); }
    } else {
      ExpansionOfUnmapped(canon, rs[1..], fuel, e);
    }
  }

  ghost predicate IsExpansion(canon: map<nat, seq<nat>>, r: nat, d: seq<nat>)
  {
    exists fuel: nat :: Expansion(canon, r, fuel) == Some(d)
  }

  ghost predicate AreExpansions(canon: map<nat, seq<nat>>, rs: seq<nat>, d: seq<nat>)
  {
    exists fuel: nat :: ExpansionOf(canon, rs, fuel) == Some(d)
  }

  // How many mapping levels may nest before the generator suspects a cycle.
  const MAX_DEPTH := 32

  ghost predicate Shallow(canon: map<nat, seq<nat>>, r: nat, depth: nat)
    requires depth <= MAX_DEPTH + 1
  {
    Expansion(canon, r, MAX_DEPTH + 1 - depth).Some?
  }

  lemma IsExpansionOfSnoc(canon: map<nat, seq<nat>>, rs: seq<nat>, i: nat, out: seq<nat>, sub: seq<nat>)
    requires i < |rs| && AreExpansions(canon, rs[..i], out) && IsExpansion(canon, rs[i], sub)
    ensures AreExpansions(canon, rs[..i + 1], out + sub)
  {
    var f :| ExpansionOf(canon, rs[..i], f) == Some(out);
    var g :| Expansion(canon, rs[i], g) == Some(sub);
    var n := if f < g then g else f;
    ExpansionOfMonotone(canon, rs[..i], f, n);
    ExpansionMonotone(canon, rs[i], g, n);
    assert ExpansionOf(canon, [rs[i]], n) == Some(sub) by {
      assert [rs[i]][1..] == [];
      assert sub + [] == sub;
    }
    ExpansionOfConcat(canon, rs[..i], [rs[i]], n);
    assert rs[..i + 1] == rs[..i] + [rs[i]];
  }

  lemma {:induction false} ExpansionOfConcat(canon: map<nat, seq<nat>>, p: seq<nat>, q: seq<nat>, fuel: nat)
    requires ExpansionOf(canon, p, fuel).Some? && ExpansionOf(canon, q, fuel).Some?
    ensures ExpansionOf(canon, p + q, fuel)
      == Some(ExpansionOf(canon, p, fuel).value + ExpansionOf(canon, q, fuel).value)
  {
    if p == [] {
      assert p + q == q;
      assert [] + ExpansionOf(canon, q, fuel).value == ExpansionOf(canon, q, fuel).value;
    } else {
      assert (p + q)[1..] == p[1..] + q;
      ExpansionOfConcat(canon, p[1..], q, fuel);
      var d, ds, qs := Expansion(canon, p[0], fuel).value, ExpansionOf(canon, p[1..], fuel).value,
        ExpansionOf(canon, q, fuel).value;
      assert d + (ds + qs) == (d + ds) + qs;
    }
  }

  lemma {:induction false} ExpansionOfMember(canon: map<nat, seq<nat>>, rs: seq<nat>, fuel: nat, i: nat)
    requires i < |rs| && ExpansionOf(canon, rs, fuel).Some?
    ensures Expansion(canon, rs[i], fuel).Some?
  {
    if i > 0 { ExpansionOfMember(canon, rs[1..], fuel, i - 1); }
  }

  // ---- what an expansion is: nothing is left to replace

  // One mapped code point of xs replaced by its mapping.
  ghost predicate Replaces(canon: map<nat, seq<nat>>, xs: seq<nat>, ys: seq<nat>)
  {
    exists p, r, q :: ReplacesAt(canon, xs, ys, p, r, q)
  }

  ghost predicate ReplacesAt(canon: map<nat, seq<nat>>, xs: seq<nat>, ys: seq<nat>, p: seq<nat>, r: nat, q: seq<nat>)
  {
    r in canon && xs == p + [r] + q && ys == p + canon[r] + q
  }

  ghost predicate IsReplacing(canon: map<nat, seq<nat>>, c: seq<seq<nat>>)
  {
    |c| > 0 && forall i | 0 <= i < |c| - 1 :: Replaces(canon, c[i], c[i + 1])
  }

  ghost predicate Becomes(canon: map<nat, seq<nat>>, xs: seq<nat>, ys: seq<nat>)
  {
    exists c :: IsReplacing(canon, c) && c[0] == xs && c[|c| - 1] == ys
  }

  lemma BecomesItself(canon: map<nat, seq<nat>>, xs: seq<nat>)
    ensures Becomes(canon, xs, xs)
  {
    assert IsReplacing(canon, [xs]);
  }

  lemma BecomesThen(canon: map<nat, seq<nat>>, xs: seq<nat>, ys: seq<nat>, zs: seq<nat>)
    requires Becomes(canon, xs, ys) && Becomes(canon, ys, zs)
    ensures Becomes(canon, xs, zs)
  {
    var c :| IsReplacing(canon, c) && c[0] == xs && c[|c| - 1] == ys;
    var d :| IsReplacing(canon, d) && d[0] == ys && d[|d| - 1] == zs;
    var e := c + d[1..];
    forall i | 0 <= i < |e| - 1 ensures Replaces(canon, e[i], e[i + 1]) {
      if i < |c| - 1 {
        assert Replaces(canon, c[i], c[i + 1]);
      } else {
        assert e[i] == d[i - |c| + 1] && e[i + 1] == d[i - |c| + 2];
      }
    }
    assert IsReplacing(canon, e);
  }

  lemma Regroup(p: seq<nat>, p': seq<nat>, x: seq<nat>, q': seq<nat>, q: seq<nat>)
    ensures p + (p' + x + q') + q == (p + p') + x + (q' + q)
  {
  }

  lemma ReplacesWithin(canon: map<nat, seq<nat>>, xs: seq<nat>, ys: seq<nat>, p: seq<nat>, q: seq<nat>)
    requires Replaces(canon, xs, ys)
    ensures Replaces(canon, p + xs + q, p + ys + q)
  {
    var p', r, q' :| ReplacesAt(canon, xs, ys, p', r, q');
    Regroup(p, p', [r], q', q);
    Regroup(p, p', canon[r], q', q);
    assert ReplacesAt(canon, p + xs + q, p + ys + q, p + p', r, q' + q);
  }

  lemma BecomesWithin(canon: map<nat, seq<nat>>, xs: seq<nat>, ys: seq<nat>, p: seq<nat>, q: seq<nat>)
    requires Becomes(canon, xs, ys)
    ensures Becomes(canon, p + xs + q, p + ys + q)
  {
    var c :| IsReplacing(canon, c) && c[0] == xs && c[|c| - 1] == ys;
    var d := seq(|c|, i requires 0 <= i < |c| => p + c[i] + q);
    forall i | 0 <= i < |d| - 1 ensures Replaces(canon, d[i], d[i + 1]) {
      assert Replaces(canon, c[i], c[i + 1]);
      ReplacesWithin(canon, c[i], c[i + 1], p, q);
    }
    assert IsReplacing(canon, d);
  }

  lemma {:induction false} ExpansionBecomes(canon: map<nat, seq<nat>>, r: nat, fuel: nat)
    requires Expansion(canon, r, fuel).Some?
    ensures Becomes(canon, [r], Expansion(canon, r, fuel).value)
    decreases fuel, 0
  {
    if r in canon {
      assert [] + [r] + [] == [r] && [] + canon[r] + [] == canon[r];
      assert ReplacesAt(canon, [r], canon[r], [], r, []);
      assert IsReplacing(canon, [[r], canon[r]]);
      ExpansionOfBecomes(canon, canon[r], fuel - 1);
      BecomesThen(canon, [r], canon[r], Expansion(canon, r, fuel).value);
    } else {
      BecomesItself(canon, [r]);
    }
  }

  lemma {:induction false} ExpansionOfBecomes(canon: map<nat, seq<nat>>, rs: seq<nat>, fuel: nat)
    requires ExpansionOf(canon, rs, fuel).Some?
    ensures Becomes(canon, rs, ExpansionOf(canon, rs, fuel).value)
    decreases fuel, 1 + |rs|
  {
    if rs == [] {
      BecomesItself(canon, rs);
    } else {
      var d, ds := Expansion(canon, rs[0], fuel).value, ExpansionOf(canon, rs[1..], fuel).value;
      ExpansionBecomes(canon, rs[0], fuel);
      ExpansionOfBecomes(canon, rs[1..], fuel);
      BecomesWithin(canon, [rs[0]], d, [], rs[1..]);
      BecomesWithin(canon, rs[1..], ds, d, []);
      assert [] + [rs[0]] + rs[1..] == rs && [] + d + rs[1..] == d + rs[1..] == d + rs[1..] + []
        && d + ds + [] == d + ds;
      BecomesThen(canon, rs, d + rs[1..], d + ds);
    }
  }

  lemma {:induction false} ExpansionOfSplit(canon: map<nat, seq<nat>>, p: seq<nat>, q: seq<nat>, fuel: nat)
    requires ExpansionOf(canon, p + q, fuel).Some?
    ensures ExpansionOf(canon, p, fuel).Some? && ExpansionOf(canon, q, fuel).Some?
  {
    if p == [] {
      assert p + q == q;
    } else {
      assert (p + q)[1..] == p[1..] + q;
      ExpansionOfSplit(canon, p[1..], q, fuel);
    }
  }

  lemma OneIsExpanded(canon: map<nat, seq<nat>>, r: nat, fuel: nat)
    requires Expansion(canon, r, fuel).Some?
    ensures ExpansionOf(canon, [r], fuel) == Expansion(canon, r, fuel)
  {
    var d := Expansion(canon, r, fuel).value;
    assert [r][1..] == [] && d + [] == d;
  }

  // Replacing one code point leaves the expansion as it is.
  lemma ReplacedExpands(canon: map<nat, seq<nat>>, p: seq<nat>, r: nat, q: seq<nat>, d: seq<nat>)
    requires r in canon && AreExpansions(canon, p + canon[r] + q, d)
    ensures AreExpansions(canon, p + [r] + q, d)
  {
    var f: nat :| ExpansionOf(canon, p + canon[r] + q, f) == Some(d);
    ExpansionOfSplit(canon, p + canon[r], q, f);
    ExpansionOfSplit(canon, p, canon[r], f);
    ExpansionOfConcat(canon, p + canon[r], q, f);
    ExpansionOfConcat(canon, p, canon[r], f);
    assert Expansion(canon, r, f + 1) == ExpansionOf(canon, canon[r], f);
    OneIsExpanded(canon, r, f + 1);
    ExpansionOfMonotone(canon, p, f, f + 1);
    ExpansionOfMonotone(canon, q, f, f + 1);
    ExpansionOfConcat(canon, p, [r], f + 1);
    ExpansionOfConcat(canon, p + [r], q, f + 1);
  }

  lemma {:induction false} UnmappedIsExpanded(canon: map<nat, seq<nat>>, d: seq<nat>)
    requires forall e | e in d :: e !in canon
    ensures ExpansionOf(canon, d, 0) == Some(d)
  {
    if d != [] {
      UnmappedIsExpanded(canon, d[1..]);
      assert d == [d[0]] + d[1..];
    }
  }

  lemma {:induction false} ReplacingExpands(canon: map<nat, seq<nat>>, c: seq<seq<nat>>, i: nat)
    requires IsReplacing(canon, c) && i < |c| && forall e | e in c[|c| - 1] :: e !in canon
    ensures AreExpansions(canon, c[i], c[|c| - 1])
    decreases |c| - i
  {
    if i == |c| - 1 {
      UnmappedIsExpanded(canon, c[i]);
    } else {
      ReplacingExpands(canon, c, i + 1);
      assert Replaces(canon, c[i], c[i + 1]);
      var p, r, q :| ReplacesAt(canon, c[i], c[i + 1], p, r, q);
      ReplacedExpands(canon, p, r, q, c[|c| - 1]);
    }
  }

  // The full expansion of a mapped code point is what replacing, in any order,
  // ends in: the one text without mapped code points that it becomes.
  lemma ExpansionIff(canon: map<nat, seq<nat>>, r: nat, d: seq<nat>)
    requires r in canon
    ensures IsExpansion(canon, r, d) <==> Becomes(canon, [r], d) && forall e | e in d :: e !in canon
  {
    if IsExpansion(canon, r, d) {
      var f: nat :| Expansion(canon, r, f) == Some(d);
      ExpansionBecomes(canon, r, f);
      forall e | e in d ensures e !in canon { ExpansionUnmapped(canon, r, f, e); }
    }
    if Becomes(canon, [r], d) && forall e | e in d :: e !in canon {
      var c :| IsReplacing(canon, c) && c[0] == [r] && c[|c| - 1] == d;
      ReplacingExpands(canon, c, 0);
      var f: nat :| ExpansionOf(canon, [r], f) == Some(d);
      ExpansionOfMember(canon, [r], f, 0);
      OneIsExpanded(canon, r, f);
    }
  }

  class Expander {
    const canon: map<nat, seq<nat>>
    var full: map<nat, seq<nat>>

    constructor (canon: map<nat, seq<nat>>)
      ensures this.canon == canon && full == map[] && Valid()
    {
      this.canon := canon;
      full := map[];
    }

    // The memo holds expansions of mapped code points.
    ghost predicate Valid()
      reads this
    {
      forall r | r in full :: r in canon && IsExpansion(canon, r, full[r])
    }

    method Expand(r: nat, depth: nat) returns (o: Option<seq<nat>>)
      requires Valid() && depth <= MAX_DEPTH + 1
      modifies this
      ensures Valid() && old(full.Keys) <= full.Keys
      ensures o.Some? ==> IsExpansion(canon, r, o.value) && (r in canon ==> r in full)
      ensures Shallow(canon, r, depth) ==> o.Some?
      decreases MAX_DEPTH + 1 - depth
    {
      if r in full { return Some(full[r]); }
      if r !in canon {
        assert Expansion(canon, r, 0) == Some([r]);
        return Some([r]);
      }
      if depth > MAX_DEPTH { return None; }
      var m := canon[r];
      var out := [];
      assert ExpansionOf(canon, m[..0], 0) == Some([]);
      var i := 0;
      while i < |m|
        invariant 0 <= i <= |m| && Valid() && old(full.Keys) <= full.Keys
        invariant AreExpansions(canon, m[..i], out)
      {
        if Shallow(canon, r, depth) { ExpansionOfMember(canon, m, MAX_DEPTH - depth, i); }
        var sub := Expand(m[i], depth + 1);
        if sub.None? { return None; }
        IsExpansionOfSnoc(canon, m, i, out, sub.value);
        out := out + sub.value;
        i := i + 1;
      }
      assert m[..i] == m;
      ghost var f: nat :| ExpansionOf(canon, m, f) == Some(out);
      assert Expansion(canon, r, f + 1) == Some(out);
      full := full[r := out];
      o := Some(out);
    }
  }

  // Every mapping fully expanded; fails only when mappings nest too deeply.
  method FullDecompositions(canon: map<nat, seq<nat>>) returns (o: Option<map<nat, seq<nat>>>)
    ensures o.Some? ==> o.value.Keys == canon.Keys && forall r | r in canon :: IsExpansion(canon, r, o.value[r])
    ensures (forall r | r in canon :: Shallow(canon, r, 0)) ==> o.Some?
  {
    var x := new Expander(canon);
    var keys := canon.Keys;
    while keys != {}
      invariant keys <= canon.Keys && fresh(x) && x.canon == canon
      invariant x.Valid() && canon.Keys - keys <= x.full.Keys
      decreases keys
    {
      var r :| r in keys;
      var d := x.Expand(r, 0);
      if d.None? { return None; }
      keys := keys - {r};
    }
    return Some(x.full);
  }

  // ---- the folding table

  datatype FoldLine = FoldLine(cp: nat, to: nat)

  // Check 1 and the folding table in one pass: no code point has two lines.
  method BuildFolds(lines: seq<FoldLine>) returns (o: Option<map<nat, nat>>)
    ensures o.Some? <==> forall i, j | 0 <= i < j < |lines| :: lines[i].cp != lines[j].cp
    ensures o.Some? ==> o.value.Keys == (set l | l in lines :: l.cp)
    ensures o.Some? ==> forall l | l in lines :: o.value[l.cp] == l.to
  {
    var first: map<nat, nat> := map[];
    var i := 0;
    while i < |lines|
      invariant 0 <= i <= |lines|
      invariant forall p, q | 0 <= p < q < i :: lines[p].cp != lines[q].cp
      invariant forall p | 0 <= p < i :: lines[p].cp in first && first[lines[p].cp] == lines[p].to
      invariant forall r | r in first :: exists p | 0 <= p < i :: lines[p].cp == r
    {
      if lines[i].cp in first { return None; }
      first := first[lines[i].cp := lines[i].to];
      i := i + 1;
    }
    return Some(first);
  }

  // ---- checks 2 to 4

  function HasDecomp(full: map<nat, seq<nat>>, r: nat): bool
  {
    (r in full && full[r] != []) || IsHangul(r)
  }

  function ClassOf(ccc: map<nat, nat>, r: nat): nat
  {
    if r in ccc then ccc[r] else 0
  }

  predicate CheckTwo(full: map<nat, seq<nat>>, folds: map<nat, nat>)
  {
    forall r | r in folds :: HasDecomp(full, r) || !HasDecomp(full, folds[r])
  }

  predicate CheckThree(ccc: map<nat, nat>, maxCCC: nat, folds: map<nat, nat>)
  {
    forall r | r in folds ::
      var cr, ct := ClassOf(ccc, r), ClassOf(ccc, folds[r]);
      cr == ct || (cr == maxCCC && ct == 0)
  }

  predicate CheckFour(canon: map<nat, seq<nat>>, full: map<nat, seq<nat>>)
  {
    && SLASH_CP !in canon && (forall r | r in canon :: SLASH_CP !in canon[r])
    && SLASH_CP !in full && (forall r | r in full :: SLASH_CP !in full[r])
  }

  // ---- the rendered tables

  // One table in ascending code point order.
  method SortEntries<V>(m: map<nat, V>) returns (table: seq<Entry<V>>)
    ensures Ascending(table)
    ensures forall i | 0 <= i < |table| :: table[i].r in m && m[table[i].r] == table[i].v
    ensures forall r | r in m :: exists i | 0 <= i < |table| :: table[i].r == r
  {
    table := [];
    var rest := m.Keys;
    while rest != {}
      invariant rest <= m.Keys && Ascending(table)
      invariant forall i, r | 0 <= i < |table| && r in rest :: table[i].r < r
      invariant forall i | 0 <= i < |table| :: table[i].r in m && m[table[i].r] == table[i].v
      invariant forall r | r in m && r !in rest :: Entry(r, m[r]) in table
      decreases rest
    {
      var least := Least(rest);
      table := table + [Entry(least, m[least])];
      rest := rest - {least};
    }
  }

  method Least(s: set<nat>) returns (m: nat)
    requires s != {}
    ensures m in s && forall r | r in s :: m <= r
  {
    m :| m in s;
    var rest := s - {m};
    while rest != {}
      invariant rest <= s && m in s && forall r | r in s && r !in rest :: m <= r
      decreases rest
    {
      var r :| r in rest;
      if r < m { m := r; }
      rest := rest - {r};
    }
  }

  // Facts of the Unicode data that the generator relies on without a check:
  // Hangul syllables and jamo are outside the mappings, and '/' is a starter
  // that nothing folds to or from.
  ghost predicate DataFacts(canon: map<nat, seq<nat>>, ccc: map<nat, nat>, lines: seq<FoldLine>)
  {
    && (forall e | Mentioned(canon, e) :: !IsHangul(e))
    && (forall j | IsJamo(j) :: j !in canon)
    && SLASH_CP !in ccc
    && (forall l | l in lines :: l.cp == SLASH_CP <==> l.to == SLASH_CP)
  }

  // What the parser of the character data sees to: no Hangul syllable carries a
  // mapping, and a class of 0 is not stored.
  ghost predicate Parsed(canon: map<nat, seq<nat>>, ccc: map<nat, nat>)
  {
    (forall r | r in canon :: !IsHangul(r)) && forall r | r in ccc :: ccc[r] != 0
  }

  ghost predicate IsHighest(ccc: map<nat, nat>, c: nat)
  {
    forall r | r in ccc :: ccc[r] <= c
  }

  lemma ExpansionsClosed(canon: map<nat, seq<nat>>, full: map<nat, seq<nat>>)
    requires full.Keys == canon.Keys && forall r | r in canon :: IsExpansion(canon, r, full[r])
    ensures forall r, e | r in full && e in full[r] :: e !in full && Mentioned(canon, e)
  {
    forall r, e | r in full && e in full[r] ensures e !in full && Mentioned(canon, e) {
      var fuel :| Expansion(canon, r, fuel) == Some(full[r]);
      ExpansionUnmapped(canon, r, fuel, e);
    }
  }

  // A code point with no mapping of its own stays wherever it is written.
  lemma {:induction false} ExpansionKeeps(canon: map<nat, seq<nat>>, rs: seq<nat>, fuel: nat, e: nat)
    requires ExpansionOf(canon, rs, fuel).Some? && e in rs && e !in canon
    ensures e in ExpansionOf(canon, rs, fuel).value
  {
    if e != rs[0] { ExpansionKeeps(canon, rs[1..], fuel, e); }
  }

  lemma MentionedIsExpanded(canon: map<nat, seq<nat>>, full: map<nat, seq<nat>>, e: nat)
    requires full.Keys == canon.Keys && forall r | r in canon :: IsExpansion(canon, r, full[r])
    requires Mentioned(canon, e) && e !in canon
    ensures exists r :: r in full && e in full[r]
  {
    var r :| r in canon && e in canon[r];
    var fuel: nat :| Expansion(canon, r, fuel) == Some(full[r]);
    ExpansionKeeps(canon, canon[r], fuel - 1, e);
  }

  datatype Rendered = Rendered(decomps: seq<Entry<seq<nat>>>, classes: seq<Entry<nat>>, folds: seq<Entry<nat>>)

  // The tables the rendered slices stand for.
  ghost predicate Renders(g: Rendered, t: Tables)
  {
    Holds(g.decomps, t.decomp) && Holds(g.classes, t.ccc) && Holds(g.folds, t.fold)
  }

  // The one set of tables the data stand for.
  ghost predicate TablesFor(canon: map<nat, seq<nat>>, ccc: map<nat, nat>, lines: seq<FoldLine>, t: Tables)
  {
    && t.decomp.Keys == canon.Keys && (forall r | r in canon :: IsExpansion(canon, r, t.decomp[r]))
    && t.ccc == ccc
    && t.fold.Keys == (set l | l in lines :: l.cp) && forall l | l in lines :: t.fold[l.cp] == l.to
  }

  lemma TablesUnique(canon: map<nat, seq<nat>>, ccc: map<nat, nat>, lines: seq<FoldLine>, a: Tables, b: Tables)
    requires TablesFor(canon, ccc, lines, a) && TablesFor(canon, ccc, lines, b)
    ensures a == b
  {
    forall r | r in canon ensures a.decomp[r] == b.decomp[r] {
      var f: nat :| Expansion(canon, r, f) == Some(a.decomp[r]);
      var g: nat :| Expansion(canon, r, g) == Some(b.decomp[r]);
      ExpansionMonotone(canon, r, f, f + g);
      ExpansionMonotone(canon, r, g, f + g);
    }
    forall r | r in a.fold ensures a.fold[r] == b.fold[r] {
      var l :| l in lines && l.cp == r;
    }
    assert a.decomp == b.decomp && a.fold == b.fold;
  }

  predicate ChecksPass(canon: map<nat, seq<nat>>, maxCCC: nat, t: Tables)
  {
    CheckTwo(t.decomp, t.fold) && CheckThree(t.ccc, maxCCC, t.fold) && CheckFour(canon, t.decomp)
  }

  ghost predicate Readable(canon: map<nat, seq<nat>>, lines: seq<FoldLine>)
  {
    (forall r | r in canon :: Shallow(canon, r, 0)) && forall i, j | 0 <= i < j < |lines| :: lines[i].cp != lines[j].cp
  }

  // A run that passes every check writes the data's tables, in the order binary
  // search needs, and they have the facts the key theorems assume exactly when
  // the data bring what no check looks at; a run over readable data fails only
  // when a check does.
  method Generate(canon: map<nat, seq<nat>>, ccc: map<nat, nat>, maxCCC: nat, lines: seq<FoldLine>)
    returns (o: Option<(Tables, Rendered)>)
    requires IsHighest(ccc, maxCCC) && Parsed(canon, ccc)
    ensures o.Some? ==> Renders(o.value.1, o.value.0) && (Facts(o.value.0) <==> DataFacts(canon, ccc, lines))
    ensures o.Some? ==> TablesFor(canon, ccc, lines, o.value.0) && ChecksPass(canon, maxCCC, o.value.0)
    ensures o.None? && Readable(canon, lines) ==>
      forall t | TablesFor(canon, ccc, lines, t) :: !ChecksPass(canon, maxCCC, t)
  {
    var full := FullDecompositions(canon);
    if full.None? { return None; }
    var folds := BuildFolds(lines);
    if folds.None? { return None; }
    var t := Tables(full.value, ccc, folds.value);
    assert TablesFor(canon, ccc, lines, t);
    if !ChecksPass(canon, maxCCC, t) {
      forall u | TablesFor(canon, ccc, lines, u) ensures !ChecksPass(canon, maxCCC, u) {
        TablesUnique(canon, ccc, lines, t, u);
      }
      return None;
    }
    ChecksGiveFacts(canon, maxCCC, lines, t);
    var d := SortEntries(t.decomp);
    var c := SortEntries(t.ccc);
    var f := SortEntries(t.fold);
    return Some((t, Rendered(d, c, f)));
  }

  // Past the checks, the facts hold exactly when the data bring the rest.
  lemma ChecksGiveFacts(canon: map<nat, seq<nat>>, maxCCC: nat, lines: seq<FoldLine>, t: Tables)
    requires IsHighest(t.ccc, maxCCC)
    requires TablesFor(canon, t.ccc, lines, t) && ChecksPass(canon, maxCCC, t)
    ensures DataFacts(canon, t.ccc, lines) ==> Facts(t)
    ensures Parsed(canon, t.ccc) && Facts(t) ==> DataFacts(canon, t.ccc, lines)
  {
    if DataFacts(canon, t.ccc, lines) { DataGivesFacts(canon, maxCCC, lines, t); }
    if Parsed(canon, t.ccc) && Facts(t) { FactsNeedData(canon, lines, t); }
  }

  // The checks are not too strict: tables that have the facts pass them, '/'
  // being in no mapping as written.
  lemma FactsPassChecks(canon: map<nat, seq<nat>>, maxCCC: nat, lines: seq<FoldLine>, t: Tables)
    requires TablesFor(canon, t.ccc, lines, t) && Facts(t)
    requires IsHighest(t.ccc, maxCCC) && (t.ccc != map[] ==> exists r :: r in t.ccc && t.ccc[r] == maxCCC)
    requires SLASH_CP !in canon && forall r | r in canon :: SLASH_CP !in canon[r]
    ensures ChecksPass(canon, maxCCC, t)
  {
    forall r | r in t.fold ensures HasDecomp(t.decomp, r) || !HasDecomp(t.decomp, t.fold[r]) {
      assert Decomposable(t, r) <==> HasDecomp(t.decomp, r);
      assert Decomposable(t, t.fold[r]) <==> HasDecomp(t.decomp, t.fold[r]);
    }
    forall r | r in t.fold && ClassOf(t.ccc, r) != ClassOf(t.ccc, t.fold[r])
      ensures ClassOf(t.ccc, r) == maxCCC && ClassOf(t.ccc, t.fold[r]) == 0
    {
      assert ClassOf(t.ccc, r) == CombiningClass(t, r) && ClassOf(t.ccc, t.fold[r]) == CombiningClass(t, t.fold[r]);
    }
  }

  // One fold onto '/' passes every check and leaves the facts false.
  lemma ChecksAreNotEnough()
    ensures var t, lines := Tables(map[], map[], map[0x41 := SLASH_CP]), [FoldLine(0x41, SLASH_CP)];
      && Parsed(map[], t.ccc) && IsHighest(t.ccc, 0) && TablesFor(map[], t.ccc, lines, t) && ChecksPass(map[], 0, t)
      && !DataFacts(map[], t.ccc, lines) && !Facts(t)
  {
    var t, lines := Tables(map[], map[], map[0x41 := SLASH_CP]), [FoldLine(0x41, SLASH_CP)];
    assert lines[0] in lines && t.fold[0x41] == SLASH_CP;
  }

  lemma FactsNeedData(canon: map<nat, seq<nat>>, lines: seq<FoldLine>, t: Tables)
    requires TablesFor(canon, t.ccc, lines, t) && Parsed(canon, t.ccc) && Facts(t)
    ensures DataFacts(canon, t.ccc, lines)
  {
    forall e | Mentioned(canon, e) ensures !IsHangul(e) {
      if e !in canon {
        MentionedIsExpanded(canon, t.decomp, e);
        var r :| r in t.decomp && e in t.decomp[r];
        assert !Decomposable(t, e);
      }
    }
    forall l | l in lines ensures l.cp == SLASH_CP <==> l.to == SLASH_CP { assert t.fold[l.cp] == l.to; }
  }

  lemma DataGivesFacts(canon: map<nat, seq<nat>>, maxCCC: nat, lines: seq<FoldLine>, t: Tables)
    requires IsHighest(t.ccc, maxCCC) && DataFacts(canon, t.ccc, lines)
    requires TablesFor(canon, t.ccc, lines, t) && ChecksPass(canon, maxCCC, t)
    ensures Facts(t)
  {
    ExpansionsClosed(canon, t.decomp);
    forall r | r in t.fold && CombiningClass(t, t.fold[r]) != CombiningClass(t, r)
      ensures HighestClass(t, CombiningClass(t, r)) && CombiningClass(t, t.fold[r]) == 0
    {
      assert ClassOf(t.ccc, r) == CombiningClass(t, r);
    }
    forall r | r in t.fold ensures r == SLASH_CP <==> t.fold[r] == SLASH_CP {
      var l :| l in lines && l.cp == r;
    }
  }

  // What the three lookups of canon.go read from the rendered slices.
  method ReadTables(g: Rendered, ghost t: Tables, r: nat) returns (d: seq<nat>, c: nat, f: nat)
    requires Renders(g, t)
    ensures d == DecomposeRune(t, r) && c == CombiningClass(t, r) && f == FoldRune(t, r)
  {
    var od := LookupIn(g.decomps, t.decomp, r);
    var oc := LookupIn(g.classes, t.ccc, r);
    var of := LookupIn(g.folds, t.fold, r);
    d := if od.Some? then od.value else [];
    c := if oc.Some? then oc.value else 0;
    f := if of.Some? then of.value else r;
  }
}
