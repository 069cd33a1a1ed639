/** The generated tables (unicode_tables.go) and their lookups (canon.go).

    A table is a slice of entries in ascending code point order, read by binary
    search. `Tables` is the three tables seen as maps; `Facts` is what the
    theorems about keys assume of them, and module GenUnicode derives it from
    the generator's own checks. */
module UnicodeTables {
  import opened Wrappers

  datatype Entry<+V> = Entry(r: nat, v: V)

  ghost predicate Ascending<V>(table: seq<Entry<V>>)
  {
    forall i, j | 0 <= i < j < |table| :: table[i].r < table[j].r
  }

  // What a lookup must answer: the one entry for r, if the table has it.
  ghost predicate Answers<V>(table: seq<Entry<V>>, r: nat, o: Option<V>)
  {
    match o
    case Some(v) => exists i | 0 <= i < |table| :: table[i] == Entry(r, v)
    case None => forall i | 0 <= i < |table| :: table[i].r != r
  }

  // sort.Search over "entry's code point is at least r", then the equality test.
  method Lookup<V>(table: seq<Entry<V>>, r: nat) returns (o: Option<V>)
    requires Ascending(table)
    ensures Answers(table, r, o)
  {
    var lo, hi := 0, |table|;
    while lo < hi
      invariant 0 <= lo <= hi <= |table|
      invariant forall k | 0 <= k < lo :: table[k].r < r
      invariant forall k | hi <= k < |table| :: table[k].r >= r
    {
      var mid := (lo + hi) / 2;
      if table[mid].r >= r { hi := mid; } else { lo := mid + 1; }
    }
    if lo < |table| && table[lo].r == r {
      o := Some(table[lo].v);
    } else {
      o := None;
    }
  }

  datatype Tables = Tables(decomp: map<nat, seq<nat>>, ccc: map<nat, nat>, fold: map<nat, nat>)

  // The three slices hold exactly the three maps.
  ghost predicate Holds<V(!new)>(table: seq<Entry<V>>, m: map<nat, V>)
  {
    && Ascending(table)
    && (forall i | 0 <= i < |table| :: table[i].r in m && m[table[i].r] == table[i].v)
    && (forall r | r in m :: exists i | 0 <= i < |table| :: table[i].r == r)
  }

  lemma LookupIsMap<V(!new)>(table: seq<Entry<V>>, m: map<nat, V>, r: nat, o: Option<V>)
    requires Holds(table, m) && Answers(table, r, o)
    ensures o == if r in m then Some(m[r]) else None
  {
  }

  // Binary search over a table answers exactly what the map holds.
  method LookupIn<V(!new)>(table: seq<Entry<V>>, ghost m: map<nat, V>, r: nat) returns (o: Option<V>)
    requires Holds(table, m)
    ensures o == if r in m then Some(m[r]) else None
  {
    o := Lookup(table, r);
    LookupIsMap(table, m, r, o);
  }

  // ---- the value functions of canon.go

  function DecomposeRune(t: Tables, r: nat): seq<nat>
  {
    if r in t.decomp then t.decomp[r] else []
  }

  function CombiningClass(t: Tables, r: nat): nat
  {
    if r in t.ccc then t.ccc[r] else 0
  }

  function FoldRune(t: Tables, r: nat): nat
  {
    if r in t.fold then t.fold[r] else r
  }

  const SBASE := 0xAC00
  const LBASE := 0x1100
  const VBASE := 0x1161
  const TBASE := 0x11A7
  const LCOUNT := 19
  const VCOUNT := 21
  const TCOUNT := 28
  const NCOUNT := 588
  const SCOUNT := 11172

  predicate IsHangul(r: nat)
  {
    SBASE <= r < SBASE + SCOUNT
  }

  // The arithmetic decomposition of Unicode section 3.12.
  function Jamo(r: nat): (js: seq<nat>)
    requires IsHangul(r)
  {
    var si := r - SBASE;
    var lv := [LBASE + si / NCOUNT, VBASE + si % NCOUNT / TCOUNT];
    if si % TCOUNT != 0 then lv + [TBASE + si % TCOUNT] else lv
  }

  predicate IsJamo(r: nat)
  {
    || LBASE <= r < LBASE + LCOUNT
    || VBASE <= r < VBASE + VCOUNT
    || TBASE < r < TBASE + TCOUNT
  }

  // Section 3.12's composition of an L V [T] run.
  function ComposeJamo(js: seq<nat>): int
    requires |js| == 2 || |js| == 3
  {
    SBASE + ((js[0] - LBASE) * VCOUNT + (js[1] - VBASE)) * TCOUNT + (if |js| == 3 then js[2] - TBASE else 0)
  }

  // Every syllable decomposes to jamo of the right kinds, and the standard's
  // composition takes them back to it, so no two syllables share them.
  lemma JamoRoundTrip(r: nat)
    requires IsHangul(r)
    ensures var js := Jamo(r);
            && (|js| == 2 || |js| == 3)
            && LBASE <= js[0] < LBASE + LCOUNT
            && VBASE <= js[1] < VBASE + VCOUNT
            && (|js| == 3 ==> TBASE < js[2] < TBASE + TCOUNT)
            && ComposeJamo(js) == r
            && forall j | j in js :: IsJamo(j) && !IsHangul(j)
  {
    var si := r - SBASE;
    assert si == (si / NCOUNT) * NCOUNT + si % NCOUNT;
    assert si % NCOUNT == (si % NCOUNT / TCOUNT) * TCOUNT + si % NCOUNT % TCOUNT;
    assert si % NCOUNT % TCOUNT == si % TCOUNT;
  }

  predicate Decomposable(t: Tables, r: nat)
  {
    IsHangul(r) || DecomposeRune(t, r) != []
  }

  // Full decompositions hold nothing that decomposes further (the generator's
  // recursive expansion), and the jamo are not in the table.
  ghost predicate Closed(t: Tables)
  {
    && (forall r, e | r in t.decomp && e in t.decomp[r] :: !Decomposable(t, e))
    && (forall j | IsJamo(j) :: j !in t.decomp)
  }

  // Generator check 2.
  ghost predicate FoldKeepsDecomposed(t: Tables)
  {
    forall r | r in t.fold && !Decomposable(t, r) :: !Decomposable(t, t.fold[r])
  }

  ghost predicate HighestClass(t: Tables, c: nat)
  {
    forall r | r in t.ccc :: t.ccc[r] <= c
  }

  // Generator check 3: a fold changes a class only from the highest one to 0.
  ghost predicate FoldKeepsOrder(t: Tables)
  {
    forall r | r in t.fold && CombiningClass(t, t.fold[r]) != CombiningClass(t, r) ::
      HighestClass(t, CombiningClass(t, r)) && CombiningClass(t, t.fold[r]) == 0
  }

  const SLASH_CP := 0x2F

  // Generator check 4, with the three facts about '/' its tests pin.
  ghost predicate SlashAlone(t: Tables)
  {
    && SLASH_CP !in t.decomp
    && (forall r | r in t.decomp :: SLASH_CP !in t.decomp[r])
    && CombiningClass(t, SLASH_CP) == 0
    && (forall r | r in t.fold :: r == SLASH_CP <==> t.fold[r] == SLASH_CP)
  }

  ghost predicate Facts(t: Tables)
  {
    Closed(t) && FoldKeepsDecomposed(t) && FoldKeepsOrder(t) && SlashAlone(t)
  }
}
