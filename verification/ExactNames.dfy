/** What becomes of a delete beside a write of the very same name (macpush.go,
    parts 2 and 3; push.go, the rename pairing). */
module ExactNames {
  import opened Names
  import opened Wrappers
  import opened Keys
  import opened UnicodeTables
  import opened CaseConflicts
  import opened Batch
  import opened Phase2
  import Phase2Sound
  import MacSound
  import Replacement

  predicate MacRefused(e: Item)
  {
    e.v.Refused? && e.v.why.MacWrite?
  }

  // No tracking ref of d shares its file with a local ref, if that counts.
  predicate NoHalf(c: Context, d: Name)
  {
    c.local.None? || DeleteHalf(c, c.local.value, d) == []
  }

  // Entry i writes d and entry j deletes it. The delete has not been refused
  // but with the write by the Mac rule, or for its own tracking refs; and an
  // update has been refused by the Mac rule only.
  ghost predicate Beside(c: Context, items: seq<Item>, i: nat, j: nat, d: Name)
  {
    && i < |items| && j < |items|
    && (forall k | 0 <= k < |items| && items[k].ValidWrite() && items[k].Dst() == d :: k == i)
    && !items[i].del && items[j].del && items[i].Dst() == d == items[j].Dst()
    && (items[i].create <==> d !in c.remote)
    && (items[j].v.Refused? ==> MacRefused(items[i]) || !NoHalf(c, d))
    && (items[i].v.Refused? && !items[i].create ==> MacRefused(items[i]))
  }

  // What any pass does to the two.
  lemma OnlyRefusesFlags(a: seq<Item>, b: seq<Item>, i: nat)
    requires OnlyRefuses(a, b) && i < |a|
    ensures b[i].Dst() == a[i].Dst() && b[i].del == a[i].del && b[i].create == a[i].create
    ensures a[i].v.Refused? ==> b[i] == a[i]
  {
    assert b[i] == a[i] || b[i].(v := Valid) == a[i];
  }

  lemma FolderPassKeeps(c: Context, items: seq<Item>, i: nat, j: nat, d: Name)
    requires Beside(c, items, i, j, d)
    ensures Beside(c, FolderPass(c, items), i, j, d)
  {
    FolderPassRefuses(c, items);
    OnlyRefusesFlags(items, FolderPass(c, items), i);
    OnlyRefusesFlags(items, FolderPass(c, items), j);
  }

  // A held delete of d means that an update of d was refused.
  lemma HeldIsMacRefused(c: Context, items: seq<Item>, i: nat, j: nat, d: Name, es: set<Item>)
    requires Beside(c, items, i, j, d) && HeldDelete(c, es, items[j]) && (items[i].ValidWrite() ==> items[i] in es)
    ensures MacRefused(items[i])
  {
    assert items[i].ValidWrite() ==> d in Written(es);
  }

  lemma CasePassKeeps(c: Context, p: Plan, i: nat, j: nat, d: Name)
    requires Beside(c, p.items, i, j, d)
    ensures Beside(c, CasePass(c, p).items, i, j, d)
  {
    var es, after := Elems(p.items), CasePass(c, p).items;
    var refused, mac := CaseRefusals(c, es), p.macCreates + MacRefusals(c, es, p.kept);
    var judged := JudgeCases(c, p.items, p.kept);
    CasePassRefuses(c, p);
    OnlyRefusesFlags(p.items, after, i);
    OnlyRefusesFlags(p.items, after, j);
    MacSound.CasePassAt(c, p, i);
    assert judged[j] == p.items[j] && after[j] == JudgePaired(c, Elems(judged), refused, mac, judged[j]);
    if after[j] != p.items[j] && d in c.remote {
      assert judged[i] == p.items[i];
      HeldIsMacRefused(c, p.items, i, j, d, Elems(judged));
    }
  }

  lemma MacPassKeeps(c: Context, l: LocalSide, p: Plan, i: nat, j: nat, d: Name)
    requires Beside(c, p.items, i, j, d) && c.local == Some(l)
    ensures Beside(c, MacPass(c, l, p).items, i, j, d)
  {
    var es, after := Elems(p.items), MacPass(c, l, p).items;
    MacPassRefuses(c, l, p);
    OnlyRefusesFlags(p.items, after, i);
    OnlyRefusesFlags(p.items, after, j);
    MacSound.MacPassAt(c, l, p, i);
    if p.items[j].v.Valid? && NoHalf(c, d) && !MacRefused(after[i]) { MacSparesDelete(c, l, p, i, j, d); }
  }

  // Without a reason of its own, a delete outlives the pass unless the write
  // falls in it.
  lemma MacSparesDelete(c: Context, l: LocalSide, p: Plan, i: nat, j: nat, d: Name)
    requires Beside(c, p.items, i, j, d) && c.local == Some(l) && NoHalf(c, d)
    requires p.items[j].v.Valid? && !MacRefused(MacPass(c, l, p).items[i])
    ensures MacPass(c, l, p).items[j].v.Valid?
  {
    var es := Elems(p.items);
    var one := MacWrites(c, l, p.items);
    var exact := MacExacts(one, RefusedWrites(c, l, es));
    var two := MacRenames(c, exact, RefusedCreates(c, l, es));
    MacSound.MacPassAt(c, l, p, i);
    assert one[i] == JudgeMacWrite(c, l, es, p.items[i]) && one[j] == p.items[j];
    RefusedByName(c, l, p.items, i, j, d);
    assert exact[j] == JudgeMacExact(RefusedWrites(c, l, es), one[j]) == p.items[j];
    assert exact[i] == one[i] == p.items[i];
    if HeldDelete(c, Elems(exact), exact[j]) { HeldIsMacRefused(c, p.items, i, j, d, Elems(exact)); }
    assert two[j] == JudgePaired(c, Elems(exact), RefusedCreates(c, l, es), RefusedCreates(c, l, es), exact[j])
      == p.items[j];
    assert MacPass(c, l, p).items[j] == JudgeMacDelete(c, l, two[j]);
  }

  lemma RefusedByName(c: Context, l: LocalSide, items: seq<Item>, i: nat, j: nat, d: Name)
    requires Beside(c, items, i, j, d)
    ensures d in RefusedWrites(c, l, Elems(items)) ==> MacRefusesWrite(c, l, Elems(items), items[i])
  {
    if d in RefusedWrites(c, l, Elems(items)) {
      var e :| e in Elems(items) && MacRefusesWrite(c, l, Elems(items), e) && e.Dst() == d;
      var k :| 0 <= k < |items| && items[k] == e;
    }
  }

  lemma {:induction false} FixedPointKeeps(c: Context, p: Plan, i: nat, j: nat, d: Name)
    requires Beside(c, p.items, i, j, d)
    ensures Beside(c, CaseFixedPoint(c, p).items, i, j, d)
    decreases ValidCount(p.items)
  {
    if !CaseStable(c, p.items) {
      CasePassRefuses(c, p);
      RefusingShrinks(p.items, CasePass(c, p).items);
      CasePassKeeps(c, p, i, j, d);
      FixedPointKeeps(c, CasePass(c, p), i, j, d);
    }
  }

  lemma {:induction false} SettleKeeps(c: Context, p: Plan, i: nat, j: nat, d: Name)
    requires Beside(c, p.items, i, j, d)
    ensures Beside(c, Settle(c, p).items, i, j, d)
    decreases ValidCount(p.items)
  {
    var q := Round(c, p);
    FolderPassKeeps(c, p.items, i, j, d);
    FixedPointKeeps(c, p.(items := FolderPass(c, p.items)), i, j, d);
    RoundRefuses(c, p);
    if c.local.Some? {
      var r := MacPass(c, c.local.value, q);
      if r.items != q.items {
        MacPassRefuses(c, c.local.value, q);
        RefusingShrinks(q.items, r.items);
        MacPassKeeps(c, c.local.value, q, i, j, d);
        SettleKeeps(c, r, i, j, d);
      }
    }
  }

  lemma BesideAtStart(c: Context, ups: seq<Update>, i: nat, j: nat)
    requires ContextOk(c) && i < |ups| && j < |ups| && ups[i].dst == ups[j].dst
    requires Validate(c, ups)[i].ValidWrite() && Validate(c, ups)[j].ValidDelete()
    ensures Beside(c, Validate(c, ups), i, j, ups[j].dst)
  {
    ValidateOk(c, ups);
  }

  // A delete that validation passed beside a write of the same name stands
  // exactly when the Mac rule does not refuse the write, and no tracking ref of
  // the name shares its file with a local ref.
  lemma ExactDeleteStands(c: Context, ups: seq<Update>, i: nat, j: nat)
    requires ContextOk(c) && i < |ups| && j < |ups| && |Decide(c, ups)| == |ups| && ups[i].dst == ups[j].dst
    requires Validate(c, ups)[i].ValidWrite() && Validate(c, ups)[j].ValidDelete()
    ensures Decide(c, ups)[j].v.Valid? <==> NoHalf(c, ups[j].dst) && !MacRefused(Decide(c, ups)[i])
  {
    BesideAtStart(c, ups, i, j);
    SettleKeeps(c, Plan(Validate(c, ups), {}, {}), i, j, ups[j].dst);
    if Decide(c, ups)[j].v.Valid? {
      MacSound.DecideKeepsPaired(c, ups);
      if c.local.Some? {
        MacSound.DecideHasNoCollision(c, ups);
        MacSound.DeleteHalfIff(c, c.local.value, ups[j].dst);
      }
    }
  }

  // So beside a write that the case rule refused, by itself or through a delete
  // the Mac rule kept, the delete stands exactly when nothing is wrong with its
  // own tracking refs.
  lemma CaseRefusedDeleteStands(c: Context, ups: seq<Update>, i: nat, j: nat)
    requires ContextOk(c) && i < |ups| && j < |ups| && |Decide(c, ups)| == |ups| && ups[i].dst == ups[j].dst
    requires MacSound.RuleRefused(Decide(c, ups)[i]) && !MacRefused(Decide(c, ups)[i])
    requires Validate(c, ups)[j].ValidDelete()
    ensures Decide(c, ups)[j].v.Valid? <==> NoHalf(c, ups[j].dst)
  {
    DecideOk(c, ups);
    MacSound.NothingRuleRefusedYet(c, ups);
    OnlyRefusesFlags(Validate(c, ups), Decide(c, ups), i);
    ExactDeleteStands(c, ups, i, j);
  }

  // An update falls to the Mac rule only, and takes the delete with it.
  lemma UpdateTakesDelete(c: Context, ups: seq<Update>, i: nat, j: nat)
    requires ContextOk(c) && i < |ups| && j < |ups| && |Decide(c, ups)| == |ups| && ups[i].dst == ups[j].dst
    requires Validate(c, ups)[i].ValidWrite() && Validate(c, ups)[j].ValidDelete() && ups[i].dst in c.remote
    ensures Decide(c, ups)[i].v.Refused? ==> Decide(c, ups)[j].v.Refused?
  {
    BesideAtStart(c, ups, i, j);
    SettleKeeps(c, Plan(Validate(c, ups), {}, {}), i, j, ups[j].dst);
    ExactDeleteStands(c, ups, i, j);
  }

  // ---- one batch for each side

  lemma {:induction false} NothingKept(cs: seq<Conflict>)
    ensures KeptConflicts(cs, {}) == []
  {
    if cs != [] { NothingKept(cs[1..]); }
  }

  // A create the first pass of the case rule refuses stays refused for it.
  lemma FirstRefusalStays(c: Context, p: Plan, i: nat)
    requires p.kept == {} && i < |p.items| == |Settle(c, p).items|
    requires FolderPass(c, p.items) == p.items && CaseRefuses(c, Elems(p.items), p.items[i])
    ensures Settle(c, p).items[i].v.Refused? && Settle(c, p).items[i].v.why.CaseVariant?
    ensures !Settle(c, p).items[i].del
  {
    var es, q := Elems(p.items), CasePass(c, p);
    NothingKept(CaseConflictsOf(c, es, p.items[i].Dst()));
    Phase2Sound.RefusesIsListed(c, es, p.items[i]);
    assert !CaseStable(c, p.items);
    assert JudgeCases(c, p.items, p.kept)[i]
      == p.items[i].Refuse(CaseVariant(CaseConflictsOf(c, es, p.items[i].Dst())));
    CaseFixedPointRefuses(c, q);
    assert p.(items := FolderPass(c, p.items)) == p;
    assert Round(c, p) == CaseFixedPoint(c, q);
    OnlyRefusesFlags(q.items, Round(c, p).items, i);
    RestStays(c, p, i);
  }

  lemma RestStays(c: Context, p: Plan, i: nat)
    requires i < |p.items| == |Settle(c, p).items| == |Round(c, p).items| && Round(c, p).items[i].v.Refused?
    ensures Settle(c, p).items[i] == Round(c, p).items[i]
  {
    var q := Round(c, p);
    if c.local.Some? {
      var r := MacPass(c, c.local.value, q);
      MacPassRefuses(c, c.local.value, q);
      OnlyRefusesFlags(q.items, r.items, i);
      SettleRefuses(c, r);
      OnlyRefusesFlags(r.items, Settle(c, r).items, i);
    }
  }

  // x is a branch that may be written, o a ref of another spelling.
  ghost predicate Twins(k: Keys, rules: Rules, x: Name, o: Name)
  {
    && Split(k) && !rules.compOk([]) && IsBranch(x) && GoodDestination(rules, x) && IsRef(o)
    && |x| == |o| && x != o && Pairs(k, x, o)
  }

  // The remote has o, and the batch replaces x.
  function Holding(k: Keys, rules: Rules, o: Name, local: Option<LocalSide>): Context
  {
    Context(k, rules, Git(n => Some("new"), s => Some(Commit), s => true, (a, b) => Some(true)),
            map[o := "old"], [], HeadAbsent, local)
  }

  function Both(x: Name): seq<Update>
  {
    [Update([], x, false), Update(x, x, false)]
  }

  function Approved(x: Name): seq<Item>
  {
    [Item(Both(x)[0], true, false, "", Valid), Item(Both(x)[1], false, true, "new", Valid)]
  }

  lemma TwinDeleteJudged(k: Keys, rules: Rules, x: Name, o: Name, local: Option<LocalSide>)
    requires Twins(k, rules, x, o) && x != []
    ensures JudgeEntry(Holding(k, rules, o, local), Both(x), Both(x)[0]) == Approved(x)[0]
  {
  }

  lemma TwinCreateJudged(k: Keys, rules: Rules, x: Name, o: Name, local: Option<LocalSide>)
    requires Twins(k, rules, x, o) && x != []
    ensures JudgeEntry(Holding(k, rules, o, local), Both(x), Both(x)[1]) == Approved(x)[1]
  {
    var c := Holding(k, rules, o, local);
    Replacement.NoSkipped(x);
    NotTwice(x);
    assert Occupancy(c.skipped, x).None? && c.git.resolve(x) == Some("new");
    TwinMayBeMade(c, x);
    assert Judge(c, false, Both(x)[1]) == JudgeWrite(c, false, Both(x)[1]);
  }

  lemma NotTwice(x: Name)
    ensures !Duplicated(Both(x), x)
  {
  }

  lemma TwinMayBeMade(c: Context, x: Name)
    requires x !in c.remote && c.git.typeOf("new") == Some(Commit)
    ensures JudgeTransition(c, Both(x)[1], "new").Valid?
  {
  }

  lemma TwinsJudgedValid(k: Keys, rules: Rules, x: Name, o: Name, local: Option<LocalSide>)
    requires Twins(k, rules, x, o) && x != []
    ensures Validate(Holding(k, rules, o, local), Both(x)) == Approved(x)
  {
    TwinDeleteJudged(k, rules, x, o, local);
    TwinCreateJudged(k, rules, x, o, local);
  }

  lemma ReplacedFinal(a: Item, b: Item, o: Name)
    requires a.ValidDelete() && b.ValidWrite() && a.Dst() == b.Dst() != o
    ensures FinalSet({o}, Elems([a, b])) == {b.Dst(), o}
  {
    assert Elems([a, b]) == {a, b};
    assert Deleted({a, b}) == {a.Dst()} && Written({a, b}) == {b.Dst()};
  }

  lemma NoneNested(x: Name, o: Name)
    requires |x| == |o|
    ensures FolderConflicts({x, o}, x) == {}
  {
  }

  lemma TwinPasses(c: Context, es: set<Item>, e: Item, x: Name, o: Name)
    requires FinalSet(c.remote.Keys, es) == {x, o} && |x| == |o| && e.Dst() == x
    ensures JudgeFolders(c, es, e) == e
  {
    NoneNested(x, o);
  }

  lemma AllPass(c: Context, items: seq<Item>)
    requires forall i | 0 <= i < |items| :: JudgeFolders(c, Elems(items), items[i]) == items[i]
    ensures FolderPass(c, items) == items
  {
  }

  // The preflight finds nothing, the case rule the other spelling.
  lemma TwinsChecked(c: Context, items: seq<Item>, x: Name, o: Name)
    requires Split(c.keys) && FinalSet(c.remote.Keys, Elems(items)) == {x, o} && |x| == |o| && Pairs(c.keys, x, o)
    requires |items| == 2 && items[0].Dst() == x && items[1].ValidCreate() && items[1].Dst() == x
    ensures FolderPass(c, items) == items && CaseRefuses(c, Elems(items), items[1])
  {
    forall i | 0 <= i < 2 ensures JudgeFolders(c, Elems(items), items[i]) == items[i] {
      TwinPasses(c, Elems(items), items[i], x, o);
    }
    AllPass(c, items);
    TwinFound(c.keys, x, o);
  }

  lemma TwinFound(k: Keys, x: Name, o: Name)
    requires Split(k) && Pairs(k, x, o)
    ensures ConflictsIn(k, {x, o}, x) != []
  {
    ConflictsInComplete(k, {x, o}, x);
  }

  // The create is refused beside o.
  lemma TwinRefused(k: Keys, rules: Rules, x: Name, o: Name, local: Option<LocalSide>)
    requires Twins(k, rules, x, o) && x != []
    ensures var d := Decide(Holding(k, rules, o, local), Both(x));
      |d| == 2 && !d[1].del && d[1].v.Refused? && d[1].v.why.CaseVariant?
  {
    var c, items := Holding(k, rules, o, local), Approved(x);
    TwinsJudgedValid(k, rules, x, o, local);
    ReplacedFinal(items[0], items[1], o);
    TwinsChecked(c, items, x, o);
    DecideOk(c, Both(x));
    FirstRefusalStays(c, Plan(items, {}, {}), 1);
  }

  // The delete stands exactly when nothing is wrong with its tracking refs.
  lemma TwinDeleteStands(k: Keys, rules: Rules, x: Name, o: Name, local: Option<LocalSide>)
    requires Twins(k, rules, x, o) && x != []
    ensures var c := Holding(k, rules, o, local);
      |Decide(c, Both(x))| == 2 && (Decide(c, Both(x))[0].v.Valid? <==> NoHalf(c, x))
  {
    TwinsJudgedValid(k, rules, x, o, local);
    TwinRefused(k, rules, x, o, local);
    CaseRefusedDeleteStands(Holding(k, rules, o, local), Both(x), 1, 0);
  }

  // ---- with names written out

  // One letter that folds.
  const LETTERS := Tables(map[], map[], map['M' as nat := 'm' as nat])

  function Capital(dir: Name): Name
  {
    dir + [SLASH] + Ascii("Main")
  }

  function Small(dir: Name): Name
  {
    dir + [SLASH] + Ascii("main")
  }

  // Two refs of one folder whose names differ by the case of a letter.
  lemma SpellingsPair(dir: Name)
    requires REFS_SLASH <= dir
    ensures IsRef(Capital(dir)) && IsRef(Small(dir)) && |Capital(dir)| == |Small(dir)| && Capital(dir) != Small(dir)
    ensures Pairs(KeysOf(LETTERS), Capital(dir), Small(dir))
  {
    var x, o, p := Capital(dir), Small(dir), Below(dir) + [SLASH];
    assert x[|dir| + 1] == Rune('M' as nat) && o[|dir| + 1] == Rune('m' as nat);
    assert Below(x) == p + Ascii("Main") && Below(o) == p + Ascii("main");
    assert CaseKey(LETTERS, Ascii("Main")) == CaseKey(LETTERS, Ascii("main"));
    CaseKeyConcat(LETTERS, p, Ascii("Main"));
    CaseKeyConcat(LETTERS, p, Ascii("main"));
    Phase2Sound.InPrefixes(x, Below(x));
    Phase2Sound.InPrefixes(o, Below(o));
    assert PairsBy(KeysOf(LETTERS), x, o, Below(x), Below(o), RelCase);
  }

  const MAIN := Small(REFS_HEADS)
  const CAPITAL := Capital(REFS_HEADS)

  lemma HeadsAreRefs()
    ensures REFS_SLASH <= REFS_HEADS
  {
    assert REFS_HEADS == REFS_SLASH + Ascii("heads");
  }

  lemma MainIsGood(rules: Rules)
    requires Replacement.Lenient(rules)
    ensures IsBranch(CAPITAL) && GoodDestination(rules, CAPITAL)
  {
    Replacement.BranchName(Ascii("Main"));
    Replacement.RootsAreClean(rules);
    assert Clean(rules, REFS_HEADS);
    Replacement.CleanName(rules, CAPITAL);
  }

  lemma MainTwins()
    ensures Twins(KeysOf(LETTERS), Replacement.NonEmpty(), CAPITAL, MAIN)
  {
    HeadsAreRefs();
    SpellingsPair(REFS_HEADS);
    MainIsGood(Replacement.NonEmpty());
    TableKeysSplit(LETTERS);
  }

  // The remote has refs/heads/main; the batch deletes and creates
  // refs/heads/Main.
  function Replacing(local: Option<LocalSide>): Context
  {
    Holding(KeysOf(LETTERS), Replacement.NonEmpty(), MAIN, local)
  }

  // Without the Mac rule the create is refused and the delete stands.
  lemma DeleteStandsAlone()
    ensures var d := Decide(Replacing(None), Both(CAPITAL));
      |d| == 2 && d[0].v.Valid? && d[1].v.Refused? && d[1].v.why.CaseVariant?
  {
    MainTwins();
    TwinRefused(KeysOf(LETTERS), Replacement.NonEmpty(), CAPITAL, MAIN, None);
    TwinDeleteStands(KeysOf(LETTERS), Replacement.NonEmpty(), CAPITAL, MAIN, None);
  }

  const REMOTES := REFS_SLASH + Ascii("remotes/o")

  // A Mac with a local refs/remotes/o/main, to which refs/heads/Main would map
  // as refs/remotes/o/Main.
  function Mac(): LocalSide
  {
    LocalSide({Small(REMOTES)}, map[CAPITAL := {Capital(REMOTES)}])
  }

  lemma MainHasHalf(c: Context, x: Name, tr: Name, o: Name)
    requires Split(c.keys) && c.local == Some(LocalSide({o}, map[x := {tr}])) && Pairs(c.keys, tr, o)
    ensures !NoHalf(c, x)
  {
    MacSound.DeleteHalfIff(c, c.local.value, x);
    assert tr in TrackingOf(c.local.value, x) && o in c.local.value.refs;
  }

  // There the same batch loses both halves.
  lemma DeleteFallsOnMac()
    ensures var d := Decide(Replacing(Some(Mac())), Both(CAPITAL));
      |d| == 2 && d[0].v.Refused? && d[1].v.Refused? && d[1].v.why.CaseVariant?
  {
    MainTwins();
    TwinRefused(KeysOf(LETTERS), Replacement.NonEmpty(), CAPITAL, MAIN, Some(Mac()));
    TwinDeleteStands(KeysOf(LETTERS), Replacement.NonEmpty(), CAPITAL, MAIN, Some(Mac()));
    SpellingsPair(REMOTES);
    MainHasHalf(Replacing(Some(Mac())), CAPITAL, Capital(REMOTES), Small(REMOTES));
  }
}
