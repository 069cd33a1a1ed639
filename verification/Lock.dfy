/** The push lock and the command loop around it (lock.go; loopEnv in main.go)
    as interleaved steps of any number of sessions. No call's answer is
    trusted: whatever a create or a trash reports, it may have taken effect, may
    never, or may take effect at any later time. What the steps rely on is that
    a create never replaces a file, that nonces are unique, and that nobody but
    these sessions touches the lock file. */
module Lock {
  import opened Wrappers

  type Nonce = nat

  // What stands at the lock's path.
  datatype File = Body(nonce: Nonce) | Corrupt

  // What git sends. Neutral covers the commands that leave the lock alone.
  datatype Line = ListForPush | PushLine(wellFormed: bool) | OptionLine(poison: bool) | Neutral | Unknown | Blank
    | EndOfInput

  datatype Pc =
    | Command
    | Creating(nonce: Nonce)
    | ReadingBack(nonce: Nonce)
    | Batching(start: nat)
    | Writing(start: nat)
    | Leaving
    | Trashing
    | Gone

  datatype Session = Session(pc: Pc, lock: Option<Nonce>, poisoned: bool, heard: seq<Line>)

  datatype World = World(
    file: Option<File>,
    sessions: seq<Session>,
    drawn: map<Nonce, nat>,    // which session drew a nonce
    creates: set<Nonce>,       // creates that may still land
    trashes: set<Nonce>,       // trashes that may still land, by the lock they were meant for
    wrote: seq<Nonce>,         // the lock each call that writes a pack or a ref was made under
    writes: multiset<Nonce>,   // writes that may still land
    landed: seq<Nonce>         // the lock behind each write that took effect, in that order
  )

  datatype Effect = Lands(intact: bool) | Never | Later

  datatype Answer = Committed | Refusal | Ambiguous | Error

  datatype Event =
    | Hear(i: nat, line: Line, fails: bool, nonce: Nonce)
    | Create(i: nat, effect: Effect, answer: Answer)
    | ReadBack(i: nat, fails: bool, scanFails: bool)
    | Write(i: nat, effect: Effect)
    | EndPush(i: nat, fails: bool)
    | CheckRelease(i: nat, fails: bool)
    | TrashLock(i: nat, effect: Effect)
    | LandCreate(nonce: Nonce, intact: bool)
    | LandTrash(nonce: Nonce)
    | LandWrite(nonce: Nonce)
    | Die(i: nat)

  // ---- one session's steps

  // Every return releases the lock, if there is one.
  function Leave(s: Session): Session
  {
    s.(pc := if s.lock.Some? then Leaving else Gone)
  }

  // The lines a push batch is parsed from: options are taken out.
  predicate Parses(lines: seq<Line>)
  {
    forall k | 0 <= k < |lines| :: lines[k].OptionLine? || lines[k] == PushLine(true)
  }

  function HearCommand(s: Session, line: Line, fails: bool, nonce: Nonce): Session
    requires s.pc == Command
  {
    var t := s.(heard := s.heard + [line]);
    match line
    case ListForPush => if fails then Leave(t) else t.(pc := Creating(nonce))
    case PushLine(_) => if s.lock.None? then Leave(t) else t.(pc := Batching(|s.heard|))
    case OptionLine(poison) => t.(poisoned := s.poisoned || poison)
    case Neutral => if fails then Leave(t) else t
    case Unknown => Leave(t)
    case Blank => Leave(t)
    case EndOfInput => Leave(t)
  }

  function HearBatch(s: Session, line: Line): Session
    requires s.pc.Batching? && s.pc.start <= |s.heard|
  {
    var t := s.(heard := s.heard + [line]);
    match line
    case Blank =>
      if !Parses(s.heard[s.pc.start..]) then Leave(t)
      else if s.poisoned then t.(pc := Command)
      else t.(pc := Writing(s.pc.start))
    case EndOfInput => Leave(t)
    case OptionLine(poison) => t.(poisoned := s.poisoned || poison)
    case _ => t
  }

  // ---- the world's steps

  function Put(w: World, i: nat, s: Session): World
    requires i < |w.sessions|
  {
    w.(sessions := w.sessions[i := s])
  }

  predicate Enabled(w: World, e: Event)
  {
    match e
    case Hear(i, _, _, nonce) =>
      i < |w.sessions| && nonce !in w.drawn &&
      (w.sessions[i].pc == Command || (w.sessions[i].pc.Batching? && w.sessions[i].pc.start <= |w.sessions[i].heard|))
    case Create(i, _, _) => i < |w.sessions| && w.sessions[i].pc.Creating?
    case ReadBack(i, _, _) => i < |w.sessions| && w.sessions[i].pc.ReadingBack?
    case Write(i, _) => i < |w.sessions| && w.sessions[i].pc.Writing? && w.sessions[i].lock.Some?
    case EndPush(i, _) => i < |w.sessions| && w.sessions[i].pc.Writing?
    case CheckRelease(i, _) => i < |w.sessions| && w.sessions[i].pc == Leaving
    case TrashLock(i, _) => i < |w.sessions| && w.sessions[i].pc == Trashing && w.sessions[i].lock.Some?
    case LandCreate(n, _) => n in w.creates
    case LandTrash(n) => n in w.trashes
    case LandWrite(n) => n in w.writes
    case Die(i) => i < |w.sessions|
  }

  // A create takes effect only where nothing stands. It can leave a body that
  // does not parse.
  function Created(w: World, n: Nonce, intact: bool): World
  {
    if w.file.None? then w.(file := Some(if intact then Body(n) else Corrupt)) else w
  }

  function CreateStep(w: World, i: nat, effect: Effect, answer: Answer): World
    requires i < |w.sessions| && w.sessions[i].pc.Creating?
  {
    var s := w.sessions[i];
    var n := s.pc.nonce;
    var w' := match effect
      case Lands(intact) => Created(w, n, intact)
      case Never => w
      case Later => w.(creates := w.creates + {n});
    Put(w', i, if answer == Committed then s.(pc := ReadingBack(n)) else Leave(s))
  }

  // The lock is held on the word of the file alone.
  function ReadBackStep(w: World, i: nat, fails: bool, scanFails: bool): World
    requires i < |w.sessions| && w.sessions[i].pc.ReadingBack?
  {
    var s := w.sessions[i];
    if fails || w.file != Some(Body(s.pc.nonce)) then Put(w, i, Leave(s))
    else
      var t := s.(lock := Some(s.pc.nonce), pc := Command);
      Put(w, i, if scanFails then Leave(t) else t)
  }

  function CheckReleaseStep(w: World, i: nat, fails: bool): World
    requires i < |w.sessions|
  {
    var s := w.sessions[i];
    var own := s.lock.Some? && w.file == Some(Body(s.lock.value));
    Put(w, i, s.(pc := if !fails && own then Trashing else Gone))
  }

  // A trash removes whatever stands at the path when it takes effect.
  function TrashStep(w: World, i: nat, effect: Effect): World
    requires i < |w.sessions| && w.sessions[i].lock.Some?
  {
    var s := w.sessions[i];
    var w' := match effect
      case Lands(_) => w.(file := None)
      case Never => w
      case Later => w.(trashes := w.trashes + {s.lock.value});
    Put(w', i, s.(pc := Gone))
  }

  function WriteStep(w: World, n: Nonce, effect: Effect): World
  {
    var w' := w.(wrote := w.wrote + [n]);
    match effect
    case Lands(_) => w'.(landed := w.landed + [n])
    case Never => w'
    case Later => w'.(writes := w.writes + multiset{n})
  }

  function Next(w: World, e: Event): World
    requires Enabled(w, e)
  {
    match e
    case Hear(i, line, fails, nonce) =>
      var s := w.sessions[i];
      if s.pc == Command then
        var w' := Put(w, i, HearCommand(s, line, fails, nonce));
        if line == ListForPush && !fails then w'.(drawn := w.drawn[nonce := i]) else w'
      else Put(w, i, HearBatch(s, line))
    case Create(i, effect, answer) => CreateStep(w, i, effect, answer)
    case ReadBack(i, fails, scanFails) => ReadBackStep(w, i, fails, scanFails)
    case Write(i, effect) => WriteStep(w, w.sessions[i].lock.value, effect)
    case EndPush(i, fails) =>
      Put(w, i, if fails then Leave(w.sessions[i]) else w.sessions[i].(pc := Command))
    case CheckRelease(i, fails) => CheckReleaseStep(w, i, fails)
    case TrashLock(i, effect) => TrashStep(w, i, effect)
    case LandCreate(n, intact) => Created(w, n, intact).(creates := w.creates - {n})
    case LandTrash(n) => w.(file := None, trashes := w.trashes - {n})
    case LandWrite(n) => w.(landed := w.landed + [n], writes := w.writes - multiset{n})
    case Die(i) => Put(w, i, w.sessions[i].(pc := Gone))
  }

  // ---- runs

  // Any number of sessions before their first command; no lock stands.
  ghost predicate Init(w: World)
  {
    && w.file.None? && w.drawn == map[] && w.creates == {} && w.trashes == {}
    && w.wrote == [] && w.writes == multiset{} && w.landed == []
    && forall i | 0 <= i < |w.sessions| :: w.sessions[i] == Session(Command, None, false, [])
  }

  ghost predicate Run(ws: seq<World>, es: seq<Event>)
  {
    && |ws| == |es| + 1 && Init(ws[0])
    && forall k | 0 <= k < |es| :: Enabled(ws[k], es[k]) && ws[k + 1] == Next(ws[k], es[k])
  }

  ghost predicate Reachable(w: World)
  {
    exists ws: seq<World>, es: seq<Event> :: Run(ws, es) && ws[|es|] == w
  }

  // ---- the invariant

  predicate Holds(w: World, i: nat)
  {
    i < |w.sessions| && w.sessions[i].lock.Some? && w.sessions[i].pc != Gone
  }

  predicate Drew(w: World, n: Nonce, i: nat)
  {
    n in w.drawn && w.drawn[n] == i
  }

  predicate LockOk(w: World, i: nat)
    requires i < |w.sessions|
  {
    var s := w.sessions[i];
    && (s.lock.Some? ==> Drew(w, s.lock.value, i))
    && (s.lock.Some? && s.pc != Gone ==> w.file == Some(Body(s.lock.value)))
    && (s.pc.Creating? || s.pc.ReadingBack? ==>
        Drew(w, s.pc.nonce, i) && s.lock != Some(s.pc.nonce) && s.pc.nonce !in w.wrote)
    && (s.pc.Batching? || s.pc.Writing? || s.pc == Leaving || s.pc == Trashing ==> s.lock.Some?)
  }

  ghost predicate TrashOk(w: World, n: Nonce)
  {
    && w.file == Some(Body(n)) && n in w.drawn
    && w.drawn[n] < |w.sessions| && w.sessions[w.drawn[n]].pc == Gone
  }

  // A nonce whose turn to write is over is held by nobody.
  ghost predicate TurnsOk(w: World)
  {
    forall k: nat, i: nat | k < |w.wrote| && Holds(w, i) && w.wrote[k] == w.sessions[i].lock.value ::
      w.wrote[k] == w.wrote[|w.wrote| - 1]
  }

  ghost predicate Contiguous(q: seq<Nonce>)
  {
    forall a, b, c | 0 <= a < b < c < |q| && q[a] == q[c] :: q[b] == q[a]
  }

  // lines[start] begins a batch that nothing has ended yet.
  predicate Open(lines: seq<Line>, start: nat)
  {
    start < |lines| && lines[start].PushLine?
      && forall k | start <= k < |lines| :: lines[k] != Blank && lines[k] != EndOfInput
  }

  // The last line heard ends a batch that began at start and parses.
  predicate Complete(lines: seq<Line>, start: nat)
  {
    && |lines| > 0 && lines[|lines| - 1] == Blank
    && Open(lines[..|lines| - 1], start)
    && Parses(lines[start..|lines| - 1])
  }

  ghost predicate TalkOk(s: Session)
  {
    && (s.poisoned <==> OptionLine(true) in s.heard)
    && (s.pc.Batching? ==> Open(s.heard, s.pc.start))
    && (s.pc.Writing? ==> Complete(s.heard, s.pc.start) && !s.poisoned)
  }

  ghost predicate Core(w: World)
  {
    && (forall i | 0 <= i < |w.sessions| :: LockOk(w, i))
    && (forall n | n in w.trashes :: TrashOk(w, n))
    && (w.file.Some? && w.file.value.Body? ==> w.file.value.nonce in w.drawn)
    && w.creates <= w.drawn.Keys
    && (forall n | n in w.wrote :: n in w.drawn)
    && (forall i | 0 <= i < |w.sessions| :: TalkOk(w.sessions[i]))
    && TurnsOk(w) && Contiguous(w.wrote)
  }

  lemma CommandKeepsTalk(s: Session, line: Line, fails: bool, nonce: Nonce)
    requires TalkOk(s) && s.pc == Command
    ensures TalkOk(HearCommand(s, line, fails, nonce))
  {
    var heard := s.heard + [line];
    assert OptionLine(true) in heard <==> OptionLine(true) in s.heard || line == OptionLine(true);
  }

  lemma BatchKeepsTalk(s: Session, line: Line)
    requires TalkOk(s) && s.pc.Batching?
    ensures s.pc.start <= |s.heard| && TalkOk(HearBatch(s, line))
  {
    var heard := s.heard + [line];
    assert OptionLine(true) in heard <==> OptionLine(true) in s.heard || line == OptionLine(true);
    assert heard[..|heard| - 1] == s.heard;
    assert heard[s.pc.start..|heard| - 1] == s.heard[s.pc.start..];
  }

  // Steps that write nothing and make no new holder keep the turns.
  lemma SameHoldersKeepTurns(w: World, w': World)
    requires TurnsOk(w) && w'.wrote == w.wrote && |w'.sessions| == |w.sessions|
    requires forall i: nat | Holds(w', i) :: Holds(w, i) && w'.sessions[i].lock == w.sessions[i].lock
    ensures TurnsOk(w')
  {
    forall k: nat, i: nat | k < |w'.wrote| && Holds(w', i) && w'.wrote[k] == w'.sessions[i].lock.value
      ensures w'.wrote[k] == w'.wrote[|w'.wrote| - 1]
    {
      assert Holds(w, i);
    }
  }

  // Replacing one session that has not gone, its lock kept, draws or no.
  lemma SessionKeeps(w: World, w': World, i: nat, t: Session)
    requires Core(w) && i < |w.sessions| && w.sessions[i].pc != Gone && t.lock == w.sessions[i].lock
    requires w' == w.(sessions := w.sessions[i := t], drawn := w'.drawn)
    requires forall n | n in w.drawn :: n in w'.drawn && w'.drawn[n] == w.drawn[n]
    requires LockOk(w', i) && TalkOk(t)
    ensures Core(w')
  {
    forall j | 0 <= j < |w'.sessions| ensures LockOk(w', j) { assert LockOk(w, j); }
    forall n | n in w'.trashes ensures TrashOk(w', n) { assert TrashOk(w, n); }
    SameHoldersKeepTurns(w, w');
  }

  lemma HearKeeps(w: World, e: Event)
    requires Core(w) && e.Hear? && Enabled(w, e)
    ensures Core(Next(w, e))
  {
    var w' := Next(w, e);
    assert LockOk(w, e.i) && TalkOk(w.sessions[e.i]);
    if w.sessions[e.i].pc == Command { CommandKeepsTalk(w.sessions[e.i], e.line, e.fails, e.nonce); }
    else { BatchKeepsTalk(w.sessions[e.i], e.line); }
    assert e.nonce !in w.wrote;
    SessionKeeps(w, w', e.i, w'.sessions[e.i]);
  }

  lemma CreateKeeps(w: World, e: Event)
    requires Core(w) && e.Create? && Enabled(w, e)
    ensures Core(Next(w, e))
  {
    var w' := Next(w, e);
    assert LockOk(w, e.i);
    forall j | 0 <= j < |w'.sessions| ensures LockOk(w', j) { assert LockOk(w, j); }
    forall n | n in w'.trashes ensures TrashOk(w', n) { assert TrashOk(w, n); }
    assert TalkOk(w.sessions[e.i]);
    SameHoldersKeepTurns(w, w');
  }

  // A nonce no write was made under starts no old turn.
  lemma ReadBackKeeps(w: World, e: Event)
    requires Core(w) && e.ReadBack? && Enabled(w, e)
    ensures Core(Next(w, e))
  {
    var w' := Next(w, e);
    assert LockOk(w, e.i) && TalkOk(w.sessions[e.i]);
    forall j | 0 <= j < |w'.sessions| ensures LockOk(w', j) { assert LockOk(w, j); }
    forall n | n in w'.trashes ensures TrashOk(w', n) { assert TrashOk(w, n); }
    ReadBackKeepsTurns(w, e);
  }

  lemma ReadBackKeepsTurns(w: World, e: Event)
    requires Core(w) && e.ReadBack? && Enabled(w, e)
    ensures TurnsOk(Next(w, e))
  {
    var w' := Next(w, e);
    assert LockOk(w, e.i);
    forall k: nat, i: nat | k < |w'.wrote| && Holds(w', i) && w'.wrote[k] == w'.sessions[i].lock.value
      ensures w'.wrote[k] == w'.wrote[|w'.wrote| - 1]
    {
      assert w.wrote[k] in w.wrote;
      assert Holds(w, i);
    }
  }

  lemma ContiguousAdd(q: seq<Nonce>, n: Nonce)
    requires Contiguous(q) && forall k | 0 <= k < |q| && q[k] == n :: n == q[|q| - 1]
    ensures Contiguous(q + [n])
  {
    var q' := q + [n];
    forall a, b, c | 0 <= a < b < c < |q'| && q'[a] == q'[c] ensures q'[b] == q'[a] {
      assert q[a] == q'[a] && q[b] == q'[b];
      if c == |q| && b < |q| - 1 { assert q[b] == q[a]; }
    }
  }

  lemma WriteKeeps(w: World, e: Event)
    requires Core(w) && e.Write? && Enabled(w, e)
    ensures Core(Next(w, e))
  {
    var w' := Next(w, e);
    assert LockOk(w, e.i) && Holds(w, e.i);
    forall j | 0 <= j < |w'.sessions| ensures LockOk(w', j) { assert LockOk(w, j); }
    HolderHasNoTrash(w, e.i);
    ContiguousAdd(w.wrote, w.sessions[e.i].lock.value);
    WriteKeepsTurns(w, e);
  }

  lemma WriteKeepsTurns(w: World, e: Event)
    requires Core(w) && e.Write? && Enabled(w, e)
    ensures TurnsOk(Next(w, e))
  {
    var w' := Next(w, e);
    assert LockOk(w, e.i) && Holds(w, e.i);
    forall k: nat, i: nat | k < |w'.wrote| && Holds(w', i) && w'.wrote[k] == w'.sessions[i].lock.value
      ensures w'.wrote[k] == w'.wrote[|w'.wrote| - 1]
    {
      assert LockOk(w, i) && Holds(w, i);
    }
  }

  // Steps of one session that keep its lock and leave the file as it is.
  lemma MoveKeeps(w: World, w': World, i: nat, pc: Pc)
    requires Core(w) && i < |w.sessions| && w' == Put(w, i, w.sessions[i].(pc := pc))
    requires pc in {Command, Leaving, Trashing, Gone} && (pc in {Leaving, Trashing} ==> w.sessions[i].lock.Some?)
    requires w.sessions[i].pc != Gone || pc == Gone
    ensures Core(w')
  {
    assert LockOk(w, i) && TalkOk(w.sessions[i]);
    forall j | 0 <= j < |w'.sessions| ensures LockOk(w', j) { assert LockOk(w, j); }
    forall n | n in w'.trashes ensures TrashOk(w', n) { assert TrashOk(w, n); }
    SameHoldersKeepTurns(w, w');
  }

  // A holder's nonce has no trash on its way: that is sent on the way out.
  lemma HolderHasNoTrash(w: World, i: nat)
    requires Core(w) && Holds(w, i)
    ensures w.file == Some(Body(w.sessions[i].lock.value)) && w.trashes == {}
  {
    assert LockOk(w, i);
    forall n ensures n !in w.trashes { assert n in w.trashes ==> TrashOk(w, n); }
  }

  // One lock file, one live holder.
  lemma OneHolder(w: World, i: nat, j: nat)
    requires Core(w) && Holds(w, i) && Holds(w, j)
    ensures i == j
  {
    assert LockOk(w, i) && LockOk(w, j);
  }

  lemma TrashKeeps(w: World, e: Event)
    requires Core(w) && e.TrashLock? && Enabled(w, e)
    ensures Core(Next(w, e))
  {
    var w' := Next(w, e);
    HolderHasNoTrash(w, e.i);
    assert LockOk(w, e.i) && TalkOk(w.sessions[e.i]);
    forall j | 0 <= j < |w'.sessions| ensures LockOk(w', j) {
      assert LockOk(w, j);
      if Holds(w, j) { OneHolder(w, e.i, j); }
    }
    SameHoldersKeepTurns(w, w');
  }

  lemma LandCreateKeeps(w: World, e: Event)
    requires Core(w) && e.LandCreate? && Enabled(w, e)
    ensures Core(Next(w, e))
  {
    var w' := Next(w, e);
    forall j | 0 <= j < |w'.sessions| ensures LockOk(w', j) { assert LockOk(w, j); }
    forall n | n in w'.trashes ensures TrashOk(w', n) { assert TrashOk(w, n); }
    SameHoldersKeepTurns(w, w');
  }

  lemma LandTrashKeeps(w: World, e: Event)
    requires Core(w) && e.LandTrash? && Enabled(w, e)
    ensures Core(Next(w, e))
  {
    var w' := Next(w, e);
    assert TrashOk(w, e.nonce);
    forall n ensures n in w.trashes ==> n == e.nonce { assert n in w.trashes ==> TrashOk(w, n); }
    assert w'.trashes == {};
    forall j | 0 <= j < |w'.sessions| ensures LockOk(w', j) {
      assert LockOk(w, j);
      assert Holds(w, j) ==> w.trashes == {} by { if Holds(w, j) { HolderHasNoTrash(w, j); } }
    }
    SameHoldersKeepTurns(w, w');
  }

  lemma LandWriteKeeps(w: World, e: Event)
    requires Core(w) && e.LandWrite? && Enabled(w, e)
    ensures Core(Next(w, e))
  {
    var w' := Next(w, e);
    forall j | 0 <= j < |w'.sessions| ensures LockOk(w', j) { assert LockOk(w, j); }
    forall n | n in w'.trashes ensures TrashOk(w', n) { assert TrashOk(w, n); }
    SameHoldersKeepTurns(w, w');
  }

  lemma CoreKeeps(w: World, e: Event)
    requires Core(w) && Enabled(w, e)
    ensures Core(Next(w, e))
  {
    match e
    case Hear(_, _, _, _) => HearKeeps(w, e);
    case Create(_, _, _) => CreateKeeps(w, e);
    case ReadBack(_, _, _) => ReadBackKeeps(w, e);
    case Write(_, _) => WriteKeeps(w, e);
    case EndPush(i, fails) =>
      assert LockOk(w, i);
      MoveKeeps(w, Next(w, e), i, if fails then Leaving else Command);
    case CheckRelease(i, _) =>
      assert LockOk(w, i);
      MoveKeeps(w, Next(w, e), i, Next(w, e).sessions[i].pc);
    case TrashLock(_, _) => TrashKeeps(w, e);
    case LandCreate(_, _) => LandCreateKeeps(w, e);
    case LandTrash(_) => LandTrashKeeps(w, e);
    case LandWrite(_) => LandWriteKeeps(w, e);
    case Die(i) => MoveKeeps(w, Next(w, e), i, Gone);
  }

  // The create of n is over: it has landed, or never will.
  ghost predicate Spent(w: World, n: Nonce)
  {
    n !in w.creates && forall i | 0 <= i < |w.sessions| :: w.sessions[i].pc != Creating(n)
  }

  // A create lands at most once: a lock that stands, or was written under, does
  // not come again.
  ghost predicate OnceOk(w: World)
  {
    && (forall n | w.file == Some(Body(n)) || n in w.wrote :: Spent(w, n))
    && (forall i | 0 <= i < |w.sessions| && w.sessions[i].pc.Creating? :: w.sessions[i].pc.nonce !in w.creates)
    && (forall n | n in w.landed || n in w.writes :: n in w.wrote)
  }

  // A session is creating only if it was, or has just drawn the nonce.
  lemma StillCreating(w: World, e: Event, i: nat, n: Nonce)
    requires Enabled(w, e) && i < |w.sessions| && Next(w, e).sessions[i].pc == Creating(n)
    ensures (w.sessions[i].pc == Creating(n) && !(e.Create? && e.i == i)) || (e.Hear? && n == e.nonce)
  {
  }

  lemma NewCreates(w: World, e: Event, n: Nonce)
    requires Enabled(w, e) && n in Next(w, e).creates
    ensures n in w.creates || (e.Create? && w.sessions[e.i].pc == Creating(n))
  {
  }

  lemma SameCount(w: World, e: Event)
    requires Enabled(w, e)
    ensures |Next(w, e).sessions| == |w.sessions|
  {
  }

  lemma SpentStays(w: World, e: Event, n: Nonce)
    requires Enabled(w, e) && Spent(w, n) && n in w.drawn
    ensures Spent(Next(w, e), n)
  {
    SameCount(w, e);
    if n in Next(w, e).creates { NewCreates(w, e, n); }
    forall i | 0 <= i < |w.sessions| ensures Next(w, e).sessions[i].pc != Creating(n) {
      if Next(w, e).sessions[i].pc == Creating(n) { StillCreating(w, e, i, n); }
    }
  }

  // Only the write events touch the record of writes.
  lemma OtherStepsWriteNothing(w: World, e: Event)
    requires Enabled(w, e) && !e.Write? && !e.LandWrite?
    ensures Next(w, e).wrote == w.wrote && Next(w, e).landed == w.landed && Next(w, e).writes == w.writes
  {
  }

  // Writes that landed, or may, were made.
  lemma LandedWereMade(w: World, e: Event, n: Nonce)
    requires OnceOk(w) && Enabled(w, e) && (n in Next(w, e).landed || n in Next(w, e).writes)
    ensures n in Next(w, e).wrote
  {
    if e.Write? {
      assert Next(w, e) == WriteStep(w, w.sessions[e.i].lock.value, e.effect);
      assert n == w.sessions[e.i].lock.value || n in w.landed || n in w.writes;
    } else if e.LandWrite? {
      assert n == e.nonce || n in w.landed || n in w.writes;
    } else {
      OtherStepsWriteNothing(w, e);
    }
  }

  // How a lock comes to stand or to be written under.
  lemma NewStanding(w: World, e: Event, n: Nonce)
    requires Core(w) && Enabled(w, e)
    requires Next(w, e).file == Some(Body(n)) || n in Next(w, e).wrote
    ensures w.file == Some(Body(n)) || n in w.wrote
      || (e.Create? && w.sessions[e.i].pc == Creating(n) && e.effect.Lands?) || (e.LandCreate? && e.nonce == n)
  {
    assert e.Write? ==> LockOk(w, e.i);
  }

  // A lock that comes to stand, or is written under, is spent.
  lemma StandingIsSpent(w: World, e: Event, n: Nonce)
    requires Core(w) && OnceOk(w) && Enabled(w, e)
    requires Next(w, e).file == Some(Body(n)) || n in Next(w, e).wrote
    ensures Spent(Next(w, e), n)
  {
    NewStanding(w, e, n);
    if w.file == Some(Body(n)) || n in w.wrote {
      SpentStays(w, e, n);
    } else if e.Create? {
      OneDrawer(w, e.i, n);
    }
  }

  // Nobody else is creating the same lock.
  lemma OneDrawer(w: World, i: nat, n: Nonce)
    requires Core(w) && i < |w.sessions|
    ensures w.sessions[i].pc == Creating(n) ==>
      forall j | 0 <= j < |w.sessions| && j != i :: w.sessions[j].pc != Creating(n)
  {
    if w.sessions[i].pc == Creating(n) {
      assert LockOk(w, i);
      forall j | 0 <= j < |w.sessions| && j != i ensures w.sessions[j].pc != Creating(n) { assert LockOk(w, j); }
    }
  }

  lemma CreatingIsNew(w: World, e: Event, i: nat, n: Nonce)
    requires Core(w) && OnceOk(w) && Enabled(w, e) && i < |w.sessions| && Next(w, e).sessions[i].pc == Creating(n)
    ensures n !in Next(w, e).creates
  {
    StillCreating(w, e, i, n);
    if e.Create? { OneDrawer(w, e.i, n); }
    if n in Next(w, e).creates { NewCreates(w, e, n); }
  }

  lemma OnceKeeps(w: World, e: Event)
    requires Core(w) && OnceOk(w) && Enabled(w, e)
    ensures OnceOk(Next(w, e))
  {
    var w' := Next(w, e);
    SameCount(w, e);
    forall n | w'.file == Some(Body(n)) || n in w'.wrote ensures Spent(w', n) { StandingIsSpent(w, e, n); }
    forall i | 0 <= i < |w'.sessions| && w'.sessions[i].pc.Creating? ensures w'.sessions[i].pc.nonce !in w'.creates {
      CreatingIsNew(w, e, i, w'.sessions[i].pc.nonce);
    }
    forall n | n in w'.landed || n in w'.writes ensures n in w'.wrote { LandedWereMade(w, e, n); }
  }

  ghost predicate Inv(w: World)
  {
    Core(w) && OnceOk(w)
  }

  lemma StepKeeps(w: World, e: Event)
    requires Inv(w) && Enabled(w, e)
    ensures Inv(Next(w, e))
  {
    CoreKeeps(w, e);
    OnceKeeps(w, e);
  }

  lemma {:induction false} RunKeeps(ws: seq<World>, es: seq<Event>, k: nat)
    requires Run(ws, es) && k <= |es|
    ensures Inv(ws[k])
  {
    if k > 0 {
      RunKeeps(ws, es, k - 1);
      StepKeeps(ws[k - 1], es[k - 1]);
      assert ws[k] == Next(ws[k - 1], es[k - 1]);
    }
  }

  lemma ReachableInv(w: World)
    requires Reachable(w)
    ensures Inv(w)
  {
    var ws, es :| Run(ws, es) && ws[|es|] == w;
    RunKeeps(ws, es, |es|);
  }

  // ---- what every run keeps

  // At most one live session holds the lock, and the file is its own.
  lemma MutualExclusion(w: World, i: nat, j: nat)
    requires Reachable(w) && Holds(w, i) && Holds(w, j)
    ensures i == j && w.file == Some(Body(w.sessions[i].lock.value))
  {
    ReachableInv(w);
    OneHolder(w, i, j);
    assert LockOk(w, i);
  }

  // A lock file is only ever removed, and only by the release of the session
  // whose body it holds.
  lemma RemovesOnlyOwn(w: World, e: Event)
    requires Reachable(w) && Enabled(w, e) && w.file.Some? && Next(w, e).file != w.file
    ensures Next(w, e).file.None? && w.file.value.Body? && w.file.value.nonce in w.drawn
    ensures var n := w.file.value.nonce; var i := w.drawn[n];
      (e.TrashLock? && e.i == i && w.sessions[i].lock == Some(n))
        || (e.LandTrash? && e.nonce == n && i < |w.sessions| && w.sessions[i].pc == Gone)
  {
    ReachableInv(w);
    match e
    case TrashLock(i, _) => assert LockOk(w, i);
    case LandTrash(n) => assert TrashOk(w, n);
    case _ =>
  }

  // Every write is made by the holder, for a batch that came whole, parses and
  // had no option the helper cannot honour before its end.
  lemma WritesAreGuarded(w: World, i: nat, effect: Effect)
    requires Reachable(w) && Enabled(w, Write(i, effect))
    ensures Holds(w, i) && w.file == Some(Body(w.sessions[i].lock.value))
    ensures forall j: nat | Holds(w, j) :: j == i
    ensures Complete(w.sessions[i].heard, w.sessions[i].pc.start) && OptionLine(true) !in w.sessions[i].heard
  {
    ReachableInv(w);
    assert LockOk(w, i) && TalkOk(w.sessions[i]);
    forall j: nat | Holds(w, j) ensures j == i { OneHolder(w, i, j); }
  }

  // Said of the lines themselves: what was heard since start is push lines that
  // parse and options that can be honoured, then the blank line.
  lemma WritesFollowABatch(w: World, i: nat, effect: Effect)
    requires Reachable(w) && Enabled(w, Write(i, effect))
    ensures var heard, start := w.sessions[i].heard, w.sessions[i].pc.start;
      && start + 1 < |heard| && heard[start] == PushLine(true) && heard[|heard| - 1] == Blank
      && forall k | start <= k < |heard| - 1 :: heard[k] == PushLine(true) || heard[k] == OptionLine(false)
  {
    ReachableInv(w);
    var s := w.sessions[i];
    var lines := s.heard[s.pc.start..|s.heard| - 1];
    assert LockOk(w, i) && TalkOk(s);
    forall k | s.pc.start <= k < |s.heard| - 1 ensures s.heard[k] == PushLine(true) || s.heard[k] == OptionLine(false) {
      assert lines[k - s.pc.start] == s.heard[k];
      assert s.heard[k] in s.heard;
    }
    assert s.heard[..|s.heard| - 1][s.pc.start] == s.heard[s.pc.start];
  }

  // ---- leaving

  // A session that holds the lock goes only by dying, or after trying to give
  // the lock back: it could not look at the file, or it called for its removal.
  lemma GoesOnlyReleasing(w: World, e: Event, i: nat)
    requires Reachable(w) && Enabled(w, e) && Holds(w, i) && Next(w, e).sessions[i].pc == Gone
    ensures e == Die(i) || e == CheckRelease(i, true) || (e.TrashLock? && e.i == i)
  {
    ReachableInv(w);
    assert LockOk(w, i);
    match e
    case Hear(j, line, fails, nonce) => HearingHolds(w, e, i);
    case Create(_, _, _) => StepHolds(w, e, i);
    case ReadBack(_, _, _) => StepHolds(w, e, i);
    case EndPush(_, _) =>
    case Die(_) =>
    case CheckRelease(_, _) =>
    case TrashLock(_, _) =>
    case _ =>
  }

  lemma HearingHolds(w: World, e: Event, i: nat)
    requires Enabled(w, e) && e.Hear? && Holds(w, i)
    ensures Next(w, e).sessions[i].pc != Gone
  {
  }

  lemma StepHolds(w: World, e: Event, i: nat)
    requires Enabled(w, e) && (e.Create? || e.ReadBack?) && Holds(w, i)
    ensures Next(w, e).sessions[i].pc != Gone
  {
  }

  // Everything that ends a session, but for its death: in the command loop the
  // end of the input, a blank line, a line that is no command, and a command
  // that fails; in a batch the end of the input, and a blank line after lines
  // that do not parse; and a push that fails.
  predicate Ends(s: Session, e: Event, i: nat)
  {
    match e
    case Hear(j, line, fails, _) =>
      j == i &&
      (if s.pc == Command then
         line == EndOfInput || line == Blank || line == Unknown || (fails && (line == ListForPush || line == Neutral))
       else if s.pc.Batching? && s.pc.start <= |s.heard| then
         line == EndOfInput
         || (line == Blank && exists k ::
           s.pc.start <= k < |s.heard| && !s.heard[k].OptionLine? && s.heard[k] != PushLine(true))
       else false)
    case EndPush(j, fails) => j == i && fails
    case _ => false
  }

  // A holder whose session ends this way goes to give its lock back.
  lemma EndingLeaves(w: World, e: Event, i: nat)
    requires Reachable(w) && Enabled(w, e) && Holds(w, i) && Ends(w.sessions[i], e, i)
    ensures Next(w, e).sessions[i].pc == Leaving && Next(w, e).sessions[i].lock == w.sessions[i].lock
    ensures Next(w, e).file == w.file
  {
    var s := w.sessions[i];
    if e.Hear? && s.pc.Batching? && e.line == Blank {
      var k :| s.pc.start <= k < |s.heard| && !s.heard[k].OptionLine? && s.heard[k] != PushLine(true);
      assert s.heard[s.pc.start..][k - s.pc.start] == s.heard[k];
    }
  }

  // And there is nothing else for it to do there: it looks at the file, which
  // is its own, and calls for its removal, which removes it if it takes effect.
  lemma LeavingReleases(w: World, e: Event, i: nat)
    requires Reachable(w) && Enabled(w, e) && Holds(w, i) && w.sessions[i].pc in {Leaving, Trashing}
    requires Next(w, e).sessions[i] != w.sessions[i]
    ensures e == Die(i) || (e.CheckRelease? && e.i == i) || (e.TrashLock? && e.i == i)
    ensures e == CheckRelease(i, false) ==> Next(w, e).sessions[i].pc == Trashing
    ensures e.TrashLock? && e.effect.Lands? ==> Next(w, e).file.None?
  {
    ReachableInv(w);
    assert LockOk(w, i);
  }

  // Any batch of lines that parse, without an option that cannot be honoured,
  // is carried out.
  lemma BatchIsWritten(w: World, i: nat, fails: bool, nonce: Nonce)
    requires Reachable(w) && Enabled(w, Hear(i, Blank, fails, nonce)) && w.sessions[i].pc.Batching?
    requires forall k | w.sessions[i].pc.start <= k < |w.sessions[i].heard| ::
      w.sessions[i].heard[k] == PushLine(true) || w.sessions[i].heard[k].OptionLine?
    ensures OptionLine(true) !in w.sessions[i].heard ==>
      Next(w, Hear(i, Blank, fails, nonce)).sessions[i].pc == Writing(w.sessions[i].pc.start)
    ensures OptionLine(true) in w.sessions[i].heard ==> Next(w, Hear(i, Blank, fails, nonce)).sessions[i].pc == Command
  {
    ReachableInv(w);
    var s := w.sessions[i];
    assert TalkOk(s);
    assert Parses(s.heard[s.pc.start..]);
  }

  // The calls of two pushes never interleave.
  lemma PushesAreSerial(w: World, a: nat, b: nat, c: nat)
    requires Reachable(w) && a < b < c < |w.wrote| && w.wrote[a] == w.wrote[c]
    ensures w.wrote[b] == w.wrote[a]
  {
    ReachableInv(w);
  }

  // ---- writes that take effect later

  // A write lands while the lock it was made under still stands.
  predicate Prompt(w: World, e: Event)
  {
    e.LandWrite? ==> w.file == Some(Body(e.nonce))
  }

  // No two pushes' effects interleave so far, and a lock that stands is the
  // last one anything landed under, if anything did.
  ghost predicate LandOk(w: World)
  {
    && Contiguous(w.landed)
    && forall k | 0 <= k < |w.landed| && w.file == Some(Body(w.landed[k])) :: w.landed[k] == w.landed[|w.landed| - 1]
  }

  lemma LandUnder(w: World, w': World, n: Nonce)
    requires LandOk(w) && w.file == Some(Body(n)) && w'.file == w.file && w'.landed == w.landed + [n]
    ensures LandOk(w')
  {
    ContiguousAdd(w.landed, n);
  }

  // A lock written under does not come to stand again.
  lemma NoReturn(w: World, e: Event, n: Nonce)
    requires Inv(w) && Enabled(w, e) && n in w.wrote && Next(w, e).file == Some(Body(n))
    ensures w.file == Some(Body(n))
  {
    assert Spent(w, n);
    match e
    case Write(i, _) => assert Next(w, e) == WriteStep(w, w.sessions[i].lock.value, e.effect);
    case _ =>
  }

  lemma PromptStepKeeps(w: World, e: Event)
    requires Inv(w) && LandOk(w) && Enabled(w, e) && Prompt(w, e)
    ensures LandOk(Next(w, e))
  {
    var w' := Next(w, e);
    if e.Write? {
      assert LockOk(w, e.i);
      assert w' == WriteStep(w, w.sessions[e.i].lock.value, e.effect);
      if e.effect.Lands? { LandUnder(w, w', w.sessions[e.i].lock.value); }
    } else if e.LandWrite? {
      LandUnder(w, w', e.nonce);
    } else {
      OtherStepsWriteNothing(w, e);
      forall k | 0 <= k < |w'.landed| && w'.file == Some(Body(w'.landed[k]))
        ensures w'.landed[k] == w'.landed[|w'.landed| - 1]
      {
        assert w.landed[k] in w.landed;
        NoReturn(w, e, w.landed[k]);
      }
    }
  }

  // When no write lands after its lock is gone, the effects of two pushes never
  // interleave either.
  lemma {:induction false} PromptRunsLandSerially(ws: seq<World>, es: seq<Event>, k: nat)
    requires Run(ws, es) && k <= |es| && forall j | 0 <= j < |es| :: Prompt(ws[j], es[j])
    ensures LandOk(ws[k])
  {
    if k > 0 {
      PromptRunsLandSerially(ws, es, k - 1);
      RunKeeps(ws, es, k - 1);
      PromptStepKeeps(ws[k - 1], es[k - 1]);
      assert ws[k] == Next(ws[k - 1], es[k - 1]);
    }
  }

  lemma ReachableNext(w: World, e: Event)
    requires Reachable(w) && Enabled(w, e)
    ensures Reachable(Next(w, e))
  {
    var ws, es :| Run(ws, es) && ws[|es|] == w;
    var worlds, events := ws + [Next(w, e)], es + [e];
    forall k | 0 <= k < |events| ensures Enabled(worlds[k], events[k]) && worlds[k + 1] == Next(worlds[k], events[k]) {
      if k < |es| { assert Enabled(ws[k], es[k]) && ws[k + 1] == Next(ws[k], es[k]); }
    }
    assert Run(worlds, events);
  }

  const NEW_SESSION := Session(Command, None, false, [])

  // With no lock standing, an undisturbed session acquires it.
  lemma Acquire(w: World, i: nat, n: Nonce) returns (w': World)
    requires Reachable(w) && i < |w.sessions| && w.sessions[i] == NEW_SESSION && w.file.None? && n !in w.drawn
    ensures Reachable(w') && Holds(w', i)
    ensures w' == w.(file := Some(Body(n)), drawn := w.drawn[n := i],
      sessions := w.sessions[i := Session(Command, Some(n), false, [ListForPush])])
  {
    var w1 := Next(w, Hear(i, ListForPush, false, n));
    ReachableNext(w, Hear(i, ListForPush, false, n));
    assert w1.sessions[i] == Session(Creating(n), None, false, [ListForPush]);
    var w2 := Next(w1, Create(i, Lands(true), Committed));
    ReachableNext(w1, Create(i, Lands(true), Committed));
    assert w2.sessions[i] == Session(ReadingBack(n), None, false, [ListForPush]) && w2.file == Some(Body(n));
    w' := Next(w2, ReadBack(i, false, false));
    ReachableNext(w2, ReadBack(i, false, false));
    assert w'.sessions == w.sessions[i := w'.sessions[i]];
  }

  // It then hears a batch of one line, and begins to write.
  lemma BeginPush(w: World, i: nat, n: Nonce, spare: Nonce) returns (w': World)
    requires Reachable(w) && i < |w.sessions| && spare !in w.drawn
    requires w.sessions[i] == Session(Command, Some(n), false, [ListForPush])
    ensures Reachable(w')
    ensures w' == w.(sessions :=
      w.sessions[i := Session(Writing(1), Some(n), false, [ListForPush, PushLine(true), Blank])])
  {
    var e1, e2 := Hear(i, PushLine(true), false, spare), Hear(i, Blank, false, spare);
    var w1 := Next(w, e1);
    ReachableNext(w, e1);
    assert w1.sessions[i] == Session(Batching(1), Some(n), false, [ListForPush, PushLine(true)]);
    assert w1.sessions[i].heard[1..] == [PushLine(true)];
    w' := Next(w1, e2);
    ReachableNext(w1, e2);
    assert w'.sessions[i].heard == [ListForPush, PushLine(true), Blank];
    assert w'.sessions == w.sessions[i := w'.sessions[i]];
  }

  // It ends its push and is told to stop.
  lemma StopPushing(w: World, i: nat, n: Nonce, spare: Nonce) returns (w': World)
    requires Reachable(w) && i < |w.sessions| && w.sessions[i].pc.Writing? && w.sessions[i].lock == Some(n)
      && spare !in w.drawn
    ensures Reachable(w') && |w'.sessions| == |w.sessions| && w'.sessions[i].pc == Leaving
      && w'.sessions[i].lock == Some(n)
    ensures w' == w.(sessions := w.sessions[i := w'.sessions[i]])
  {
    var w1 := Next(w, EndPush(i, false));
    ReachableNext(w, EndPush(i, false));
    w' := Next(w1, Hear(i, EndOfInput, false, spare));
    ReachableNext(w1, Hear(i, EndOfInput, false, spare));
    assert w'.sessions == w.sessions[i := w'.sessions[i]];
  }

  // It gives the lock back.
  lemma ReleaseLock(w: World, i: nat, n: Nonce) returns (w': World)
    requires Reachable(w) && i < |w.sessions| && w.sessions[i].pc == Leaving && w.sessions[i].lock == Some(n)
    requires w.file == Some(Body(n))
    ensures Reachable(w') && |w'.sessions| == |w.sessions| && w'.sessions[i].pc == Gone
    ensures w' == w.(file := None, sessions := w.sessions[i := w'.sessions[i]])
  {
    var w1 := Next(w, CheckRelease(i, false));
    ReachableNext(w, CheckRelease(i, false));
    w' := Next(w1, TrashLock(i, Lands(true)));
    ReachableNext(w1, TrashLock(i, Lands(true)));
    assert w'.sessions == w.sessions[i := w'.sessions[i]];
  }

  lemma GiveBack(w: World, i: nat, n: Nonce, spare: Nonce) returns (w': World)
    requires Reachable(w) && i < |w.sessions| && w.sessions[i].pc.Writing? && w.sessions[i].lock == Some(n)
    requires w.file == Some(Body(n)) && spare !in w.drawn
    ensures Reachable(w') && |w'.sessions| == |w.sessions| && w'.sessions[i].pc == Gone
    ensures w' == w.(file := None, sessions := w.sessions[i := w'.sessions[i]])
  {
    var w1 := StopPushing(w, i, n, spare);
    w' := ReleaseLock(w1, i, n);
    assert w'.sessions == w.sessions[i := w'.sessions[i]];
  }

  // A lock once taken and given back is free for the next session.
  lemma LockGoesRound(w: World, i: nat, j: nat, n: Nonce, m: Nonce, spare: Nonce) returns (w': World)
    requires Reachable(w) && i < |w.sessions| && j < |w.sessions| && i != j && w.file.None?
    requires w.sessions[i] == NEW_SESSION && w.sessions[j] == NEW_SESSION
    requires n !in w.drawn && m !in w.drawn && spare !in w.drawn && n != m && n != spare && m != spare
    ensures Reachable(w') && Holds(w', j) && w'.sessions[j].lock == Some(m) && w'.file == Some(Body(m))
    ensures |w'.sessions| == |w.sessions| && w'.sessions[i].pc == Gone
  {
    var w1 := Acquire(w, i, n);
    var w2 := BeginPush(w1, i, n, spare);
    var w3 := GiveBack(w2, i, n, spare);
    w' := Acquire(w3, j, m);
  }

  // The first push: one write lands, one is on its way, and the lock is free.
  lemma LeaveOneWrite(w: World) returns (w': World)
    requires Reachable(w) && w == World(None, [NEW_SESSION, NEW_SESSION], map[], {}, {}, [], multiset{}, [])
    ensures Reachable(w') && w'.file.None? && w'.drawn == map[0 := 0] && w'.landed == [0] && 0 in w'.writes
    ensures |w'.sessions| == 2 && w'.sessions[1] == NEW_SESSION
  {
    var w1 := Acquire(w, 0, 0);
    var w2 := BeginPush(w1, 0, 0, 2);
    var w3 := WriteOnce(w2, 0, 0, Lands(true));
    var w4 := WriteOnce(w3, 0, 0, Later);
    w' := GiveBack(w4, 0, 0, 2);
  }

  // One call that writes.
  lemma WriteOnce(w: World, i: nat, n: Nonce, effect: Effect) returns (w': World)
    requires Reachable(w) && i < |w.sessions| && w.sessions[i].pc.Writing? && w.sessions[i].lock == Some(n)
    ensures Reachable(w') && w' == WriteStep(w, n, effect)
  {
    w' := Next(w, Write(i, effect));
    ReachableNext(w, Write(i, effect));
  }

  // The second: the late write falls between its writes.
  lemma LandBetween(w: World) returns (w': World)
    requires Reachable(w) && w.file.None? && w.drawn == map[0 := 0] && w.landed == [0] && 0 in w.writes
    requires |w.sessions| == 2 && w.sessions[1] == NEW_SESSION
    ensures Reachable(w') && w'.landed == [0, 1, 0, 1]
  {
    var w1 := Acquire(w, 1, 1);
    var w2 := BeginPush(w1, 1, 1, 2);
    w' := LandLateWrite(w2);
  }

  lemma LandLateWrite(w: World) returns (w': World)
    requires Reachable(w) && w.landed == [0] && 0 in w.writes
    requires |w.sessions| == 2 && w.sessions[1].pc.Writing? && w.sessions[1].lock == Some(1)
    ensures Reachable(w') && w'.landed == [0, 1, 0, 1]
  {
    var w3 := WriteOnce(w, 1, 1, Lands(true));
    var w4 := Next(w3, LandWrite(0));
    ReachableNext(w3, LandWrite(0));
    w' := WriteOnce(w4, 1, 1, Lands(true));
  }

  // A write whose answer was lost and that lands after its session has given
  // the lock back falls between the writes of the next push.
  lemma LateWriteInterleaves() returns (w: World)
    ensures Reachable(w) && w.landed == [0, 1, 0, 1] && !Contiguous(w.landed)
  {
    var w0 := World(None, [NEW_SESSION, NEW_SESSION], map[], {}, {}, [], multiset{}, []);
    assert Run([w0], []);
    var w1 := LeaveOneWrite(w0);
    w := LandBetween(w1);
    assert w.landed[0] == w.landed[2] && w.landed[1] != w.landed[0];
  }

  // ---- one session after another

  // A session that lists for a push again is refused by its own lock.
  lemma SecondListEnds(w: World, i: nat, fails: bool, scanFails: bool)
    requires Reachable(w) && Enabled(w, ReadBack(i, fails, scanFails)) && w.sessions[i].lock.Some?
    ensures Next(w, ReadBack(i, fails, scanFails)).sessions[i].pc == Leaving
    ensures Next(w, ReadBack(i, fails, scanFails)).sessions[i].lock == w.sessions[i].lock
  {
    ReachableInv(w);
    assert LockOk(w, i);
  }
}
