/** The deferred bootstrap of api_handle_login in src/components/api/api_auth.c, lines 89-241, run by any number of
    login requests at once. Each access to shared state is one step, and requests take steps in any order. The two reads
    of lines 90-92 are one step: both flags only ever go down, so reading them apart would allow no more. */
module Bootstrap {
  import opened Options

  /** Where a request is: the next thing it does. */
  datatype Phase =
    | Entering       // line 90: look at the mode and the environment
    | Locking        // line 95
    | Checking       // line 98
    | Leaving        // line 99: unlock, the bootstrap was already done
    | MakingRole     // line 106
    | MakingUser     // line 108
    | AddingSystem   // line 128
    | AddingDefault  // line 151
    | AddingActors   // line 165
    | EndingMode     // line 169
    | EndingEnv      // line 170
    | Marking        // line 173
    | Comparing      // line 182: are these the admin's credentials?
    | FirstUnlock    // line 192
    | Querying       // line 201: after the early unlock
    | LastUnlock(again: bool)  // line 238; again when line 192 was already passed
    | Responded      // line 225
    | Continuing     // line 243

  datatype Record = SystemLibrary(who: nat) | DefaultLibrary(who: nat) | Actors(who: nat)

  datatype State = State(
    mode: bool,             // ctx->db->is_bootstrap_mode
    deferred: bool,         // JDBX_DEFERRED_BOOTSTRAP is "1"
    completed: bool,        // g_bootstrap_completed
    holder: Option<nat>,    // g_bootstrap_mutex
    attempts: seq<Record>,  // the insertions tried so far
    requests: seq<Phase>)

  function Go(s: State, t: nat, p: Phase): State
    requires t < |s.requests|
  {
    s.(requests := s.requests[t := p])
  }

  predicate CanStep(s: State, t: nat) {
    && t < |s.requests| && !s.requests[t].Responded? && !s.requests[t].Continuing?
    && (s.requests[t] == Locking ==> s.holder == None)
  }

  /** One step of request t; yes says how a branch on unmodelled data goes. An unlock frees the mutex whoever holds
      it. A failed insertion is logged by the code and changes nothing else. */
  function Step(s: State, t: nat, yes: bool): State
    requires CanStep(s, t)
  {
    match s.requests[t]
    case Entering => Go(s, t, if s.mode && s.deferred then Locking else Continuing)
    case Locking => Go(s.(holder := Some(t)), t, Checking)
    case Checking => Go(s, t, if s.completed then Leaving else MakingRole)
    case Leaving => Go(s.(holder := None), t, Continuing)
    case MakingRole => Go(s, t, if yes then MakingUser else LastUnlock(false))
    case MakingUser => Go(s, t, if yes then AddingSystem else LastUnlock(false))
    case AddingSystem => Go(s.(attempts := s.attempts + [SystemLibrary(t)]), t, AddingDefault)
    case AddingDefault => Go(s.(attempts := s.attempts + [DefaultLibrary(t)]), t, AddingActors)
    case AddingActors => Go(s.(attempts := s.attempts + [Actors(t)]), t, EndingMode)
    case EndingMode => Go(s.(mode := false), t, EndingEnv)
    case EndingEnv => Go(s.(deferred := false), t, Marking)
    case Marking => Go(s.(completed := true), t, Comparing)
    case Comparing => Go(s, t, if yes then FirstUnlock else LastUnlock(false))
    case FirstUnlock => Go(s.(holder := None), t, Querying)
    case Querying => Go(s, t, if yes then Responded else LastUnlock(true))
    case LastUnlock(_) => Go(s.(holder := None), t, Continuing)
    case Responded => s
    case Continuing => s
  }

  datatype Move = Move(t: nat, yes: bool)

  ghost predicate Initial(s: State) {
    && !s.completed && s.holder == None && s.attempts == []
    && forall t :: 0 <= t < |s.requests| ==> s.requests[t] == Entering
  }

  ghost predicate Run(states: seq<State>, moves: seq<Move>) {
    && |states| == |moves| + 1 && Initial(states[0])
    && forall i :: 0 <= i < |moves| ==>
         CanStep(states[i], moves[i].t) && states[i + 1] == Step(states[i], moves[i].t, moves[i].yes)
  }

  // ----- At most one request bootstraps

  /** Between line 105 and line 173. */
  predicate Bootstrapping(p: Phase) {
    p.MakingRole? || p.MakingUser? || p.AddingSystem? || p.AddingDefault? || p.AddingActors? ||
    p.EndingMode? || p.EndingEnv? || p.Marking?
  }

  /** Between a lock and the first unlock after it. */
  predicate Inside(p: Phase) {
    Bootstrapping(p) || p.Checking? || p.Leaving? || p.Comparing? || p.FirstUnlock? || p == LastUnlock(false)
  }

  /** Phases reached only once line 173 has run. */
  predicate AfterMark(p: Phase) {
    p.Comparing? || p.FirstUnlock? || p.Querying? || p == LastUnlock(true) || p.Responded? || p.Leaving?
  }

  /** What a bootstrapping request has tried to insert. */
  function Tried(p: Phase, t: nat): seq<Record> {
    if p.AddingDefault? then [SystemLibrary(t)]
    else if p.AddingActors? then [SystemLibrary(t), DefaultLibrary(t)]
    else if p.EndingMode? || p.EndingEnv? || p.Marking? then Everything(t)
    else []
  }

  function Everything(t: nat): seq<Record> { [SystemLibrary(t), DefaultLibrary(t), Actors(t)] }

  /** What holds of request t at p. */
  ghost predicate Consistent(s: State, t: nat, p: Phase) {
    && (!s.completed ==> (Inside(p) ==> s.holder == Some(t)) && !AfterMark(p))
    && (s.completed ==> !Bootstrapping(p))
    && (Bootstrapping(p) ==> s.attempts == Tried(p, t))
  }

  /** Nobody is bootstrapping, and nothing was tried, or one request tried everything. */
  ghost predicate Quiet(s: State) {
    (forall t :: 0 <= t < |s.requests| ==> !Bootstrapping(s.requests[t])) ==>
      if s.completed then exists t :: s.attempts == Everything(t) else s.attempts == []
  }

  /** Until the flag is set the mutex does exclude, and once it is set nobody bootstraps, so it no longer matters. */
  ghost predicate Inv(s: State) {
    (forall t :: 0 <= t < |s.requests| ==> Consistent(s, t, s.requests[t])) && Quiet(s)
  }

  lemma ItselfTried(s: State, t: nat, yes: bool)
    requires CanStep(s, t) && Bootstrapping(s.requests[t]) && s.attempts == Tried(s.requests[t], t)
    ensures var s' := Step(s, t, yes);
            |s'.requests| == |s.requests| && (Bootstrapping(s'.requests[t]) ==> s'.attempts == Tried(s'.requests[t], t))
  {
    match s.requests[t]
    case MakingRole =>
    case MakingUser =>
    case AddingSystem =>
    case AddingDefault =>
    case AddingActors =>
    case EndingMode =>
    case EndingEnv =>
    case Marking =>
  }

  lemma ItselfConsistent(s: State, t: nat, yes: bool)
    requires CanStep(s, t) && Consistent(s, t, s.requests[t])
    requires s.requests[t] == Checking && !s.completed ==> s.attempts == []
    ensures |Step(s, t, yes).requests| == |s.requests|
    ensures Consistent(Step(s, t, yes), t, Step(s, t, yes).requests[t])
  {
    if Bootstrapping(s.requests[t]) {
      ItselfTried(s, t, yes);
    }
    assert Tried(MakingRole, t) == [];
    hide Tried;
  }

  lemma OthersConsistent(s: State, t: nat, yes: bool, u: nat, p: Phase)
    requires CanStep(s, t) && Consistent(s, t, s.requests[t]) && u != t && Consistent(s, u, p)
    ensures Consistent(Step(s, t, yes), u, p)
  {
  }

  /** A request that holds the mutex before the flag is set is the only one that can be bootstrapping. */
  lemma NothingTriedYet(s: State, t: nat)
    requires Inv(s) && t < |s.requests| && s.requests[t] == Checking && !s.completed
    ensures s.attempts == []
  {
    forall u | 0 <= u < |s.requests| ensures !Bootstrapping(s.requests[u]) {
      assert Consistent(s, u, s.requests[u]) && Consistent(s, t, s.requests[t]);
    }
  }

  lemma StepKeepsQuiet(s: State, t: nat, yes: bool)
    requires Inv(s) && CanStep(s, t)
    ensures Quiet(Step(s, t, yes))
  {
    var s', p := Step(s, t, yes), s.requests[t];
    assert Consistent(s, t, p);
    if Bootstrapping(p) {
      if p == Marking {
        assert s'.attempts == Everything(t);
      }
      assert Bootstrapping(s'.requests[t]) || s'.completed || s'.attempts == [];
    } else {
      assert s'.attempts == s.attempts && s'.completed == s.completed;
      if forall u :: 0 <= u < |s.requests| ==> !Bootstrapping(s'.requests[u]) {
        assert forall u :: 0 <= u < |s.requests| && u != t ==> s'.requests[u] == s.requests[u];
      }
    }
  }

  lemma StepKeepsInv(s: State, m: Move)
    requires Inv(s) && CanStep(s, m.t)
    ensures Inv(Step(s, m.t, m.yes))
  {
    var s' := Step(s, m.t, m.yes);
    StepKeepsQuiet(s, m.t, m.yes);
    assert |s'.requests| == |s.requests|;
    assert forall u :: 0 <= u < |s.requests| && u != m.t ==> s'.requests[u] == s.requests[u];
    if s.requests[m.t] == Checking && !s.completed {
      NothingTriedYet(s, m.t);
    }
    hide Step, Consistent, Quiet;
    forall u | 0 <= u < |s.requests| ensures Consistent(s', u, s'.requests[u]) {
      assert Consistent(s, u, s.requests[u]) && Consistent(s, m.t, s.requests[m.t]);
      if u == m.t {
        ItselfConsistent(s, m.t, m.yes);
      } else {
        OthersConsistent(s, m.t, m.yes, u, s.requests[u]);
      }
    }
  }

  lemma {:induction false} RunKeepsInv(states: seq<State>, moves: seq<Move>, n: nat)
    requires Run(states, moves) && n < |states|
    ensures Inv(states[n])
  {
    if n > 0 {
      RunKeepsInv(states, moves, n - 1);
      StepKeepsInv(states[n - 1], moves[n - 1]);
    }
  }

  /** Over every interleaving, all insertions ever tried were tried by one request, each once and in order. */
  lemma OneBootstrap(states: seq<State>, moves: seq<Move>, n: nat)
    requires Run(states, moves) && n < |states|
    ensures exists t :: states[n].attempts <= Everything(t)
    ensures states[n].completed ==>
      exists t :: states[n].attempts == [SystemLibrary(t), DefaultLibrary(t), Actors(t)]
  {
    RunKeepsInv(states, moves, n);
    var s := states[n];
    if t :| 0 <= t < |s.requests| && Bootstrapping(s.requests[t]) {
      assert s.attempts <= Everything(t);
    } else if !s.completed {
      assert s.attempts <= Everything(0);
    }
  }

  // ----- The flags

  /** Both flags are down before the bootstrap is marked as done. */
  ghost predicate FlagsOrdered(s: State) {
    && (s.completed ==> !s.mode && !s.deferred)
    && forall t :: 0 <= t < |s.requests| ==>
         && (s.requests[t].EndingEnv? ==> !s.mode)
         && (s.requests[t].Marking? ==> !s.mode && !s.deferred)
  }

  lemma StepKeepsFlags(s: State, t: nat, yes: bool)
    requires FlagsOrdered(s) && CanStep(s, t)
    ensures FlagsOrdered(Step(s, t, yes)) && (!s.mode ==> !Step(s, t, yes).mode)
  {
    var s' := Step(s, t, yes);
    assert forall u :: 0 <= u < |s.requests| && u != t ==> s'.requests[u] == s.requests[u];
  }

  /** Once the bootstrap is done no later request is held up by it: both flags are down, and a request that enters goes
      straight on. */
  lemma {:induction false} DoneIsDone(states: seq<State>, moves: seq<Move>, n: nat)
    requires Run(states, moves) && n < |states|
    ensures FlagsOrdered(states[n])
    ensures states[n].completed ==>
      forall t: nat, yes :: CanStep(states[n], t) && states[n].requests[t] == Entering ==>
        Step(states[n], t, yes) == Go(states[n], t, Continuing)
  {
    if n > 0 {
      DoneIsDone(states, moves, n - 1);
      StepKeepsFlags(states[n - 1], moves[n - 1].t, moves[n - 1].yes);
    }
  }

  // ----- What has to succeed first

  /** Before state n request t was at p, and what it did there succeeded. */
  ghost predicate Passed(states: seq<State>, moves: seq<Move>, n: nat, t: nat, p: Phase)
    requires n <= |moves| < |states|
  {
    exists i :: 0 <= i < n && moves[i] == Move(t, true) && t < |states[i].requests| && states[i].requests[t] == p
  }

  lemma PassedBefore(states: seq<State>, moves: seq<Move>, n: nat, t: nat, p: Phase)
    requires 0 < n <= |moves| < |states|
    ensures Passed(states, moves, n - 1, t, p) ==> Passed(states, moves, n, t, p)
    ensures moves[n - 1] == Move(t, true) && t < |states[n - 1].requests| && states[n - 1].requests[t] == p ==>
      Passed(states, moves, n, t, p)
  {
  }

  predicate PastRole(p: Phase) { Bootstrapping(p) && p != MakingRole }

  predicate PastUser(p: Phase) { PastRole(p) && p != MakingUser }

  lemma GetsPast(s: State, m: Move, t: nat)
    requires CanStep(s, m.t) && t < |s.requests|
    ensures var s' := Step(s, m.t, m.yes);
            && |s'.requests| == |s.requests|
            && (PastRole(s'.requests[t]) ==>
                  PastRole(s.requests[t]) || (s.requests[t] == MakingRole && m == Move(t, true)))
            && (PastUser(s'.requests[t]) ==>
                  PastUser(s.requests[t]) || (s.requests[t] == MakingUser && m == Move(t, true)))
  {
  }

  /** No request inserts anything or marks the bootstrap as done unless it made the admin role and then the admin
      user. */
  lemma {:induction false} RoleAndUserFirst(states: seq<State>, moves: seq<Move>, n: nat, t: nat)
    requires Run(states, moves) && n < |states| && t < |states[n].requests|
    ensures PastRole(states[n].requests[t]) ==> Passed(states, moves, n, t, MakingRole)
    ensures PastUser(states[n].requests[t]) ==> Passed(states, moves, n, t, MakingUser)
  {
    if n > 0 {
      assert |states[n].requests| == |states[n - 1].requests|;
      GetsPast(states[n - 1], moves[n - 1], t);
      hide Step, Passed, PastRole, PastUser, Initial;
      RoleAndUserFirst(states, moves, n - 1, t);
      PassedBefore(states, moves, n, t, MakingRole);
      PassedBefore(states, moves, n, t, MakingUser);
    }
  }

  // ----- What the second unlock breaks

  ghost predicate UnlocksAgain(s: State) { exists t :: 0 <= t < |s.requests| && s.requests[t] == LastUnlock(true) }

  ghost predicate Exclusive(s: State) {
    forall t, u :: 0 <= t < u < |s.requests| ==> !(Inside(s.requests[t]) && Inside(s.requests[u]))
  }

  ghost predicate Holds(s: State, t: nat, p: Phase) { Inside(p) ==> s.holder == Some(t) }

  lemma StepKeepsHolds(s: State, m: Move, u: nat)
    requires CanStep(s, m.t) && u < |s.requests| && s.requests[m.t] != LastUnlock(true)
    requires Holds(s, m.t, s.requests[m.t]) && Holds(s, u, s.requests[u])
    ensures var s' := Step(s, m.t, m.yes); |s'.requests| == |s.requests| && Holds(s', u, s'.requests[u])
  {
    HolderAfter(s, m.t, m.yes);
    hide Step, Inside, Through, CanStep;
  }

  /** While no request has come to line 238 by way of line 192, the mutex keeps all requests apart. */
  lemma {:induction false} ExclusiveUntilUnlockedAgain(states: seq<State>, moves: seq<Move>, n: nat)
    requires Run(states, moves) && n < |states| && forall i :: 0 <= i < n ==> !UnlocksAgain(states[i])
    ensures Exclusive(states[n])
    ensures forall t :: 0 <= t < |states[n].requests| ==> Holds(states[n], t, states[n].requests[t])
  {
    if n > 0 {
      ExclusiveUntilUnlockedAgain(states, moves, n - 1);
      var s, m, s' := states[n - 1], moves[n - 1], states[n];
      assert CanStep(s, m.t) && s' == Step(s, m.t, m.yes);
      assert s.requests[m.t] != LastUnlock(true);
      StepKeepsHolds(s, m, m.t);
      hide Step, CanStep;
      forall t | 0 <= t < |s'.requests| ensures Holds(s', t, s'.requests[t]) {
        StepKeepsHolds(s, m, t);
      }
    }
  }

  /** Without bootstrap mode or without the environment variable, every request passes by. */
  lemma {:induction false} NobodyBootstraps(states: seq<State>, moves: seq<Move>, n: nat)
    requires Run(states, moves) && n < |states| && !(states[0].mode && states[0].deferred)
    ensures !(states[n].mode && states[n].deferred)
    ensures forall t :: 0 <= t < |states[n].requests| ==>
      states[n].requests[t].Entering? || states[n].requests[t].Continuing?
  {
    if n > 0 {
      NobodyBootstraps(states, moves, n - 1);
      var s, m := states[n - 1], moves[n - 1];
      assert CanStep(s, m.t) && states[n] == Step(s, m.t, m.yes);
      assert s.requests[m.t] == Entering;
    }
  }

  predicate Through(p: Phase) { p.Responded? || p.Continuing? }

  /** Of two requests: one that is inside holds the mutex, unless the other is through and cannot take it. */
  ghost predicate Guarded(s: State, t: nat, p: Phase, q: Phase) {
    Inside(p) ==> !Inside(q) && (s.holder == Some(t) || Through(q))
  }

  ghost predicate PairGuarded(s: State) {
    |s.requests| == 2 && Guarded(s, 0, s.requests[0], s.requests[1]) && Guarded(s, 1, s.requests[1], s.requests[0])
  }

  lemma OthersStay(s: State, t: nat, yes: bool)
    requires CanStep(s, t)
    ensures var s' := Step(s, t, yes);
            |s'.requests| == |s.requests| && forall u :: 0 <= u < |s.requests| && u != t ==>
              s'.requests[u] == s.requests[u]
  {
  }

  lemma HolderChanges(s: State, t: nat, yes: bool)
    requires CanStep(s, t) && |Step(s, t, yes).requests| == |s.requests|
    ensures var s', p := Step(s, t, yes), s.requests[t];
            && (Inside(s'.requests[t]) ==>
                  if Inside(p) then s'.holder == s.holder else p == Locking && s'.holder == Some(t))
            && (!Inside(s'.requests[t]) && s'.holder != s.holder ==> Inside(p) || Through(s'.requests[t]))
  {
  }

  /** How a step changes who is inside, and the holder. */
  lemma HolderAfter(s: State, t: nat, yes: bool)
    requires CanStep(s, t)
    ensures var s', p := Step(s, t, yes), s.requests[t];
            && |s'.requests| == |s.requests|
            && (forall u :: 0 <= u < |s.requests| && u != t ==> s'.requests[u] == s.requests[u])
            && !Through(p) && (p == Locking ==> s.holder == None)
            && (Inside(s'.requests[t]) ==>
                  if Inside(p) then s'.holder == s.holder else p == Locking && s'.holder == Some(t))
            && (!Inside(s'.requests[t]) && s'.holder != s.holder ==> Inside(p) || Through(s'.requests[t]))
  {
    hide Step, Inside;
    OthersStay(s, t, yes);
    HolderChanges(s, t, yes);
  }

  /** t moves on, the other request is at q. */
  lemma MoverGuarded(s: State, t: nat, yes: bool, u: nat, q: Phase)
    requires CanStep(s, t) && t != u
    requires Guarded(s, t, s.requests[t], q) && Guarded(s, u, q, s.requests[t])
    ensures var s' := Step(s, t, yes);
            && |s'.requests| == |s.requests|
            && Guarded(s', t, s'.requests[t], q) && Guarded(s', u, q, s'.requests[t])
  {
    HolderAfter(s, t, yes);
    hide Step, Inside, Through;
  }

  lemma PairStep(s: State, m: Move, s': State)
    requires PairGuarded(s) && CanStep(s, m.t) && s' == Step(s, m.t, m.yes)
    ensures PairGuarded(s')
  {
    var u := 1 - m.t;
    HolderAfter(s, m.t, m.yes);
    hide Step, Guarded, Inside, Through;
    MoverGuarded(s, m.t, m.yes, u, s.requests[u]);
  }

  lemma {:induction false} TwoStayApart(states: seq<State>, moves: seq<Move>, n: nat)
    requires Run(states, moves) && n < |states| && |states[0].requests| == 2
    ensures PairGuarded(states[n])
  {
    if n > 0 {
      TwoStayApart(states, moves, n - 1);
      PairStep(states[n - 1], moves[n - 1], states[n]);
    }
  }

  lemma {:induction false} SameCount(states: seq<State>, moves: seq<Move>, n: nat)
    requires Run(states, moves) && n < |states|
    ensures |states[n].requests| == |states[0].requests|
  {
    if n > 0 {
      SameCount(states, moves, n - 1);
      CountKept(states[n - 1], moves[n - 1], states[n]);
    }
  }

  lemma CountKept(s: State, m: Move, s': State)
    requires CanStep(s, m.t) && s' == Step(s, m.t, m.yes)
    ensures |s'.requests| == |s.requests|
  {
  }

  /** Who moves in the run below, and the states it goes through: the first request bootstraps up to line 182 while
      the next two wait at the mutex, the second gets it after line 192, and the third after line 238. */
  function Mover(k: nat): Move { Move(if k == 1 || k == 15 then 1 else if k == 2 || k == 18 then 2 else 0, k != 16) }

  function First(k: nat): Phase {
    match k
    case 0 => Entering case 1 => Locking case 2 => Locking case 3 => Locking case 4 => Checking case 5 => MakingRole
    case 6 => MakingUser case 7 => AddingSystem case 8 => AddingDefault case 9 => AddingActors case 10 => EndingMode
    case 11 => EndingEnv case 12 => Marking case 13 => Comparing case 14 => FirstUnlock case 15 => Querying
    case 16 => Querying case 17 => LastUnlock(true) case _ => Continuing
  }

  function Three(k: nat): seq<Phase> {
    [First(k), if k < 2 then Entering else if k < 16 then Locking else Checking,
     if k < 3 then Entering else if k < 19 then Locking else Checking]
  }

  /** idle: the requests that never move. */
  function At(k: nat, idle: seq<Phase>): State {
    State(k < 11, k < 12, k >= 13,
          if k < 4 || k == 15 || k == 18 then None else if k < 15 then Some(0) else if k < 18 then Some(1) else Some(2),
          if k < 8 then [] else if k == 8 then [SystemLibrary(0)]
          else if k == 9 then [SystemLibrary(0), DefaultLibrary(0)] else Everything(0),
          Three(k) + idle)
  }

  ghost predicate StepAt(k: nat, idle: seq<Phase>) {
    var m := Mover(k); CanStep(At(k, idle), m.t) && At(k + 1, idle) == Step(At(k, idle), m.t, m.yes)
  }

  lemma BesideIdle(k: nat, idle: seq<Phase>)
    requires StepAt(k, [])
    ensures StepAt(k, idle)
  {
    var m, s, s' := Mover(k), At(k, []), At(k, idle);
    assert s.requests == Three(k) && At(k + 1, []).requests == Three(k + 1);
    assert s'.requests[m.t] == s.requests[m.t];
    var p := Step(s, m.t, m.yes).requests[m.t];
    assert Step(s, m.t, m.yes).requests == Three(k)[m.t := p];
    assert s'.requests[m.t := p] == Three(k)[m.t := p] + idle;
  }

  lemma EarlySteps(k: nat)
    requires k < 10
    ensures StepAt(k, [])
  {
    assert forall j :: Three(j) + [] == Three(j);
  }

  lemma LateSteps(k: nat)
    requires 10 <= k < 19
    ensures StepAt(k, [])
  {
    assert forall j :: Three(j) + [] == Three(j);
  }

  /** When a configured admin triggers the bootstrap and the lookup after line 192 gives no answer, line 238 frees a
      mutex that a second request holds by then, and a third one enters beside it. */
  lemma SecondUnlockBreaksExclusion(s0: State) returns (states: seq<State>, moves: seq<Move>)
    requires Initial(s0) && s0.mode && s0.deferred && |s0.requests| >= 3
    ensures Run(states, moves) && states[0] == s0 && |states| == 20 && !Exclusive(states[19])
  {
    var idle := s0.requests[3..];
    assert s0.requests == [Entering, Entering, Entering] + idle;
    assert At(0, idle) == s0;
    states, moves := seq(20, k requires 0 <= k => At(k, idle)), seq(19, k requires 0 <= k => Mover(k));
    assert Inside(At(19, idle).requests[1]) && Inside(At(19, idle).requests[2]);
    forall i | 0 <= i < 19
      ensures CanStep(states[i], moves[i].t) && states[i + 1] == Step(states[i], moves[i].t, moves[i].yes)
    {
      hide At, Mover, Step, CanStep;
      if i < 10 {
        EarlySteps(i);
      } else {
        LateSteps(i);
      }
      BesideIdle(i, idle);
    }
  }

  /** Requests exclude each other in every run exactly when there is nothing to bootstrap, or there are fewer than three
      of them. */
  lemma ExclusiveIff(s0: State)
    requires Initial(s0)
    ensures (forall states, moves, n: nat ::
               Run(states, moves) && states[0] == s0 && n < |states| ==> Exclusive(states[n]))
       <==> !(s0.mode && s0.deferred) || |s0.requests| < 3
  {
    if !(s0.mode && s0.deferred) || |s0.requests| < 3 {
      forall states, moves, n: nat | Run(states, moves) && states[0] == s0 && n < |states|
        ensures Exclusive(states[n])
      {
        SameCount(states, moves, n);
        if |s0.requests| == 2 {
          TwoStayApart(states, moves, n);
        } else if |s0.requests| > 2 {
          forall i | 0 <= i < n ensures !UnlocksAgain(states[i]) {
            NobodyBootstraps(states, moves, i);
          }
          ExclusiveUntilUnlockedAgain(states, moves, n);
        }
      }
    } else {
      var states, moves := SecondUnlockBreaksExclusion(s0);
      assert Run(states, moves) && states[0] == s0 && !Exclusive(states[19]);
    }
  }
}
