/** get_or_create_library of trash/database_jdbx_only.c, lines 121-172, called by any number of threads at once.
    The search, the insertion and each lock operation are one step each, and threads take steps in any order. */
module LibraryCreation {
  import opened Entries
  import opened KeyOrder
  import opened Options

  const NAME_SIZE := 64  // char name[64]

  /** The name a library keeps: strncpy copies at most 63 bytes into the zeroed field. */
  function Stored(name: Key): Key { if |name| < NAME_SIZE then name else name[..NAME_SIZE - 1] }

  /** The kept name is the longest beginning of the name that leaves room for its terminator. */
  lemma StoredIsLongest(name: Key, prefix: Key)
    ensures Stored(name) <= name && |Stored(name)| < NAME_SIZE
    ensures prefix <= name && |prefix| < NAME_SIZE ==> prefix <= Stored(name)
  {
  }

  /** Where a call is, with the library block it has. Libraries are numbered as calloc makes them. */
  datatype Caller =
    | Searching                        // before line 126
    | Waiting                          // before line 133
    | Holding                          // before line 136
    | Missing                          // before line 145
    | Made(lib: nat)                   // before line 157
    | Leaving(result: Option<nat>)     // before an unlock
    | Done(result: Option<nat>)

  /** The index is the log of calls made on the skip list: Entries.FirstWriterWins says what its searches return. */
  datatype State = State(index: seq<Call<nat>>, made: nat, holder: Option<nat>, callers: seq<Caller>)

  datatype Move =
    | Search(t: nat) | Lock(t: nat) | SearchAgain(t: nat)
    | Allocate(t: nat, memory: bool) | Enter(t: nat, memory: bool) | Unlock(t: nat)

  function With(s: State, t: nat, c: Caller): State
    requires t < |s.callers|
  { s.(callers := s.callers[t := c]) }

  /** names[t] is the argument of the call of thread t. */
  ghost predicate Step(names: seq<Key>, s: State, m: Move, s': State) {
    && m.t < |names| == |s.callers|
    && match m
       case Search(t) =>
         var found := FirstInserted(s.index, names[t]);
         && s.callers[t] == Searching
         && s' == With(s, t, if found.Some? then Done(found) else Waiting)
       case Lock(t) =>
         s.callers[t] == Waiting && s.holder == None && s' == With(s.(holder := Some(t)), t, Holding)
       case SearchAgain(t) =>
         var found := FirstInserted(s.index, names[t]);
         s.callers[t] == Holding && s' == With(s, t, if found.Some? then Leaving(found) else Missing)
       case Allocate(t, memory) =>
         && s.callers[t] == Missing
         && s' == if memory then With(s.(made := s.made + 1), t, Made(s.made)) else With(s, t, Leaving(None))
       case Enter(t, memory) =>
         && s.callers[t].Made?
         && var lib := s.callers[t].lib;
            s' == if memory then With(s.(index := s.index + [Insert(Stored(names[t]), lib)]), t, Leaving(Some(lib)))
                  else With(s, t, Leaving(None))
       case Unlock(t) =>
         s.callers[t].Leaving? && s' == With(s.(holder := None), t, Done(s.callers[t].result))
  }

  ghost predicate Initial(names: seq<Key>, s: State) {
    && s.index == [] && s.holder == None && |s.callers| == |names|
    && forall t :: 0 <= t < |names| ==> s.callers[t] == Searching
  }

  ghost predicate Run(names: seq<Key>, states: seq<State>, moves: seq<Move>) {
    && |states| == |moves| + 1 && Initial(names, states[0])
    && forall i :: 0 <= i < |moves| ==> Step(names, states[i], moves[i], states[i + 1])
  }

  // ----- The claim and its condition

  /** At most one library was ever inserted per key. */
  ghost predicate OnePerKey(s: State) {
    forall i, j :: 0 <= i < j < |s.index| ==> s.index[i].key != s.index[j].key
  }

  /** Names that two calls truncate to one key fit the field. */
  ghost predicate Distinguished(names: seq<Key>) {
    forall t, u :: 0 <= t < |names| && 0 <= u < |names| && t != u && Stored(names[t]) == Stored(names[u]) ==>
      |names[t]| < NAME_SIZE && |names[u]| < NAME_SIZE
  }

  predicate Inside(c: Caller) { c.Holding? || c.Missing? || c.Made? || c.Leaving? }

  /** The library the call has put into the index or found there, if it is past that point. */
  function Result(c: Caller): Option<nat> { if c.Leaving? || c.Done? then c.result else None }

  /** What holds of call t at c, when the name it keeps is key. */
  ghost predicate Consistent(s: State, t: nat, key: Key, c: Caller) {
    && (Inside(c) ==> s.holder == Some(t))
    && (c.Missing? || c.Made? ==> FirstInserted(s.index, key) == None)
    && (Result(c).Some? ==> FirstInserted(s.index, key) == Result(c))
  }

  ghost predicate Inv(names: seq<Key>, s: State) {
    && |s.callers| == |names|
    && (forall i :: 0 <= i < |s.index| ==> s.index[i].Insert?)
    && OnePerKey(s)
    && (forall t :: 0 <= t < |names| ==> Consistent(s, t, Stored(names[t]), s.callers[t]))
    && (forall i :: 0 <= i < |s.index| ==> Inserter(names, s.callers, s.index[i].key))
  }

  /** Some call that is past its insertion wanted this key. */
  ghost predicate Inserter(names: seq<Key>, callers: seq<Caller>, key: Key)
    requires |callers| == |names|
  {
    exists t :: 0 <= t < |names| && Stored(names[t]) == key && Result(callers[t]).Some?
  }

  lemma {:induction false} FirstInsertedIff(index: seq<Call<nat>>, key: Key)
    requires forall i :: 0 <= i < |index| ==> index[i].Insert?
    ensures FirstInserted(index, key) == None <==> forall i :: 0 <= i < |index| ==> index[i].key != key
  {
    if index != [] {
      assert forall i :: 0 <= i < |index| - 1 ==> index[1..][i] == index[i + 1];
      FirstInsertedIff(index[1..], key);
      if FirstInserted(index[1..], key) != None && index[0].key != key {
        var i :| 0 <= i < |index| - 1 && index[1..][i].key == key;
        assert index[i + 1].key == key;
      }
    }
  }

  /** A search by the name answers as a search by the key would: keys are never longer than the field. */
  lemma SearchByName(names: seq<Key>, s: State, t: nat)
    requires Inv(names, s) && Distinguished(names) && t < |names|
    ensures var byName, byKey := FirstInserted(s.index, names[t]), FirstInserted(s.index, Stored(names[t]));
            && (byName.Some? ==> byName == byKey)
            && (Result(s.callers[t]).None? ==> byName == byKey)
  {
    var name := names[t];
    FirstInsertedIff(s.index, name);
    FirstInsertedIff(s.index, Stored(name));
    if |name| >= NAME_SIZE {
      forall i | 0 <= i < |s.index| ensures s.index[i].key != name {
        assert Inserter(names, s.callers, s.index[i].key);
      }
      if Result(s.callers[t]).None? {
        forall i | 0 <= i < |s.index| ensures s.index[i].key != Stored(name) {
          assert Inserter(names, s.callers, s.index[i].key);
        }
      }
    }
  }

  lemma InserterStays(names: seq<Key>, callers: seq<Caller>, callers': seq<Caller>, key: Key)
    requires |callers| == |callers'| == |names| && Inserter(names, callers, key)
    requires forall t :: 0 <= t < |names| && Result(callers[t]).Some? ==> Result(callers'[t]).Some?
    ensures Inserter(names, callers', key)
  {
  }

  /** Steps that leave the index alone keep what holds of each call, */
  lemma QuietStepKeepsCallers(names: seq<Key>, s: State, m: Move, s': State, t: nat)
    requires Inv(names, s) && Distinguished(names) && Step(names, s, m, s') && s'.index == s.index && t < |names|
    ensures |s'.callers| == |names| && Consistent(s', t, Stored(names[t]), s'.callers[t])
  {
    SearchByName(names, s, m.t);
    assert Consistent(s, t, Stored(names[t]), s.callers[t]);
    assert Consistent(s, m.t, Stored(names[m.t]), s.callers[m.t]);
    hide FirstInserted, Stored, Inserter, Distinguished, OnePerKey;
  }

  /** and undo no insertion. */
  lemma QuietStepKeepsResults(names: seq<Key>, s: State, m: Move, s': State, t: nat)
    requires |s.callers| == |names| && Step(names, s, m, s') && s'.index == s.index && t < |names|
    ensures |s'.callers| == |names| && (Result(s.callers[t]).Some? ==> Result(s'.callers[t]).Some?)
  {
    hide FirstInserted, Stored;
  }

  lemma QuietStepKeepsInv(names: seq<Key>, s: State, m: Move, s': State)
    requires Inv(names, s) && Distinguished(names) && Step(names, s, m, s') && s'.index == s.index
    ensures Inv(names, s')
  {
    assert |s'.callers| == |s.callers|;
    hide FirstInserted, Stored, Inserter, Distinguished, Step, Consistent, Result;
    forall t | 0 <= t < |names| ensures Consistent(s', t, Stored(names[t]), s'.callers[t]) {
      QuietStepKeepsCallers(names, s, m, s', t);
    }
    forall t | 0 <= t < |names| ensures Result(s.callers[t]).Some? ==> Result(s'.callers[t]).Some? {
      QuietStepKeepsResults(names, s, m, s', t);
    }
    forall i | 0 <= i < |s.index| ensures Inserter(names, s'.callers, s.index[i].key) {
      InserterStays(names, s.callers, s'.callers, s.index[i].key);
    }
  }

  lemma EnterKeepsInv(names: seq<Key>, s: State, t: nat, s': State)
    requires Inv(names, s) && Step(names, s, Enter(t, true), s')
    ensures Inv(names, s')
  {
    var key := Stored(names[t]);
    var last := Insert(key, s.callers[t].lib);
    FirstInsertedIff(s.index, key);
    forall u | 0 <= u < |names| ensures FirstInserted(s'.index, Stored(names[u])) ==
      if FirstInserted(s.index, Stored(names[u])).Some? then FirstInserted(s.index, Stored(names[u]))
      else if Stored(names[u]) == key then Some(last.value) else None
    {
      FirstInsertedOfPrefix(s.index, last, Stored(names[u]));
    }
    assert Inserter(names, s'.callers, key) by {
      assert Result(s'.callers[t]).Some?;
    }
    forall i | 0 <= i < |s.index| ensures Inserter(names, s'.callers, s.index[i].key) {
      assert Inserter(names, s.callers, s.index[i].key);
      var u :| 0 <= u < |names| && Stored(names[u]) == s.index[i].key && Result(s.callers[u]).Some?;
      assert u != t && Result(s'.callers[u]).Some?;
    }
    hide FirstInserted, Stored, Inserter;
  }

  lemma StepKeepsInv(names: seq<Key>, s: State, m: Move, s': State)
    requires Inv(names, s) && Distinguished(names) && Step(names, s, m, s')
    ensures Inv(names, s') && s.index <= s'.index
  {
    if m.Enter? && m.memory {
      EnterKeepsInv(names, s, m.t, s');
    } else {
      QuietStepKeepsInv(names, s, m, s');
    }
  }

  lemma {:induction false} RunKeepsInv(names: seq<Key>, states: seq<State>, moves: seq<Move>, n: nat)
    requires Run(names, states, moves) && Distinguished(names) && n < |states|
    ensures Inv(names, states[n])
  {
    if n > 0 {
      RunKeepsInv(names, states, moves, n - 1);
      assert Step(names, states[n - 1], moves[n - 1], states[n]);
      StepKeepsInv(names, states[n - 1], moves[n - 1], states[n]);
    }
  }

  lemma InvGives(names: seq<Key>, s: State, t: nat)
    requires Inv(names, s) && t < |names|
    ensures OnePerKey(s) && |s.callers| == |names|
    ensures s.callers[t].Done? && s.callers[t].result.Some? ==>
      FirstInserted(s.index, Stored(names[t])) == s.callers[t].result
  {
    assert Consistent(s, t, Stored(names[t]), s.callers[t]);
    hide FirstInserted, Stored, Inserter, OnePerKey;
  }

  /** In every interleaving the index only grows, and every call that returned a library has the only one its name
      was ever inserted under, at every later moment. */
  lemma {:induction false} OneLibraryPerName(names: seq<Key>, states: seq<State>, moves: seq<Move>, i: nat, j: nat,
                                             t: nat)
    requires Run(names, states, moves) && Distinguished(names) && i <= j < |states| && t < |names|
    ensures OnePerKey(states[j]) && states[i].index <= states[j].index
    ensures |states[i].callers| == |names|
    ensures states[i].callers[t].Done? && states[i].callers[t].result.Some? ==>
      FirstInserted(states[j].index, Stored(names[t])) == states[i].callers[t].result
  {
    hide FirstInserted, Stored, Distinguished, Inserter, Step, Inv, OnePerKey, Initial;
    RunKeepsInv(names, states, moves, j);
    InvGives(names, states[j], t);
    if i < j {
      OneLibraryPerName(names, states, moves, i, j - 1, t);
      RunKeepsInv(names, states, moves, j - 1);
      assert Step(names, states[j - 1], moves[j - 1], states[j]);
      StepKeepsInv(names, states[j - 1], moves[j - 1], states[j]);
      FirstInsertedGrows(states[j - 1].index, states[j].index, Stored(names[t]));
    }
  }

  lemma {:induction false} FirstInsertedGrows(index: seq<Call<nat>>, longer: seq<Call<nat>>, key: Key)
    requires index <= longer
    ensures FirstInserted(index, key).Some? ==> FirstInserted(longer, key) == FirstInserted(index, key)
  {
    if index != [] {
      FirstInsertedGrows(index[1..], longer[1..], key);
    }
  }

  // ----- The condition is exact

  /** A call by t that finds nothing: its six steps from Searching to Done. */
  function Steps(names: seq<Key>, s: State, t: nat): (states: seq<State>)
    requires t < |names| == |s.callers|
  {
    var s1 := With(s, t, Waiting);
    var s2 := With(s1.(holder := Some(t)), t, Holding);
    var s3 := With(s2, t, Missing);
    var s4 := With(s3.(made := s.made + 1), t, Made(s.made));
    var s5 := With(s4.(index := s.index + [Insert(Stored(names[t]), s.made)]), t, Leaving(Some(s.made)));
    var s6 := With(s5.(holder := None), t, Done(Some(s.made)));
    [s1, s2, s3, s4, s5, s6]
  }

  function CallMoves(t: nat): seq<Move> {
    [Search(t), Lock(t), SearchAgain(t), Allocate(t, true), Enter(t, true), Unlock(t)]
  }

  /** states are gone through by moves. */
  ghost predicate Follow(names: seq<Key>, states: seq<State>, moves: seq<Move>) {
    |states| == |moves| + 1 && forall i :: 0 <= i < |moves| ==> Step(names, states[i], moves[i], states[i + 1])
  }

  lemma StepsAreSteps(names: seq<Key>, s: State, t: nat)
    requires t < |names| == |s.callers| && s.callers[t] == Searching && s.holder == None
    requires FirstInserted(s.index, names[t]) == None
    ensures Follow(names, [s] + Steps(names, s, t), CallMoves(t))
  {
    hide FirstInserted, Stored;
    var states := [s] + Steps(names, s, t);
    assert states[1].index == states[2].index == s.index;
    assert Step(names, states[0], Search(t), states[1]);
    assert Step(names, states[1], Lock(t), states[2]);
    assert Step(names, states[2], SearchAgain(t), states[3]);
    assert Step(names, states[3], Allocate(t, true), states[4]);
    assert Step(names, states[4], Enter(t, true), states[5]);
    assert Step(names, states[5], Unlock(t), states[6]);
  }

  /** When the second of two calls has a name too long for the field, and both keep the same key, one call after the
      other inserts two libraries under that key and returns two different ones. */
  lemma LongNameInsertsTwice(names: seq<Key>, t: nat, u: nat) returns (states: seq<State>, moves: seq<Move>)
    requires t < |names| && u < |names| && t != u
    requires Stored(names[t]) == Stored(names[u]) && |names[u]| >= NAME_SIZE
    ensures Run(names, states, moves) && |states| == 13 && !OnePerKey(states[12])
    ensures |states[12].callers| == |names|
    ensures states[12].callers[t] == Done(Some(0)) && states[12].callers[u] == Done(Some(1))
  {
    var s0 := State([], 0, None, seq(|names|, _ => Searching));
    var first, key := Steps(names, s0, t), Stored(names[t]);
    assert Initial(names, s0) && FirstInserted(s0.index, names[t]) == None;
    StepsEnd(names, s0, t);
    SecondMisses(key, names[u]);
    hide Step, Steps, CallMoves, Initial, FirstInserted, Stored, Follow, OnePerKey, Run;
    assert first[5].index == [Insert(key, 0)];
    StepsAreSteps(names, s0, t);
    StepsEnd(names, first[5], u);
    StepsAreSteps(names, first[5], u);
    var second := Steps(names, first[5], u);
    states, moves := TwoCalls(names, s0, first, CallMoves(t), second, CallMoves(u));
    assert second[5].index == [Insert(key, 0), Insert(key, 1)];
    TwoUnderOneKey(second[5], key);
  }

  lemma SecondMisses(key: Key, name: Key)
    requires key != name
    ensures FirstInserted<nat>([Insert(key, 0)], name) == None
  {
    FirstInsertedIff([Insert(key, 0)], name);
  }

  lemma TwoUnderOneKey(s: State, key: Key)
    requires s.index == [Insert(key, 0), Insert(key, 1)]
    ensures !OnePerKey(s)
  {
    assert s.index[0].key == s.index[1].key;
  }

  lemma TwoCalls(names: seq<Key>, s0: State, first: seq<State>, ms: seq<Move>, second: seq<State>, ns: seq<Move>)
    returns (states: seq<State>, moves: seq<Move>)
    requires Initial(names, s0) && |first| == |ms| == |second| == |ns| == 6
    requires Follow(names, [s0] + first, ms) && Follow(names, [first[5]] + second, ns)
    ensures Run(names, states, moves) && |states| == 13 && states[12] == second[5]
  {
    hide Step, Initial;
    states, moves := [s0] + first + second, ms + ns;
    assert ([s0] + first)[6] == first[5];
    Joined(names, [s0] + first, ms, second, ns);
  }

  /** Where the six steps lead. */
  lemma StepsEnd(names: seq<Key>, s: State, t: nat)
    requires t < |names| == |s.callers|
    ensures |Steps(names, s, t)| == 6 == |CallMoves(t)|
    ensures Steps(names, s, t)[5] == State(s.index + [Insert(Stored(names[t]), s.made)], s.made + 1, None,
                                           s.callers[t := Done(Some(s.made))])
  {
    hide Stored;
  }

  lemma Joined(names: seq<Key>, a: seq<State>, ms: seq<Move>, b: seq<State>, ns: seq<Move>)
    requires Follow(names, a, ms) && Follow(names, [a[|ms|]] + b, ns)
    ensures Follow(names, a + b, ms + ns)
  {
    hide Step;
    forall i | 0 <= i < |ms + ns| ensures Step(names, (a + b)[i], (ms + ns)[i], (a + b)[i + 1]) {
      if i >= |ms| {
        assert (a + b)[i] == ([a[|ms|]] + b)[i - |ms|] && (a + b)[i + 1] == ([a[|ms|]] + b)[i - |ms| + 1];
      }
    }
  }

  /** One library per key in every run of these calls exactly when names that are truncated alike fit the field. */
  lemma OnePerKeyIff(names: seq<Key>)
    ensures (forall states, moves :: Run(names, states, moves) ==> OnePerKey(states[|moves|])) <==> Distinguished(names)
  {
    if Distinguished(names) {
      forall states, moves | Run(names, states, moves) ensures OnePerKey(states[|moves|]) {
        RunKeepsInv(names, states, moves, |moves|);
      }
    } else {
      var t, u :| 0 <= t < |names| && 0 <= u < |names| && t != u && Stored(names[t]) == Stored(names[u])
                  && !(|names[t]| < NAME_SIZE && |names[u]| < NAME_SIZE);
      var states, moves;
      if |names[u]| >= NAME_SIZE {
        states, moves := LongNameInsertsTwice(names, t, u);
      } else {
        states, moves := LongNameInsertsTwice(names, u, t);
      }
      assert Run(names, states, moves) && !OnePerKey(states[|moves|]);
    }
  }
}
