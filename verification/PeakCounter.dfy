/** The peak statistic under threads: trash/buffer_pool_enterprise_duplicate.c, lines 215-224 and 257. Each thread makes
    one allocation, each atomic access is one step, and threads take steps in any order. A block is freed only once the
    call that allocated it has returned. */
module PeakCounter {

  /** Where a thread is in buffer_pool_alloc_safe. */
  datatype Thread =
    | Start
    | Counted                           // line 215 done
    | Sampled(current: nat)             // line 217 done
    | Looking(current: nat, seen: nat)  // line 218 or 223 done
    | Done(current: nat, held: bool)    // returned; held until its block is freed

  /** before counts the blocks that were live at the start and have not been freed. */
  datatype State = State(active: nat, peak: nat, before: nat, threads: seq<Thread>)

  datatype Move = Count(t: nat) | Sample(t: nat) | Look(t: nat) | Swap(t: nat) | FreeOf(t: nat) | FreeBefore

  /** Whether a block of the thread is counted as active. */
  predicate Holding(th: Thread) { !th.Start? && (th.Done? ==> th.held) }

  function Held(threads: seq<Thread>): (n: nat)
    ensures n <= |threads|
  {
    if threads == [] then 0 else Held(threads[1..]) + if Holding(threads[0]) then 1 else 0
  }

  predicate Enabled(s: State, m: Move) {
    match m
    case Count(t) => t < |s.threads| && s.threads[t] == Start
    case Sample(t) => t < |s.threads| && s.threads[t] == Counted
    case Look(t) => t < |s.threads| && s.threads[t].Sampled?
    case Swap(t) => t < |s.threads| && s.threads[t].Looking?
    case FreeOf(t) => t < |s.threads| && s.threads[t].Done? && s.threads[t].held && s.active > 0
    case FreeBefore => s.before > 0 && s.active > 0
  }

  /** s.threads[t] moves on to th. */
  function With(s: State, t: nat, th: Thread): State
    requires t < |s.threads|
  {
    s.(threads := s.threads[t := th])
  }

  function Next(s: State, m: Move): State
    requires Enabled(s, m)
  {
    match m
    case Count(t) => With(s.(active := s.active + 1), t, Counted)
    case Sample(t) => With(s, t, Sampled(s.active))
    case Look(t) => With(s, t, Looking(s.threads[t].current, s.peak))
    case Swap(t) =>
      var current, seen := s.threads[t].current, s.threads[t].seen;
      if current <= seen then With(s, t, Done(current, true))
      else if s.peak == seen then With(s.(peak := current), t, Done(current, true))
      else With(s, t, Looking(current, s.peak))
    case FreeOf(t) => With(s.(active := s.active - 1), t, Done(s.threads[t].current, false))
    case FreeBefore => s.(active := s.active - 1, before := s.before - 1)
  }

  // ----- Runs

  predicate Legal(s: State, moves: seq<Move>)
    decreases moves
  {
    moves == [] || (Enabled(s, moves[0]) && Legal(Next(s, moves[0]), moves[1..]))
  }

  function After(s: State, moves: seq<Move>): State
    requires Legal(s, moves)
    decreases moves
  {
    if moves == [] then s else After(Next(s, moves[0]), moves[1..])
  }

  /** The most blocks ever active at once. */
  function Highest(s: State, moves: seq<Move>): (h: nat)
    requires Legal(s, moves)
    ensures s.active <= h
    decreases moves
  {
    if moves == [] then s.active
    else
      var rest := Highest(Next(s, moves[0]), moves[1..]);
      if rest < s.active then s.active else rest
  }

  ghost predicate Finished(s: State) { forall t :: 0 <= t < |s.threads| ==> s.threads[t].Done? }

  /** active is the number of blocks held: of those from before, and of the threads. */
  ghost predicate Balanced(s: State) { s.active == s.before + Held(s.threads) }

  lemma {:induction false} HeldUpdate(threads: seq<Thread>, t: nat, th: Thread)
    requires t < |threads|
    ensures Held(threads[t := th])
         == Held(threads) - (if Holding(threads[t]) then 1 else 0) + (if Holding(th) then 1 else 0)
  {
    if t == 0 {
      assert threads[0 := th][1..] == threads[1..];
    } else {
      assert threads[t := th][1..] == threads[1..][t - 1 := th];
      HeldUpdate(threads[1..], t - 1, th);
    }
  }

  lemma {:induction false} HeldPositive(threads: seq<Thread>, t: nat)
    requires t < |threads| && Holding(threads[t])
    ensures Held(threads) > 0
  {
    if t > 0 {
      HeldPositive(threads[1..], t - 1);
    }
  }

  lemma StepKeepsBalance(s: State, m: Move)
    requires Balanced(s) && Enabled(s, m)
    ensures Balanced(Next(s, m)) && Next(s, m).before <= s.before && |Next(s, m).threads| == |s.threads|
  {
    if !m.FreeBefore? {
      var th := Next(s, m).threads[m.t];
      HeldUpdate(s.threads, m.t, th);
      assert Next(s, m).threads == s.threads[m.t := th];
    }
  }

  /** The counter is positive whenever there is a block to free, so its guard in Enabled never blocks a free. */
  lemma FreesAreNeverBlocked(s: State, t: nat)
    requires Balanced(s)
    ensures t < |s.threads| && s.threads[t].Done? && s.threads[t].held ==> Enabled(s, FreeOf(t))
    ensures s.before > 0 ==> Enabled(s, FreeBefore)
  {
    if t < |s.threads| && s.threads[t].Done? && s.threads[t].held {
      HeldPositive(s.threads, t);
    }
  }

  // ----- What each thread is promised

  ghost predicate Inv(s: State) {
    forall th <- s.threads ::
      (th.Looking? ==> th.seen <= s.peak) && (th.Done? ==> th.current <= s.peak)
  }

  lemma StepKeeps(s: State, m: Move)
    requires Inv(s) && Enabled(s, m)
    ensures var s' := Next(s, m);
            && Inv(s') && s.peak <= s'.peak && |s'.threads| == |s.threads|
            && forall t :: 0 <= t < |s.threads| && s.threads[t].Done? ==>
                 s'.threads[t].Done? && s'.threads[t].current == s.threads[t].current
  {
    var s' := Next(s, m);
    if !m.FreeBefore? {
      assert s.threads[m.t] in s.threads;
      forall th | th in s'.threads ensures th in s.threads || th == s'.threads[m.t] {
        var i :| 0 <= i < |s'.threads| && s'.threads[i] == th;
        assert i != m.t ==> th == s.threads[i];
      }
    }
  }

  /** In every interleaving the peak never falls, and once a thread is done it is at least what that thread sampled. */
  lemma {:induction false} PeakCoversSamples(s: State, moves: seq<Move>)
    requires Inv(s) && Legal(s, moves)
    ensures var s' := After(s, moves);
            && Inv(s') && s.peak <= s'.peak && |s'.threads| == |s.threads|
            && forall t :: 0 <= t < |s.threads| && s.threads[t].Done? ==>
                 s'.threads[t].Done? && s.threads[t].current <= s'.peak
    decreases moves
  {
    if moves != [] {
      StepKeeps(s, moves[0]);
      PeakCoversSamples(Next(s, moves[0]), moves[1..]);
    } else {
      forall t | 0 <= t < |s.threads| && s.threads[t].Done? ensures s.threads[t].current <= s.peak {
        assert s.threads[t] in s.threads;
      }
    }
  }

  // ----- When the peak is right

  /** n threads are about to allocate, and active0 blocks are live. */
  ghost predicate Initial(s: State) {
    && s.active == s.before <= s.peak
    && forall t :: 0 <= t < |s.threads| ==> s.threads[t] == Start
  }

  /** When every thread has finished, the peak is at least as much as was ever active. */
  ghost predicate PeakRight(s: State, moves: seq<Move>)
    requires Legal(s, moves)
  {
    Finished(After(s, moves)) ==> Highest(s, moves) <= After(s, moves).peak
  }

  lemma {:induction false} NoneHeld(threads: seq<Thread>)
    requires forall t :: 0 <= t < |threads| ==> threads[t] == Start
    ensures Held(threads) == 0
  {
    if threads != [] {
      NoneHeld(threads[1..]);
    }
  }

  /** No more than the blocks from before and one for each thread are ever active. */
  lemma {:induction false} HighestBound(s: State, moves: seq<Move>)
    requires Balanced(s) && Legal(s, moves)
    ensures Highest(s, moves) <= s.before + |s.threads|
    decreases moves
  {
    if moves != [] {
      StepKeepsBalance(s, moves[0]);
      HighestBound(Next(s, moves[0]), moves[1..]);
    }
  }

  /** A single thread with no block from before: it samples the one block it counted. */
  ghost predicate Alone(s: State) {
    && |s.threads| == 1 && s.before == 0
    && var th := s.threads[0];
       && s.active == (if Holding(th) then 1 else 0)
       && (th.Sampled? || th.Looking? || th.Done? ==> th.current == 1)
       && (th.Looking? ==> th.seen <= s.peak)
       && (th.Done? ==> 1 <= s.peak)
  }

  lemma AloneStep(s: State, m: Move)
    requires Alone(s) && Enabled(s, m)
    ensures Alone(Next(s, m))
  {
  }

  lemma {:induction false} AloneRight(s: State, moves: seq<Move>)
    requires Alone(s) && Legal(s, moves)
    ensures Highest(s, moves) <= 1 && Alone(After(s, moves))
    decreases moves
  {
    if moves != [] {
      AloneStep(s, moves[0]);
      AloneRight(Next(s, moves[0]), moves[1..]);
    }
  }

  // ----- Runs in which it is wrong

  lemma {:induction false} Chained(s: State, a: seq<Move>, b: seq<Move>)
    requires Legal(s, a) && Legal(After(s, a), b)
    ensures Legal(s, a + b) && After(s, a + b) == After(After(s, a), b)
    ensures Highest(s, a + b) >= After(s, a).active && Highest(s, a + b) >= Highest(After(s, a), b)
    decreases a
  {
    if a == [] {
      assert a + b == b;
    } else {
      assert (a + b)[0] == a[0] && (a + b)[1..] == a[1..] + b;
      Chained(Next(s, a[0]), a[1..], b);
    }
  }

  /** s, with the threads from k on replaced. */
  function Suffix(s: State, k: nat, th: Thread): seq<Thread>
    requires k <= |s.threads|
  {
    s.threads[..k] + seq(|s.threads| - k, _ => th)
  }

  /** All threads from k on count their blocks. */
  lemma {:induction false} CountAll(s: State, k: nat) returns (moves: seq<Move>)
    requires k <= |s.threads| && s.threads == Suffix(s, k, Start)
    ensures Legal(s, moves)
    ensures After(s, moves) == s.(active := s.active + |s.threads| - k, threads := Suffix(s, k, Counted))
    decreases |s.threads| - k
  {
    if k == |s.threads| {
      moves := [];
      assert Suffix(s, k, Start) == Suffix(s, k, Counted);
    } else {
      assert s.threads[k] == Start;
      var s1 := Next(s, Count(k));
      assert s1.threads == Suffix(s1, k + 1, Start) && s1.threads[..k + 1] == s.threads[..k] + [Counted];
      var rest := CountAll(s1, k + 1);
      moves := [Count(k)] + rest;
      assert moves[1..] == rest;
      assert Suffix(s1, k + 1, Counted) == Suffix(s, k, Counted);
    }
  }

  function Max(a: nat, b: nat): nat { if a < b then b else a }

  /** A thread that has counted goes on to the end alone. */
  lemma FinishOne(s: State, t: nat)
    requires t < |s.threads| && s.threads[t] == Counted
    ensures var moves := [Sample(t), Look(t), Swap(t)];
            Legal(s, moves) && After(s, moves) == With(s.(peak := Max(s.peak, s.active)), t, Done(s.active, true))
  {
    var s1 := Next(s, Sample(t));
    var s2 := Next(s1, Look(t));
    var s3 := Next(s2, Swap(t));
    assert s3.threads == s.threads[t := Done(s.active, true)];
    Single(s2, Swap(t));
    Single(s1, Look(t));
    Single(s, Sample(t));
    Chained(s1, [Look(t)], [Swap(t)]);
    Chained(s, [Sample(t)], [Look(t)] + [Swap(t)]);
    assert [Sample(t)] + ([Look(t)] + [Swap(t)]) == [Sample(t), Look(t), Swap(t)];
  }

  lemma Single(s: State, m: Move)
    requires Enabled(s, m)
    ensures Legal(s, [m]) && After(s, [m]) == Next(s, m)
  {
    assert [m][1..] == [];
    assert Legal(Next(s, m), []);
  }

  /** All threads from k on, having counted, finish one after the other. */
  lemma {:induction false} FinishAll(s: State, k: nat) returns (moves: seq<Move>)
    requires k <= |s.threads| && s.threads == Suffix(s, k, Counted)
    ensures Legal(s, moves)
    ensures After(s, moves) == s.(peak := if k < |s.threads| then Max(s.peak, s.active) else s.peak,
                                  threads := Suffix(s, k, Done(s.active, true)))
    decreases |s.threads| - k
  {
    if k == |s.threads| {
      moves := [];
      assert Suffix(s, k, Counted) == Suffix(s, k, Done(s.active, true));
    } else {
      assert s.threads[k] == Counted;
      FinishOne(s, k);
      var first := [Sample(k), Look(k), Swap(k)];
      var s1 := After(s, first);
      assert s1.threads == Suffix(s1, k + 1, Counted) && s1.threads[..k + 1] == s.threads[..k] + [Done(s.active, true)];
      var rest := FinishAll(s1, k + 1);
      moves := first + rest;
      Chained(s, first, rest);
      assert Suffix(s1, k + 1, Done(s.active, true)) == Suffix(s, k, Done(s.active, true));
    }
  }

  /** Blocks were live before: count every thread's block, free one from before, and let all sample. */
  lemma MissedWithBlocks(s: State) returns (moves: seq<Move>)
    requires Initial(s) && 0 < s.active && s.peak < s.active + |s.threads|
    ensures Legal(s, moves) && Finished(After(s, moves)) && After(s, moves).peak < Highest(s, moves)
  {
    assert s.threads == Suffix(s, 0, Start);
    var counts := CountAll(s, 0);
    var s1 := After(s, counts);
    Single(s1, FreeBefore);
    var s2 := Next(s1, FreeBefore);
    assert Suffix(s2, 0, Counted) == Suffix(s, 0, Counted) == s2.threads;
    var samples := FinishAll(s2, 0);
    hide Legal, After, Highest;
    Chained(s1, [FreeBefore], samples);
    Chained(s, counts, [FreeBefore] + samples);
    AtLeastFirst(s1, [FreeBefore] + samples);
    moves := counts + ([FreeBefore] + samples);
  }

  lemma AtLeastFirst(s: State, moves: seq<Move>)
    requires Legal(s, moves)
    ensures Highest(s, moves) >= s.active
  {
  }

  /** Nothing was live before: one thread finishes, the others count their blocks, and its block is freed before they
      sample. */
  lemma MissedWithout(s: State) returns (moves: seq<Move>)
    requires Initial(s) && s.active == 0 && 2 <= |s.threads| && s.peak < |s.threads|
    ensures Legal(s, moves) && Finished(After(s, moves)) && After(s, moves).peak < Highest(s, moves)
  {
    var s1 := Next(s, Count(0));
    Single(s, Count(0));
    FinishOne(s1, 0);
    var finish := [Sample(0), Look(0), Swap(0)];
    var s2 := After(s1, finish);
    assert s2.threads == Suffix(s2, 1, Start);
    var counts := CountAll(s2, 1);
    var s3 := After(s2, counts);
    assert s3.threads[0] == Done(1, true);
    Single(s3, FreeOf(0));
    var s4 := Next(s3, FreeOf(0));
    assert s4.threads == Suffix(s4, 1, Counted);
    var samples := FinishAll(s4, 1);
    hide Legal, After, Highest;
    Chained(s3, [FreeOf(0)], samples);
    AtLeastFirst(s3, [FreeOf(0)] + samples);
    Chained(s2, counts, [FreeOf(0)] + samples);
    Chained(s1, finish, counts + ([FreeOf(0)] + samples));
    Chained(s, [Count(0)], finish + (counts + ([FreeOf(0)] + samples)));
    moves := [Count(0)] + (finish + (counts + ([FreeOf(0)] + samples)));
  }

  /** For n threads and active0 blocks live at the start, every run that finishes ends with a peak that covers all that
      was ever active exactly when nobody allocates, or the peak was high enough from the start, or a single thread
      allocates the only block. */
  lemma PeakRightIff(s: State)
    requires Initial(s)
    ensures (forall moves :: Legal(s, moves) ==> PeakRight(s, moves)) <==>
            |s.threads| == 0 || s.peak >= s.active + |s.threads| || (|s.threads| == 1 && s.active == 0)
  {
    var n := |s.threads|;
    NoneHeld(s.threads);
    if n == 0 || s.peak >= s.active + n || (n == 1 && s.active == 0) {
      forall moves | Legal(s, moves) ensures PeakRight(s, moves) {
        HighestBound(s, moves);
        PeakCoversSamples(s, moves);
        if n == 1 && s.active == 0 {
          AloneRight(s, moves);
        }
      }
    } else {
      var moves;
      if s.active > 0 {
        moves := MissedWithBlocks(s);
      } else {
        moves := MissedWithout(s);
      }
      assert !PeakRight(s, moves);
    }
  }
}
