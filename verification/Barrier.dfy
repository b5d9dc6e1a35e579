/** The sense-reversing barrier of util.h, as atomic steps of any number of threads under sequential
    consistency: every access to count and sense is one step. */
module Barrier {
  /** Where a thread is: outside barrier; about to add to count; waiting for sense; as the last to
      arrive, about to clear count, and about to flip sense. */
  datatype Place = Outside | Arriving | Spinning | Clearing | Releasing

  /** entered counts the calls of barrier the thread has made; it is history, not program state. */
  datatype Thread = Thread(place: Place, threadsense: bool, entered: nat)

  /** released counts the flips of sense; it is history too. */
  datatype State = State(count: nat, sense: bool, threads: seq<Thread>, released: nat)

  function Start(n: nat): State {
    State(0, false, seq(n, _ => Thread(Outside, false, 0)), 0)
  }

  /** The next step of thread t, with as many threads as cores. */
  function Step(s: State, t: nat): (s': State)
    requires t < |s.threads|
    ensures |s'.threads| == |s.threads|
  {
    var me := s.threads[t];
    match me.place
    case Outside => s.(threads := s.threads[t := Thread(Arriving, !me.threadsense, me.entered + 1)])
    case Arriving =>
      s.(count := s.count + 1,
         threads := s.threads[t := me.(place := if s.count == |s.threads| - 1 then Clearing else Spinning)])
    case Spinning => if s.sense == me.threadsense then s.(threads := s.threads[t := me.(place := Outside)]) else s
    case Clearing => s.(count := 0, threads := s.threads[t := me.(place := Releasing)])
    case Releasing => s.(sense := me.threadsense, threads := s.threads[t := me.(place := Outside)],
      released := s.released + 1)
  }

  /** A schedule says which thread moves next. */
  ghost predicate Schedule(n: nat, ts: seq<nat>) {
    forall i :: 0 <= i < |ts| ==> ts[i] < n
  }

  ghost function Run(n: nat, ts: seq<nat>): (s: State)
    requires Schedule(n, ts)
    ensures |s.threads| == n
  {
    if ts == [] then Start(n) else Step(Run(n, ts[..|ts| - 1]), ts[|ts| - 1])
  }

  // ----- counting the threads that have arrived

  /** The thread has added to count in the episode that is under way. */
  predicate Arrived(x: Thread, released: nat) {
    x.entered == released + 1 && (x.place == Spinning || x.place == Clearing || x.place == Releasing)
  }

  ghost function NumArrived(xs: seq<Thread>, released: nat): (k: nat)
    ensures k <= |xs|
  {
    if xs == [] then 0
    else NumArrived(xs[..|xs| - 1], released) + if Arrived(xs[|xs| - 1], released) then 1 else 0
  }

  lemma {:induction false} NumAfterUpdate(xs: seq<Thread>, released: nat, t: nat, x: Thread)
    requires t < |xs|
    ensures NumArrived(xs[t := x], released) ==
      NumArrived(xs, released) + (if Arrived(x, released) then 1 else 0) - (if Arrived(xs[t], released) then 1 else 0)
    decreases |xs|
  {
    var ys := xs[t := x];
    if t == |xs| - 1 {
      assert ys[..|xs| - 1] == xs[..|xs| - 1];
    } else {
      assert ys[..|xs| - 1] == xs[..|xs| - 1][t := x];
      NumAfterUpdate(xs[..|xs| - 1], released, t, x);
    }
  }

  lemma {:induction false} NumIsAll(xs: seq<Thread>, released: nat)
    ensures NumArrived(xs, released) == |xs| <==> forall t :: 0 <= t < |xs| ==> Arrived(xs[t], released)
    ensures (forall t :: 0 <= t < |xs| ==> !Arrived(xs[t], released)) ==> NumArrived(xs, released) == 0
    decreases |xs|
  {
    if xs != [] { NumIsAll(xs[..|xs| - 1], released); }
  }

  // ----- the invariant

  predicate Odd(k: nat) { k % 2 == 1 }

  /** Each thread is in the episode under way, or has yet to leave, or left, the one before. */
  ghost predicate InEpisode(x: Thread, released: nat) {
    && x.threadsense == Odd(x.entered)
    && match x.place
       case Outside => x.entered == released
       case Spinning => x.entered == released || x.entered == released + 1
       case _ => x.entered == released + 1
  }

  predicate IsLast(x: Thread) {
    x.place == Clearing || x.place == Releasing
  }

  /** Thread l is the last to arrive and all others wait for it. */
  ghost predicate LastIs(s: State, l: nat) {
    && l < |s.threads| && IsLast(s.threads[l])
    && s.count == (if s.threads[l].place == Clearing then |s.threads| else 0)
    && forall t :: 0 <= t < |s.threads| && t != l ==>
       s.threads[t].place == Spinning && s.threads[t].entered == s.released + 1
  }

  /** Some thread has not arrived, and count tells how many have. */
  ghost predicate Gathering(s: State) {
    && s.count == NumArrived(s.threads, s.released) < |s.threads|
    && forall t :: 0 <= t < |s.threads| ==> !IsLast(s.threads[t])
  }

  ghost predicate Inv(s: State) {
    && |s.threads| >= 1 && s.sense == Odd(s.released)
    && (forall t :: 0 <= t < |s.threads| ==> InEpisode(s.threads[t], s.released))
    && (Gathering(s) || exists l :: LastIs(s, l))
  }

  lemma StartInv(n: nat)
    requires n >= 1
    ensures Inv(Start(n))
  {
    NumIsAll(Start(n).threads, 0);
  }

  /** Entering and leaving change nobody's arrival. */
  lemma EnterOrLeaveStep(s: State, t: nat)
    requires Inv(s) && t < |s.threads| && Gathering(s) && s.threads[t].place != Arriving
    ensures Inv(Step(s, t))
  {
    var s' := Step(s, t);
    NumAfterUpdate(s.threads, s.released, t, s'.threads[t]);
    hide NumArrived;
    assert Gathering(s');
  }

  /** Adding to count: not the last to arrive, or the last. */
  lemma ArriveStep(s: State, t: nat)
    requires Inv(s) && t < |s.threads| && Gathering(s) && s.threads[t].place == Arriving
    ensures Inv(Step(s, t))
  {
    var s' := Step(s, t);
    NumAfterUpdate(s.threads, s.released, t, s'.threads[t]);
    if s.count == |s.threads| - 1 {
      NumIsAll(s'.threads, s'.released);
      hide NumArrived;
      assert LastIs(s', t);
    } else {
      hide NumArrived;
      assert Gathering(s');
    }
  }

  /** The last thread clears count, or flips sense and opens the next episode. */
  lemma LastStep(s: State, l: nat)
    requires Inv(s) && LastIs(s, l)
    ensures Inv(Step(s, l))
  {
    var s', me := Step(s, l), s.threads[l];
    if me.place == Clearing {
      assert LastIs(s', l);
    } else {
      assert forall t :: 0 <= t < |s.threads| ==> !Arrived(s'.threads[t], s'.released);
      NumIsAll(s'.threads, s'.released);
      assert Gathering(s');
    }
  }

  /** The others cannot move before the last one flips sense. */
  lemma WaitingStep(s: State, l: nat, t: nat)
    requires Inv(s) && LastIs(s, l) && t < |s.threads| && t != l
    ensures Step(s, t) == s
  {
  }

  lemma StepInv(s: State, t: nat)
    requires Inv(s) && t < |s.threads|
    ensures Inv(Step(s, t))
  {
    hide InEpisode;
    if Gathering(s) {
      if s.threads[t].place == Arriving { ArriveStep(s, t); } else { EnterOrLeaveStep(s, t); }
    } else {
      var l :| LastIs(s, l);
      if t == l { LastStep(s, l); } else { WaitingStep(s, l, t); }
    }
  }

  lemma {:induction false} RunInv(n: nat, ts: seq<nat>)
    requires n >= 1 && Schedule(n, ts)
    ensures Inv(Run(n, ts))
    decreases |ts|
  {
    hide Inv, Step;
    if ts == [] {
      StartInv(n);
    } else {
      RunInv(n, ts[..|ts| - 1]);
      StepInv(Run(n, ts[..|ts| - 1]), ts[|ts| - 1]);
    }
  }

  // ----- what the barrier promises

  /** How many episodes a thread has arrived in, and how many it has left again. */
  function Arrivals(x: Thread): int {
    if x.place == Arriving then x.entered - 1 else x.entered
  }

  function Left(x: Thread): int {
    if x.place == Outside then x.entered else x.entered - 1
  }

  /** On every schedule, no thread leaves episode k before all threads have arrived in it, and no
      thread is more than one episode ahead of another. */
  lemma Safety(n: nat, ts: seq<nat>, t: nat, u: nat)
    requires Schedule(n, ts) && t < n && u < n
    ensures var xs := Run(n, ts).threads;
      Left(xs[t]) <= Arrivals(xs[u]) && xs[t].entered <= xs[u].entered + 1
  {
    RunInv(n, ts);
    var s := Run(n, ts);
    assert InEpisode(s.threads[t], s.released) && InEpisode(s.threads[u], s.released);
    if !Gathering(s) {
      var l :| LastIs(s, l);
    }
  }

  /** count never exceeds the number of threads, and sense flips only while it is 0. */
  lemma CountIsClear(n: nat, ts: seq<nat>, t: nat)
    requires Schedule(n, ts) && t < n
    ensures var s := Run(n, ts);
      s.count <= n && (Step(s, t).sense != s.sense ==> s.count == 0 == Step(s, t).count)
  {
    RunInv(n, ts);
    var s := Run(n, ts);
    if !Gathering(s) {
      var l :| LastIs(s, l);
    }
  }

  /** Thread t can do something other than enter the barrier anew or spin in vain. */
  predicate CanMove(s: State, t: nat)
    requires t < |s.threads|
  {
    s.threads[t].place != Outside && !(s.threads[t].place == Spinning && s.sense != s.threads[t].threadsense)
  }

  /** A thread that cannot move is outside, or waits for the episode under way to be released. */
  lemma CannotMove(s: State, t: nat)
    requires t < |s.threads| && InEpisode(s.threads[t], s.released) && s.sense == Odd(s.released)
    ensures !CanMove(s, t) <==>
      || s.threads[t].place == Outside
      || (s.threads[t].place == Spinning && s.threads[t].entered == s.released + 1)
  {
  }

  lemma LastCanMove(s: State)
    requires Inv(s)
    ensures Gathering(s) || exists l :: 0 <= l < |s.threads| && CanMove(s, l)
  {
    if l :| LastIs(s, l) { assert CanMove(s, l); }
  }

  /** No deadlock: when no thread inside can move, some thread is outside, and all the others that
      are inside wait in the episode it has yet to enter. */
  lemma NoDeadlock(n: nat, ts: seq<nat>) returns (u: nat)
    requires n >= 1 && Schedule(n, ts)
    requires forall t :: 0 <= t < n ==> !CanMove(Run(n, ts), t)
    ensures var xs := Run(n, ts).threads;
      && u < n && xs[u].place == Outside
      && forall t :: 0 <= t < n ==>
        xs[t].place == Outside || (xs[t].place == Spinning && xs[t].entered == xs[u].entered + 1)
  {
    RunInv(n, ts);
    var s := Run(n, ts);
    forall t | 0 <= t < n
      ensures s.threads[t].place == Outside
        || (s.threads[t].place == Spinning && s.threads[t].entered == s.released + 1)
    {
      CannotMove(s, t);
    }
    LastCanMove(s);
    hide InEpisode, CanMove, Run;
    NumIsAll(s.threads, s.released);
    u :| 0 <= u < n && !Arrived(s.threads[u], s.released);
    assert InEpisode(s.threads[u], s.released);
    OutsideHasLeft(s.threads[u], s.released);
  }

  lemma OutsideHasLeft(x: Thread, released: nat)
    requires InEpisode(x, released) && x.place == Outside
    ensures x.entered == released
  {
  }

  /** How far a thread is from being outside again. */
  function Weight(x: Thread): nat {
    match x.place
    case Outside => 0
    case Spinning => 1
    case Releasing => 1
    case Clearing => 2
    case Arriving => 3
  }

  ghost function Rank(xs: seq<Thread>): nat {
    if xs == [] then 0 else Rank(xs[..|xs| - 1]) + Weight(xs[|xs| - 1])
  }

  lemma {:induction false} RankAfterUpdate(xs: seq<Thread>, t: nat, x: Thread)
    requires t < |xs|
    ensures Rank(xs[t := x]) == Rank(xs) + Weight(x) - Weight(xs[t])
    decreases |xs|
  {
    var ys := xs[t := x];
    if t == |xs| - 1 {
      assert ys[..|xs| - 1] == xs[..|xs| - 1];
    } else {
      assert ys[..|xs| - 1] == xs[..|xs| - 1][t := x];
      RankAfterUpdate(xs[..|xs| - 1], t, x);
    }
  }

  /** Every such move brings the threads closer to being outside, so only finitely many happen
      without a thread entering anew. */
  lemma MovesRunOut(s: State, t: nat)
    requires t < |s.threads| && CanMove(s, t)
    ensures Rank(Step(s, t).threads) < Rank(s.threads)
  {
    RankAfterUpdate(s.threads, t, Step(s, t).threads[t]);
  }

  ghost function Continue(s: State, ms: seq<nat>): (s': State)
    requires Schedule(|s.threads|, ms)
    ensures |s'.threads| == |s.threads|
    decreases |ms|
  {
    if ms == [] then s else Step(Continue(s, ms[..|ms| - 1]), ms[|ms| - 1])
  }

  lemma {:induction false} RunContinues(n: nat, ts: seq<nat>, ms: seq<nat>)
    requires Schedule(n, ts) && Schedule(n, ms)
    ensures Schedule(n, ts + ms)
    ensures Run(n, ts + ms) == Continue(Run(n, ts), ms)
    decreases |ms|
  {
    hide Step;
    if ms == [] {
      assert ts + ms == ts;
    } else {
      RunContinues(n, ts, ms[..|ms| - 1]);
      assert (ts + ms)[..|ts + ms| - 1] == ts + ms[..|ms| - 1];
    }
  }

  /** From state s the threads ms move, each able to when its turn comes; none enters anew. */
  ghost predicate Busy(s: State, ms: seq<nat>) {
    && Schedule(|s.threads|, ms)
    && forall k: nat | k < |ms| :: CanMove(Continue(s, ms[..k]), ms[k])
  }

  lemma {:induction false} BusyRun(s: State, ms: seq<nat>)
    requires Busy(s, ms)
    ensures |ms| + Rank(Continue(s, ms).threads) <= Rank(s.threads)
    ensures forall t :: 0 <= t < |s.threads| ==> Continue(s, ms).threads[t].entered == s.threads[t].entered
    decreases |ms|
  {
    if ms != [] {
      var before, t := ms[..|ms| - 1], ms[|ms| - 1];
      assert forall k: nat | k < |before| :: before[..k] == ms[..k] && before[k] == ms[k];
      BusyRun(s, before);
      var s1 := Continue(s, before);
      assert CanMove(s1, t);
      MovesRunOut(s1, t);
      assert Step(s1, t).threads[t].entered == s1.threads[t].entered;
      hide Rank, CanMove, Busy;
    }
  }

  /** Liveness: once every thread has entered the episode under way, any continuation in which the
      threads inside keep moving ends, and it ends with all threads outside and one more release. */
  lemma EpisodeCompletes(n: nat, ts: seq<nat>, ms: seq<nat>)
    requires n >= 1 && Schedule(n, ts) && Busy(Run(n, ts), ms)
    requires forall t :: 0 <= t < n ==> Run(n, ts).threads[t].entered == Run(n, ts).released + 1
    ensures |ms| <= Rank(Run(n, ts).threads)
    ensures (forall t :: 0 <= t < n ==> !CanMove(Continue(Run(n, ts), ms), t)) ==>
      var s' := Continue(Run(n, ts), ms);
      && s'.released == Run(n, ts).released + 1
      && forall t :: 0 <= t < n ==> s'.threads[t].place == Outside
  {
    var s := Run(n, ts);
    BusyRun(s, ms);
    RunContinues(n, ts, ms);
    var s' := Continue(s, ms);
    if forall t :: 0 <= t < n ==> !CanMove(s', t) {
      var u := NoDeadlock(n, ts + ms);
      RunInv(n, ts + ms);
      assert InEpisode(s'.threads[u], s'.released);
    }
  }

  // ----- reuse without end

  /** How often thread t moves. */
  function Moves(ms: seq<nat>, t: nat): nat {
    if ms == [] then 0 else Moves(ms[..|ms| - 1], t) + if ms[|ms| - 1] == t then 1 else 0
  }

  /** How many moves of its own a thread has before it can do no more for the episode under way: to leave
      the one before, to enter, to arrive, and as the last to clear count and flip sense. */
  function ToGo(x: Thread, released: nat): nat {
    match x.place
    case Spinning => if x.entered == released then 5 else 0
    case Outside => 4
    case Arriving => 3
    case Clearing => 2
    case Releasing => 1
  }

  /** A move of t brings it closer, and nobody else further away, unless it releases the episode. */
  lemma ToGoStep(s: State, t: nat, u: nat)
    requires Inv(s) && t < |s.threads| && u < |s.threads|
    ensures Step(s, t).released == s.released || Step(s, t).released == s.released + 1
    ensures Step(s, t).released == s.released ==>
      var left, left' := ToGo(s.threads[u], s.released), ToGo(Step(s, t).threads[u], s.released);
      left' + (if t == u && left > 0 then 1 else 0) <= left
  {
    assert InEpisode(s.threads[t], s.released) && InEpisode(s.threads[u], s.released);
    hide Gathering, LastIs;
  }

  lemma {:induction false} ContinueInv(s: State, ms: seq<nat>)
    requires Inv(s) && Schedule(|s.threads|, ms)
    ensures Inv(Continue(s, ms)) && Continue(s, ms).released >= s.released
    decreases |ms|
  {
    hide Inv, Step;
    if ms != [] {
      var before, t := ms[..|ms| - 1], ms[|ms| - 1];
      ContinueInv(s, before);
      StepInv(Continue(s, before), t);
      ToGoStep(Continue(s, before), t, t);
    }
  }

  /** Until the episode is released, a thread's own moves count down. */
  lemma {:induction false} CountsDown(s: State, ms: seq<nat>, u: nat)
    requires Inv(s) && Schedule(|s.threads|, ms) && u < |s.threads| && Continue(s, ms).released == s.released
    ensures ToGo(Continue(s, ms).threads[u], s.released) == 0
      || ToGo(Continue(s, ms).threads[u], s.released) + Moves(ms, u) <= ToGo(s.threads[u], s.released)
    decreases |ms|
  {
    hide Inv, Step, ToGo;
    if ms != [] {
      var before, t := ms[..|ms| - 1], ms[|ms| - 1];
      ContinueInv(s, before);
      ToGoStep(Continue(s, before), t, u);
      CountsDown(s, before, u);
    }
  }

  /** An episode that is under way cannot have all threads waiting in it. */
  lemma SomeoneHasToGo(s: State)
    requires Inv(s)
    ensures exists u: nat :: u < |s.threads| && ToGo(s.threads[u], s.released) > 0
  {
    if l: nat :| LastIs(s, l) {
      assert ToGo(s.threads[l], s.released) > 0;
    } else {
      NumIsAll(s.threads, s.released);
      var u :| 0 <= u < |s.threads| && !Arrived(s.threads[u], s.released);
      assert InEpisode(s.threads[u], s.released);
      assert ToGo(s.threads[u], s.released) > 0;
    }
  }

  /** Five moves of each thread, in any order, release an episode: those outside may enter again, and
      those that are fast may wait in the next one while others have yet to leave this one. */
  lemma FiveMovesRelease(s: State, ms: seq<nat>)
    requires Inv(s) && Schedule(|s.threads|, ms)
    requires forall t: nat | t < |s.threads| :: Moves(ms, t) >= 5
    ensures Continue(s, ms).released > s.released
  {
    ContinueInv(s, ms);
    if Continue(s, ms).released == s.released {
      SomeoneHasToGo(Continue(s, ms));
      hide Inv, Continue;
      var u: nat :| u < |s.threads| && ToGo(Continue(s, ms).threads[u], s.released) > 0;
      CountsDown(s, ms, u);
    }
  }

  /** Rounds of moves, one after the other. */
  function Joined(rounds: seq<seq<nat>>): seq<nat> {
    if rounds == [] then [] else Joined(rounds[..|rounds| - 1]) + rounds[|rounds| - 1]
  }

  /** Liveness with reuse: on every schedule, the barrier goes on being released as long as all threads go
      on moving, once at least in every stretch in which each moves five times. */
  lemma {:induction false} ReleasedForEver(n: nat, ts: seq<nat>, rounds: seq<seq<nat>>)
    requires n >= 1 && Schedule(n, ts)
    requires forall r :: 0 <= r < |rounds| ==>
      Schedule(n, rounds[r]) && forall t: nat | t < n :: Moves(rounds[r], t) >= 5
    ensures Schedule(n, ts + Joined(rounds)) && Run(n, ts + Joined(rounds)).released >= Run(n, ts).released + |rounds|
    decreases |rounds|
  {
    hide Moves, Run;
    if rounds == [] {
      assert ts + Joined(rounds) == ts;
    } else {
      var before, last := rounds[..|rounds| - 1], rounds[|rounds| - 1];
      ReleasedForEver(n, ts, before);
      var done := ts + Joined(before);
      RunInv(n, done);
      RunContinues(n, done, last);
      FiveMovesRelease(Run(n, done), last);
      assert done + last == ts + Joined(rounds);
    }
  }

  /** And a thread whose episode is released leaves it with its next own move, whatever the others, who may
      be in the next episode already, have done in between. */
  lemma {:induction false} LeavesWhenReleased(n: nat, ts: seq<nat>, ms: seq<nat>, t: nat)
    requires n >= 1 && Schedule(n, ts) && Schedule(n, ms) && t < n && t !in ms
    requires var x := Run(n, ts).threads[t]; x.place == Spinning && x.entered == Run(n, ts).released
    ensures Schedule(n, ts + ms) && Run(n, ts + ms).threads[t] == Run(n, ts).threads[t]
    ensures Step(Run(n, ts + ms), t).threads[t].place == Outside
    decreases |ms|
  {
    if ms == [] {
      assert ts + ms == ts;
      RunInv(n, ts);
      assert InEpisode(Run(n, ts).threads[t], Run(n, ts).released);
    } else {
      var before := ms[..|ms| - 1];
      LeavesWhenReleased(n, ts, before, t);
      assert (ts + ms)[..|ts + ms| - 1] == ts + before;
      NotReleasedAgain(n, ts + before, ms[|ms| - 1], t);
    }
  }

  /** Sense does not flip again while a thread has yet to leave. */
  lemma NotReleasedAgain(n: nat, ts: seq<nat>, u: nat, t: nat)
    requires n >= 1 && Schedule(n, ts) && t < n && u < n && u != t
    requires Run(n, ts).threads[t].place == Spinning && Run(n, ts).sense == Run(n, ts).threads[t].threadsense
    ensures Step(Run(n, ts), u).sense == Run(n, ts).sense && Step(Run(n, ts), u).threads[t] == Run(n, ts).threads[t]
  {
    RunInv(n, ts);
    var s := Run(n, ts);
    assert InEpisode(s.threads[t], s.released);
    if l: nat :| LastIs(s, l) {
      assert s.threads[t].entered == s.released + 1;
    }
  }
}
