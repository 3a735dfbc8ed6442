// The counting semaphore of rt-thread/src/ipc.c. Each region with interrupts disabled is one
// step; a suspended thread that a release resumes returns from its take without looking at the
// value again, so the release hands its unit over directly.
module Semaphores {
  import opened Lists
  import opened Waiters

  const VALUE_MAX := 0xFFFF // RT_SEM_VALUE_MAX

  datatype Err = Ok | TimedOut | Full | Suspended

  // `timed` are the suspended threads whose timer runs; `stamp` numbers the threads by their
  // last suspension.
  datatype State = State(value: nat, waiters: seq<nat>, timed: set<nat>, stamp: seq<nat>, clock: nat)

  // ---- the steps ----

  // rt_sem_take
  ghost function Take(s: State, prio: seq<nat>, flag: Flag, t: nat, time: int): (State, Err)
    requires t < |s.stamp|
  {
    if s.value > 0 then (s.(value := s.value - 1), Ok)
    else if time == 0 then (s, TimedOut)
    else
      (s.(waiters := Suspend(s.waiters, prio, t, flag), timed := SetTimer(s.timed, t, time),
          stamp := s.stamp[t := s.clock], clock := s.clock + 1), Suspended)
  }

  // rt_sem_release
  ghost function Release(s: State): (State, Err) {
    if s.waiters != [] then (s.(waiters := Rest(s.waiters), timed := s.timed - First(s.waiters)), Ok)
    else if s.value < VALUE_MAX then (s.(value := s.value + 1), Ok)
    else (s, Full)
  }

  // rt_thread_timeout of a suspended thread
  ghost function Timeout(s: State, t: nat): State {
    s.(waiters := Without(s.waiters, t), timed := s.timed - {t})
  }

  // RT_IPC_CMD_RESET: every waiter is resumed with an error; the value is cut to 16 bits.
  ghost function Reset(s: State, value: nat): State {
    s.(waiters := [], timed := {}, value := value % 0x1_0000)
  }

  // ---- the invariant ----

  // What the waiters are ordered by: priority and arrival, or arrival alone.
  ghost function Rank(prio: seq<nat>, flag: Flag): seq<nat> {
    if flag.Prio? then prio else seq(|prio|, _ => 0)
  }

  ghost predicate Inv(s: State, prio: seq<nat>, flag: Flag) {
    && s.value <= VALUE_MAX
    && (s.value > 0 ==> s.waiters == [])
    && Ordered(s.waiters, Rank(prio, flag), s.stamp)
    && (forall i :: 0 <= i < |s.waiters| ==> s.stamp[s.waiters[i]] < s.clock)
    && (forall x :: x in s.timed ==> x in s.waiters)
  }

  lemma SuspendInLine(s: State, prio: seq<nat>, flag: Flag, t: nat)
    requires Inv(s, prio, flag) && t < |s.stamp| && t !in s.waiters
    ensures Ordered(Suspend(s.waiters, prio, t, flag), Rank(prio, flag), s.stamp[t := s.clock])
    ensures forall x :: x in Suspend(s.waiters, prio, t, flag) <==> x in s.waiters || x == t
  {
    var stamp', rank := s.stamp[t := s.clock], Rank(prio, flag);
    forall i, j | 0 <= i < j < |s.waiters|
      ensures Before(rank, stamp', s.waiters[i], s.waiters[j])
    {
      assert Before(rank, s.stamp, s.waiters[i], s.waiters[j]);
      assert s.waiters[i] in s.waiters && s.waiters[j] in s.waiters;
    }
    assert forall i :: 0 <= i < |s.waiters| ==> s.waiters[i] in s.waiters;
    SuspendMembers(s.waiters, prio, t, flag);
    SuspendOrdered(s.waiters, rank, stamp', t);
    if flag.Fifo? {
      FifoAppends(s.waiters, prio, t);
      EqualRanksAppend(s.waiters, rank, t);
    }
  }

  // Among equals a thread goes to the end.
  lemma {:induction false} EqualRanksAppend(ws: seq<nat>, rank: seq<nat>, t: nat)
    requires forall i :: 0 <= i < |rank| ==> rank[i] == 0
    ensures Suspend(ws, rank, t, Prio) == ws + [t]
  {
    if ws != [] {
      EqualRanksAppend(ws[1..], rank, t);
      assert Suspend(ws, rank, t, Prio) == [ws[0]] + Suspend(ws[1..], rank, t, Prio);
    }
  }

  lemma TakeKeeps(s: State, prio: seq<nat>, flag: Flag, t: nat, time: int)
    requires Inv(s, prio, flag) && t < |s.stamp| && t !in s.waiters
    ensures Inv(Take(s, prio, flag, t, time).0, prio, flag)
  {
    if s.value == 0 && time != 0 {
      SuspendInLine(s, prio, flag, t);
      var s' := Take(s, prio, flag, t, time).0;
      forall i | 0 <= i < |s'.waiters|
        ensures s'.stamp[s'.waiters[i]] < s'.clock
      {
        assert s'.waiters[i] in s'.waiters;
      }
    }
  }

  lemma ReleaseKeeps(s: State, prio: seq<nat>, flag: Flag)
    requires Inv(s, prio, flag)
    ensures Inv(Release(s).0, prio, flag)
  {
    if s.waiters != [] {
      var rest := Rest(s.waiters);
      assert s.waiters == [s.waiters[0]] + rest;
      forall i, j | 0 <= i < j < |rest|
        ensures Before(Rank(prio, flag), s.stamp, rest[i], rest[j])
      {
        assert Before(Rank(prio, flag), s.stamp, s.waiters[i + 1], s.waiters[j + 1]);
      }
    }
  }

  // A release goes to the waiter that is before all others: the most urgent one, or among
  // equals and in FIFO order the one suspended first.
  lemma ReleasePicksFirst(s: State, prio: seq<nat>, flag: Flag, t: nat)
    requires Inv(s, prio, flag) && t in s.waiters && t !in First(s.waiters)
    ensures Before(Rank(prio, flag), s.stamp, s.waiters[0], t)
    ensures t in Release(s).0.waiters && s.waiters[0] !in Release(s).0.waiters
  {
    var k :| 0 <= k < |s.waiters| && s.waiters[k] == t;
    assert Before(Rank(prio, flag), s.stamp, s.waiters[0], s.waiters[k]);
    assert Rest(s.waiters)[k - 1] == t;
    OrderedNoDup(s.waiters, Rank(prio, flag), s.stamp);
  }

  // ---- what each step comes to ----

  lemma TakeOutcome(s: State, prio: seq<nat>, flag: Flag, t: nat, time: int)
    requires Inv(s, prio, flag) && t < |s.stamp| && t !in s.waiters
    ensures var (s', r) := Take(s, prio, flag, t, time);
      && (r == Ok <==> s.value > 0) && (r == TimedOut <==> s.value == 0 && time == 0)
      && (r == Suspended <==> s.value == 0 && time != 0)
      && s'.value == (if r == Ok then s.value - 1 else s.value)
      && (if r == Suspended then t in s'.waiters && Joined(s.waiters, s.timed, prio, flag, t, time, s'.waiters, s'.timed)
          else s'.waiters == s.waiters && s'.timed == s.timed)
  {
    SuspendJoins(s.waiters, s.timed, prio, flag, t, time);
  }

  lemma ReleaseOutcome(s: State, prio: seq<nat>, flag: Flag)
    requires Inv(s, prio, flag)
    ensures var (s', r) := Release(s);
      && FirstResumed(s.waiters, s.timed, s'.waiters, s'.timed)
      && (r == Ok <==> s.waiters != [] || s.value < 0xFFFF) && (r == Full <==> s.waiters == [] && s.value == 0xFFFF)
      && s'.value == if s.waiters == [] && r == Ok then s.value + 1 else s.value
  {
    assert s.waiters != [] ==> s.waiters == [s.waiters[0]] + s.waiters[1..];
  }

  lemma TimeoutOutcome(s: State, prio: seq<nat>, flag: Flag, t: nat)
    requires Inv(s, prio, flag) && t in s.timed
    ensures var s' := Timeout(s, t);
      && LeftAlone(s.waiters, t, s'.waiters) && t !in s'.waiters && s'.value == s.value
      && forall x :: x in s'.timed <==> x in s.timed && x != t
  {
    OrderedNoDup(s.waiters, Rank(prio, flag), s.stamp);
    WithoutLeaves(s.waiters, t);
  }

  lemma TimeoutKeeps(s: State, prio: seq<nat>, flag: Flag, t: nat)
    requires Inv(s, prio, flag) && t in s.timed
    ensures Inv(Timeout(s, t), prio, flag)
  {
    var w := Without(s.waiters, t);
    WithoutOrdered(s.waiters, Rank(prio, flag), s.stamp, t);
    OrderedNoDup(s.waiters, Rank(prio, flag), s.stamp);
    WithoutMembers(s.waiters, t);
    forall i | 0 <= i < |w|
      ensures s.stamp[w[i]] < s.clock
    {
      assert w[i] in s.waiters;
    }
  }

  // ---- runs ----

  datatype Event = DoTake(t: nat, time: int) | DoRelease | DoTimeout(t: nat) | DoReset(value: nat)

  ghost predicate Enabled(s: State, e: Event) {
    match e
    case DoTake(t, _) => t < |s.stamp| && t !in s.waiters
    case DoTimeout(t) => t in s.timed
    case _ => true
  }

  ghost function Next(s: State, prio: seq<nat>, flag: Flag, e: Event): State
    requires Enabled(s, e)
  {
    match e
    case DoTake(t, time) => Take(s, prio, flag, t, time).0
    case DoRelease => Release(s).0
    case DoTimeout(t) => Timeout(s, t)
    case DoReset(value) => Reset(s, value)
  }

  lemma StepKeeps(s: State, prio: seq<nat>, flag: Flag, e: Event)
    requires Inv(s, prio, flag) && Enabled(s, e)
    ensures Inv(Next(s, prio, flag, e), prio, flag)
  {
    match e
    case DoTake(t, time) => TakeKeeps(s, prio, flag, t, time);
    case DoRelease => ReleaseKeeps(s, prio, flag);
    case DoTimeout(t) => TimeoutKeeps(s, prio, flag, t);
    case DoReset(value) =>
  }

  // The takes a step grants: one that finds the value positive, or the one of the waiter that
  // a release resumes.
  ghost function Grants(s: State, e: Event): nat {
    match e
    case DoTake(_, _) => if s.value > 0 then 1 else 0
    case DoRelease => if s.waiters != [] then 1 else 0
    case _ => 0
  }

  ghost function Successes(s: State, e: Event): nat {
    if e == DoRelease && Release(s).1 == Ok then 1 else 0
  }

  ghost predicate StepAt(prio: seq<nat>, flag: Flag, trace: seq<State>, events: seq<Event>, k: nat) {
    && k < |events| && k + 1 < |trace|
    && Enabled(trace[k], events[k]) && trace[k + 1] == Next(trace[k], prio, flag, events[k])
  }

  // A run from the state rt_sem_init leaves behind.
  ghost predicate IsRun(prio: seq<nat>, flag: Flag, trace: seq<State>, events: seq<Event>) {
    && |trace| == |events| + 1
    && trace[0].value <= VALUE_MAX && trace[0] == State(trace[0].value, [], {}, seq(|prio|, _ => 0), 0)
    && forall k: nat :: k < |events| ==> StepAt(prio, flag, trace, events, k)
  }

  // The value the last reset before event k, or else rt_sem_init, has set.
  ghost function Initial(trace: seq<State>, events: seq<Event>, k: nat): nat
    requires k <= |events| < |trace|
  {
    if k == 0 then trace[0].value
    else if events[k - 1].DoReset? then events[k - 1].value % 0x1_0000
    else Initial(trace, events, k - 1)
  }

  ghost function Granted(trace: seq<State>, events: seq<Event>, k: nat): nat
    requires k <= |events| < |trace|
  {
    if k == 0 || events[k - 1].DoReset? then 0
    else Granted(trace, events, k - 1) + Grants(trace[k - 1], events[k - 1])
  }

  ghost function Released(trace: seq<State>, events: seq<Event>, k: nat): nat
    requires k <= |events| < |trace|
  {
    if k == 0 || events[k - 1].DoReset? then 0
    else Released(trace, events, k - 1) + Successes(trace[k - 1], events[k - 1])
  }

  // In every reachable state nobody waits while the value is positive, and since the last reset
  // initial value plus successful releases equals value plus granted takes.
  lemma {:induction false} RunConserves(prio: seq<nat>, flag: Flag, trace: seq<State>, events: seq<Event>, k: nat)
    requires IsRun(prio, flag, trace, events) && k <= |events|
    ensures Inv(trace[k], prio, flag)
    ensures Initial(trace, events, k) + Released(trace, events, k) == trace[k].value + Granted(trace, events, k)
  {
    if k > 0 {
      RunConserves(prio, flag, trace, events, k - 1);
      assert StepAt(prio, flag, trace, events, k - 1);
      StepKeeps(trace[k - 1], prio, flag, events[k - 1]);
    }
  }

  // The time thread t gave when it last took, before event k.
  ghost function LastTime(events: seq<Event>, t: nat, k: nat): int
    requires k <= |events|
  {
    if k == 0 then 0
    else if events[k - 1].DoTake? && events[k - 1].t == t then events[k - 1].time
    else LastTime(events, t, k - 1)
  }

  // After any run a waiter can time out exactly if it did not ask to wait forever, and nobody
  // waits after a reset.
  lemma {:induction false} RunTimers(prio: seq<nat>, flag: Flag, trace: seq<State>, events: seq<Event>, k: nat, x: nat)
    requires IsRun(prio, flag, trace, events) && k <= |events| && x in trace[k].waiters
    ensures Enabled(trace[k], DoTimeout(x)) <==> LastTime(events, x, k) > 0
    ensures k > 0 ==> !events[k - 1].DoReset?
  {
    if k > 0 {
      RunConserves(prio, flag, trace, events, k - 1);
      assert StepAt(prio, flag, trace, events, k - 1);
      StillInLine(trace[k - 1], prio, flag, events[k - 1], x);
      if !(events[k - 1].DoTake? && events[k - 1].t == x) {
        RunTimers(prio, flag, trace, events, k - 1, x);
      }
    }
  }

  // Who waits after a step waited before with the same timer, or has just been suspended.
  lemma StillInLine(s: State, prio: seq<nat>, flag: Flag, e: Event, x: nat)
    requires Inv(s, prio, flag) && Enabled(s, e) && x in Next(s, prio, flag, e).waiters
    ensures !e.DoReset?
    ensures if e.DoTake? && e.t == x then x in Next(s, prio, flag, e).timed <==> e.time > 0
            else x in s.waiters && (x in Next(s, prio, flag, e).timed <==> x in s.timed)
  {
    match e
    case DoTake(t, time) => SuspendJoins(s.waiters, s.timed, prio, flag, t, time);
    case DoRelease => OrderedNoDup(s.waiters, Rank(prio, flag), s.stamp);
    case DoTimeout(t) =>
      OrderedNoDup(s.waiters, Rank(prio, flag), s.stamp);
      WithoutMembers(s.waiters, t);
    case DoReset(_) =>
  }

  // ---- the kernel code ----

  class Semaphore {
    var value: nat
    var waiters: seq<nat>  // parent.suspend_thread
    var timed: set<nat>    // threads whose thread_timer is active
    ghost var stamp: seq<nat>
    ghost var clock: nat
    const flag: Flag
    const prio: seq<nat>   // current_priority of every thread

    ghost function View(): State
      reads this
    {
      State(value, waiters, timed, stamp, clock)
    }

    ghost predicate Valid()
      reads this
    {
      Inv(View(), prio, flag)
    }

    // rt_sem_init
    constructor (value: nat, flag: Flag, prio: seq<nat>)
      requires value < 0x1_0000
      ensures Valid() && View() == State(value, [], {}, seq(|prio|, _ => 0), 0)
      ensures this.flag == flag && this.prio == prio
    {
      this.value, waiters, timed := value, [], {};
      stamp, clock := seq(|prio|, _ => 0), 0;
      this.flag, this.prio := flag, prio;
    }

    // rt_sem_take up to the switch to another thread
    method SemTake(t: nat, time: int) returns (r: Err)
      requires Valid() && t < |stamp| && t !in waiters
      modifies this
      ensures Valid() && (View(), r) == Take(old(View()), prio, flag, t, time)
    {
      TakeKeeps(View(), prio, flag, t, time);
      if value > 0 {
        value := value - 1;
        return Ok;
      }
      if time == 0 {
        return TimedOut;
      }
      waiters := Suspend(waiters, prio, t, flag);
      timed := SetTimer(timed, t, time);
      stamp, clock := stamp[t := clock], clock + 1;
      return Suspended;
    }

    // rt_sem_release
    method SemRelease() returns (r: Err)
      requires Valid()
      modifies this
      ensures Valid() && (View(), r) == Release(old(View()))
    {
      ReleaseKeeps(View(), prio, flag);
      if waiters != [] {
        timed := timed - {waiters[0]};
        waiters := waiters[1..];
      } else if value < VALUE_MAX {
        value := value + 1;
      } else {
        return Full;
      }
      return Ok;
    }

    // rt_thread_timeout for a suspended thread
    method ThreadTimeout(t: nat)
      requires Valid() && t in timed
      modifies this
      ensures Valid() && View() == Timeout(old(View()), t)
    {
      TimeoutKeeps(View(), prio, flag, t);
      waiters := Without(waiters, t);
      timed := timed - {t};
    }

    // rt_sem_control with RT_IPC_CMD_RESET
    method SemReset(v: nat)
      requires Valid()
      modifies this
      ensures Valid() && View() == Reset(old(View()), v)
    {
      while waiters != []
        invariant forall x :: x in timed ==> x in waiters
        invariant stamp == old(stamp) && clock == old(clock)
        decreases |waiters|
      {
        timed := timed - {waiters[0]};
        waiters := waiters[1..];
      }
      value := v % 0x1_0000;
    }
  }
}
