// One mutex with RT_IPC_FLAG_PRIO and its priority inheritance, rt-thread/src/ipc.c and the
// change-priority command of rt-thread/src/thread.c. Each region with interrupts disabled is
// one step; any thread that is not suspended may take the next step, and a suspended thread
// whose timer runs may time out at any moment.
module Mutexes {
  import opened Lists
  import opened Waiters

  const HOLD_MAX := 0xFF
  const VALUE_MAX := 0xFFFF
  const NO_PRIORITY := 0xFF

  datatype Owner = Nobody | Held(thread: nat)

  datatype Err = Ok | Error | TimedOut | Full | Blocked

  // Everything the mutex and its users consist of. `current` holds current_priority and
  // `error` the error field of every thread; `timed` are the threads whose timer runs;
  // `stamp` numbers the threads by their last suspension; `boosters` are the threads that
  // were suspended on the mutex since the present owner got it.
  datatype State = State(value: nat, owner: Owner, hold: nat, original: nat, waiters: seq<nat>,
                         current: seq<nat>, error: seq<Err>, timed: set<nat>,
                         stamp: seq<nat>, clock: nat, boosters: set<nat>)

  // ---- the steps ----

  // The owner is lent t's priority if that is better than its own.
  ghost function Boosted(current: seq<nat>, owner: Owner, t: nat): seq<nat>
    requires t < |current| && (owner.Held? ==> owner.thread < |current|)
  {
    if owner.Held? && current[t] < current[owner.thread] then current[owner.thread := current[t]] else current
  }

  ghost function Suspended(s: State, t: nat, time: int): State
    requires t < |s.current| == |s.stamp| && (s.owner.Held? ==> s.owner.thread < |s.current|)
  {
    var boosted := Boosted(s.current, s.owner, t);
    s.(current := boosted,
       stamp := s.stamp[t := s.clock], clock := s.clock + 1,
       waiters := Suspend(s.waiters, boosted, t, Prio),
       timed := SetTimer(s.timed, t, time),
       boosters := s.boosters + {t})
  }

  ghost function Take(s: State, t: nat, time: int): (State, Err)
    requires t < |s.current| == |s.error| == |s.stamp| && (s.owner.Held? ==> s.owner.thread < |s.current|)
  {
    var s0 := s.(error := s.error[t := Ok]);
    if s.owner == Held(t) then
      if s.hold < HOLD_MAX then (s0.(hold := s.hold + 1), Ok) else (s0, Full)
    else if s.value > 0 then
      (s0.(value := s.value - 1, owner := Held(t), original := s.current[t], hold := s.hold + 1, boosters := {}), Ok)
    else if time == 0 then
      (s.(error := s.error[t := TimedOut]), TimedOut)
    else (Suspended(s0, t, time), Blocked)
  }

  ghost function Release(s: State, t: nat): (State, Err)
    requires t < |s.current| == |s.error| && (s.waiters != [] ==> s.waiters[0] < |s.current|)
  {
    if s.owner != Held(t) then (s.(error := s.error[t := Error]), Error)
    else if s.hold != 1 then (s.(hold := if s.hold > 0 then s.hold - 1 else 0), Ok)
    else
      var restored := s.current[t := s.original];
      if s.waiters == [] then
        (s.(hold := 0, current := restored, value := s.value + 1, owner := Nobody, original := NO_PRIORITY,
            boosters := {}), Ok)
      else
        var w := s.waiters[0];
        (s.(hold := 1, current := restored, owner := Held(w), original := restored[w], waiters := s.waiters[1..],
            timed := s.timed - {w}, boosters := {}), Ok)
  }

  // rt_thread_timeout of a suspended thread
  ghost function Timeout(s: State, w: nat): State
    requires w < |s.error|
  {
    s.(error := s.error[w := TimedOut], waiters := Without(s.waiters, w), timed := s.timed - {w})
  }

  // ---- the invariant ----

  ghost predicate IsLeast(current: seq<nat>, base: seq<nat>, o: nat, boosters: set<nat>)
    requires o < |current| == |base|
  {
    && current[o] <= base[o]
    && (forall b :: b in boosters ==> b < |base| && current[o] <= base[b])
    && (current[o] == base[o] || exists b :: b in boosters && b < |base| && current[o] == base[b])
  }

  ghost predicate OwnerOk(s: State, base: seq<nat>, o: nat)
    requires o < |s.current| == |base|
  {
    && s.value == 0 && 1 <= s.hold <= HOLD_MAX && o !in s.waiters && s.original == base[o]
    && (forall x :: x in s.waiters ==> x < |base| && s.current[o] <= base[x])
    // the owner runs at the best of its own base priority and those of all who had to wait
    && IsLeast(s.current, base, o, s.boosters)
  }

  ghost predicate Inv(s: State, base: seq<nat>) {
    && |s.current| == |base| == |s.error| == |s.stamp|
    && Ordered(s.waiters, base, s.stamp)
    && (forall x :: 0 <= x < |s.stamp| ==> s.stamp[x] < s.clock)
    && (forall x :: x in s.waiters ==> s.error[x] == Ok)
    && (forall x :: x in s.timed ==> x in s.waiters)
    && (forall x :: 0 <= x < |base| && s.owner != Held(x) ==> s.current[x] == base[x])
    && match s.owner
       case Nobody => s.value == 1 && s.hold == 0 && s.waiters == [] && s.original == NO_PRIORITY && s.boosters == {}
       case Held(o) => o < |base| && OwnerOk(s, base, o)
  }

  ghost function Init(base: seq<nat>): State {
    State(1, Nobody, 0, NO_PRIORITY, [], base, seq(|base|, _ => Ok), {}, seq(|base|, _ => 0), 1, {})
  }

  lemma TakeKeepsInv(s: State, base: seq<nat>, t: nat, time: int)
    requires Inv(s, base) && t < |base| && t !in s.waiters
    ensures Inv(Take(s, t, time).0, base)
  {
    if s.owner != Held(t) && s.value == 0 && time != 0 {
      BlockKeepsInv(s, base, t, time);
    }
  }

  lemma BlockKeepsInv(s: State, base: seq<nat>, t: nat, time: int)
    requires Inv(s, base) && t < |base| && t !in s.waiters && s.owner.Held? && s.owner != Held(t) && time != 0
    ensures Inv(Take(s, t, time).0, base)
  {
    var s', o := Take(s, t, time).0, s.owner.thread;
    PlaceAgrees(s.waiters, s'.current, base, t, o);
    StampsAgree(s.waiters, base, s.stamp, s'.stamp, t);
    SuspendOrdered(s.waiters, base, s'.stamp, t);
    SuspendMembers(s.waiters, base, t, Prio);
  }

  // Boosting the owner, who is not waiting, does not change where a thread is linked.
  lemma {:induction false} PlaceAgrees(ws: seq<nat>, current: seq<nat>, base: seq<nat>, t: nat, o: nat)
    requires |current| == |base| && t < |base| && t != o && o !in ws
    requires forall x :: 0 <= x < |base| && x != o ==> current[x] == base[x]
    ensures Place(ws, current, t, Prio) == Place(ws, base, t, Prio)
  {
    if ws != [] {
      assert ws[0] in ws;
      PlaceAgrees(ws[1..], current, base, t, o);
    }
  }

  lemma StampsAgree(ws: seq<nat>, prio: seq<nat>, stamp: seq<nat>, stamp': seq<nat>, t: nat)
    requires Ordered(ws, prio, stamp) && t !in ws && |stamp'| == |stamp|
    requires forall x :: 0 <= x < |stamp| && x != t ==> stamp'[x] == stamp[x]
    ensures Ordered(ws, prio, stamp')
  {
    forall i, j | 0 <= i < j < |ws|
      ensures Before(prio, stamp', ws[i], ws[j])
    {
      assert Before(prio, stamp, ws[i], ws[j]);
    }
  }

  lemma ReleaseKeepsInv(s: State, base: seq<nat>, t: nat)
    requires Inv(s, base) && t < |base| && t !in s.waiters
    ensures Inv(Release(s, t).0, base)
  {
    OrderedNoDup(s.waiters, base, s.stamp);
    var s' := Release(s, t).0;
    if s.owner == Held(t) && s.hold == 1 && s.waiters != [] {
      assert Ordered(s.waiters[1..], base, s.stamp);
      assert forall x :: x in s.waiters[1..] ==> x in s.waiters;
    }
  }

  lemma TimeoutKeepsInv(s: State, base: seq<nat>, w: nat)
    requires Inv(s, base) && w in s.waiters
    ensures Inv(Timeout(s, w), base)
  {
    OrderedNoDup(s.waiters, base, s.stamp);
    WithoutMembers(s.waiters, w);
    WithoutOrdered(s.waiters, base, s.stamp, w);
  }

  // ---- runs ----

  datatype Event = DoTake(t: nat, time: int) | DoRelease(t: nat) | DoTimeout(t: nat)

  ghost predicate Enabled(s: State, base: seq<nat>, e: Event) {
    match e
    case DoTake(t, _) => t < |base| && t !in s.waiters
    case DoRelease(t) => t < |base| && t !in s.waiters
    case DoTimeout(t) => t in s.timed
  }

  ghost function Next(s: State, base: seq<nat>, e: Event): State
    requires Inv(s, base) && Enabled(s, base, e)
  {
    match e
    case DoTake(t, time) => Take(s, t, time).0
    case DoRelease(t) => (assert s.waiters != [] ==> s.waiters[0] in s.waiters; Release(s, t).0)
    case DoTimeout(t) => Timeout(s, t)
  }

  lemma StepKeepsInv(s: State, base: seq<nat>, e: Event)
    requires Inv(s, base) && Enabled(s, base, e)
    ensures Inv(Next(s, base, e), base)
  {
    match e {
      case DoTake(t, time) => TakeKeepsInv(s, base, t, time);
      case DoRelease(t) => ReleaseKeepsInv(s, base, t);
      case DoTimeout(t) => TimeoutKeepsInv(s, base, t);
    }
  }

  // trace[k] is the state before the k-th event.
  ghost predicate IsRun(base: seq<nat>, trace: seq<State>, events: seq<Event>) {
    && |trace| == |events| + 1
    && trace[0] == Init(base)
    && forall k :: 0 <= k < |events| ==> IsStep(base, trace[k], events[k], trace[k + 1])
  }

  ghost predicate IsStep(base: seq<nat>, s: State, e: Event, s': State) {
    Inv(s, base) ==> Enabled(s, base, e) && s' == Next(s, base, e)
  }

  // Every state of every interleaving of takes, nested takes, releases and timeouts.
  lemma {:induction false} RunKeepsInv(base: seq<nat>, trace: seq<State>, events: seq<Event>, k: nat)
    requires IsRun(base, trace, events) && k < |trace|
    ensures Inv(trace[k], base)
  {
    if k > 0 {
      RunKeepsInv(base, trace, events, k - 1);
      assert IsStep(base, trace[k - 1], events[k - 1], trace[k]);
      StepKeepsInv(trace[k - 1], base, events[k - 1]);
    }
  }

  // ---- what the invariant means ----

  // The owner never runs at a worse priority than a thread waiting for it.
  lemma NoInversion(s: State, base: seq<nat>, w: nat)
    requires Inv(s, base) && w in s.waiters
    ensures s.owner.Held? && s.owner.thread < |s.current| && w < |s.current|
    ensures s.current[s.owner.thread] <= s.current[w]
  {
    assert s.owner != Held(w);
  }

  // A final release gives the mutex to the most urgent waiter, the longest waiting among
  // equals, which starts at its own priority; the releasing thread gets its priority back.
  lemma HandOff(s: State, base: seq<nat>, t: nat)
    requires Inv(s, base) && s.owner == Held(t) && s.hold == 1
    ensures s.waiters != [] ==> s.waiters[0] in s.waiters && s.waiters[0] < |base|
    ensures var s' := Release(s, t).0;
      && s'.current[t] == base[t]
      && (s.waiters == [] ==> s'.owner == Nobody && s'.value == 1)
      && (s.waiters != [] ==>
            && s'.owner == Held(s.waiters[0]) && s'.hold == 1 && s'.current == base
            && s'.error[s.waiters[0]] == Ok
            && forall x :: x in s.waiters && x != s.waiters[0] ==> Before(base, s.stamp, s.waiters[0], x))
  {
    if s.waiters != [] {
      assert s.waiters[0] in s.waiters;
      forall x | x in s.waiters && x != s.waiters[0]
        ensures Before(base, s.stamp, s.waiters[0], x)
      {
        var k :| 0 <= k < |s.waiters| && s.waiters[k] == x;
      }
      assert Release(s, t).0.current == base;
    }
  }

  // What a take comes to. The owner goes one level deeper, up to 255 levels; a free mutex is taken;
  // and whoever finds it held by another gives up at once or waits in line.
  lemma TakeOutcome(s: State, base: seq<nat>, t: nat, time: int)
    requires Inv(s, base) && t < |base| && t !in s.waiters
    ensures var (s', r) := Take(s, t, time);
      && (r == Ok <==> s.owner == Nobody || (s.owner == Held(t) && s.hold < 255))
      && (r == Full <==> s.owner == Held(t) && s.hold == 255)
      && (r == TimedOut <==> s.owner.Held? && s.owner != Held(t) && time == 0)
      && (r == Blocked <==> s.owner.Held? && s.owner != Held(t) && time != 0)
      && s'.owner == (if r == Ok then Held(t) else s.owner)
      && s'.hold == (if r == Ok then s.hold + 1 else s.hold)
      && s'.error == s.error[t := if r == TimedOut then TimedOut else Ok]
      && (if r == Blocked then t in s'.waiters && Joined(s.waiters, s.timed, base, Prio, t, time, s'.waiters, s'.timed)
          else s'.waiters == s.waiters && s'.timed == s.timed && s'.current == s.current)
  {
    if s.owner.Held? && s.owner != Held(t) && time != 0 {
      PlaceAgrees(s.waiters, Boosted(s.current, s.owner, t), base, t, s.owner.thread);
      SuspendJoins(s.waiters, s.timed, base, Prio, t, time);
    }
  }

  // Only the owner releases; before its last level nothing but the level changes.
  lemma ReleaseOutcome(s: State, base: seq<nat>, t: nat)
    requires Inv(s, base) && t < |base| && t !in s.waiters
    ensures s.waiters != [] ==> s.waiters[0] in s.waiters && s.waiters[0] < |base|
    ensures var (s', r) := Release(s, t);
      && (r == Ok <==> s.owner == Held(t)) && (r == Error <==> s.owner != Held(t))
      && (r == Error ==> s' == s.(error := s'.error) && s'.error == s.error[t := Error])
      && (r == Ok && s.hold > 1 ==> s'.hold == s.hold - 1 && s' == s.(hold := s'.hold))
      && (r == Ok && s.hold == 1 ==> FirstResumed(s.waiters, s.timed, s'.waiters, s'.timed) && s'.error == s.error)
  {
    assert s.waiters != [] ==> s.waiters[0] in s.waiters && s.waiters == [s.waiters[0]] + s.waiters[1..];
  }

  // Who times out finds so in its error field, and leaves the line alone.
  lemma TimeoutOutcome(s: State, base: seq<nat>, w: nat)
    requires Inv(s, base) && w in s.timed
    ensures w < |s.error|
    ensures var s' := Timeout(s, w);
      && LeftAlone(s.waiters, w, s'.waiters) && w !in s'.waiters && s'.error == s.error[w := TimedOut]
      && (forall x :: x in s'.timed <==> x in s.timed && x != w)
      && s' == s.(waiters := s'.waiters, timed := s'.timed, error := s'.error)
  {
    OrderedNoDup(s.waiters, base, s.stamp);
    WithoutLeaves(s.waiters, w);
  }

  // The time thread t gave when it last took, before event k; and whether it has timed out since.
  ghost function LastTime(events: seq<Event>, t: nat, k: nat): int
    requires k <= |events|
  {
    if k == 0 then 0
    else if events[k - 1].DoTake? && events[k - 1].t == t then events[k - 1].time
    else LastTime(events, t, k - 1)
  }

  ghost predicate GaveUp(events: seq<Event>, t: nat, k: nat)
    requires k <= |events|
  {
    k > 0 && (events[k - 1] == DoTimeout(t) || (events[k - 1].t != t && GaveUp(events, t, k - 1)))
  }

  // After any run a waiter can time out exactly if it did not ask to wait forever.
  lemma {:induction false} RunTimers(base: seq<nat>, trace: seq<State>, events: seq<Event>, k: nat, x: nat)
    requires IsRun(base, trace, events) && k <= |events| && x in trace[k].waiters
    ensures Enabled(trace[k], base, DoTimeout(x)) <==> LastTime(events, x, k) > 0
  {
    if k > 0 {
      RunKeepsInv(base, trace, events, k - 1);
      assert IsStep(base, trace[k - 1], events[k - 1], trace[k]);
      StillInLine(trace[k - 1], base, events[k - 1], x);
      if !(events[k - 1].DoTake? && events[k - 1].t == x) {
        RunTimers(base, trace, events, k - 1, x);
      }
    }
  }

  // Who waits after a step waited before with the same timer, or has just been suspended.
  lemma StillInLine(s: State, base: seq<nat>, e: Event, x: nat)
    requires Inv(s, base) && Enabled(s, base, e) && x in Next(s, base, e).waiters
    ensures if e.DoTake? && e.t == x then x in Next(s, base, e).timed <==> e.time > 0
            else x in s.waiters && (x in Next(s, base, e).timed <==> x in s.timed)
  {
    OrderedNoDup(s.waiters, base, s.stamp);
    match e
    case DoTake(t, time) => TakeOutcome(s, base, t, time);
    case DoRelease(t) => ReleaseOutcome(s, base, t);
    case DoTimeout(t) => WithoutMembers(s.waiters, t);
  }

  // A thread whose wait ended by a timeout finds TimedOut until it calls again, whatever others
  // do.
  lemma {:induction false} RunReportsTimeout(base: seq<nat>, trace: seq<State>, events: seq<Event>, k: nat, x: nat)
    requires IsRun(base, trace, events) && k <= |events| && GaveUp(events, x, k)
    ensures x < |trace[k].error| && trace[k].error[x] == TimedOut && x !in trace[k].waiters
  {
    var e, s := events[k - 1], trace[k - 1];
    RunKeepsInv(base, trace, events, k - 1);
    assert IsStep(base, s, e, trace[k]);
    if e == DoTimeout(x) {
      TimeoutOutcome(s, base, x);
    } else {
      RunReportsTimeout(base, trace, events, k - 1, x);
      OthersKeepError(s, base, e, x);
    }
  }

  lemma OthersKeepError(s: State, base: seq<nat>, e: Event, x: nat)
    requires Inv(s, base) && Enabled(s, base, e) && e.t != x && x < |base| && x !in s.waiters
    ensures x < |Next(s, base, e).error| && Next(s, base, e).error[x] == s.error[x] && x !in Next(s, base, e).waiters
  {
    match e
    case DoTake(t, time) => TakeOutcome(s, base, t, time); SuspendMembers(s.waiters, Boosted(s.current, s.owner, t), t, Prio);
    case DoRelease(t) => ReleaseOutcome(s, base, t);
    case DoTimeout(t) => TimeoutOutcome(s, base, t); WithoutOrdered(s.waiters, base, s.stamp, t);
  }

  // The levels of the mutex held by thread x.
  ghost function Levels(s: State, x: nat): nat {
    if s.owner == Held(x) then s.hold else 0
  }

  ghost function Gained(s: State, base: seq<nat>, e: Event, x: nat): int
    requires Inv(s, base) && Enabled(s, base, e)
  {
    match e
    case DoTake(t, time) => if t == x && Take(s, t, time).1 == Ok then 1 else 0
    case DoRelease(t) =>
      (if s.owner == Held(t) && s.hold == 1 && s.waiters != [] && s.waiters[0] == x then 1 else 0)
      - (if t == x && s.owner == Held(t) then 1 else 0)
    case DoTimeout(_) => 0
  }

  ghost function TotalGained(base: seq<nat>, trace: seq<State>, events: seq<Event>, x: nat, k: nat): int
    requires k <= |events| && |trace| == |events| + 1
  {
    if k == 0 then 0
    else TotalGained(base, trace, events, x, k - 1)
         + (if Inv(trace[k - 1], base) && Enabled(trace[k - 1], base, events[k - 1])
            then Gained(trace[k - 1], base, events[k - 1], x) else 0)
  }

  // Over any run a thread holds exactly as many levels as it was granted (by its own takes or
  // by a hand-off) and has not released.
  lemma {:induction false} LevelsBalance(base: seq<nat>, trace: seq<State>, events: seq<Event>, x: nat, k: nat)
    requires IsRun(base, trace, events) && k <= |events|
    ensures Levels(trace[k], x) == TotalGained(base, trace, events, x, k)
  {
    if k > 0 {
      LevelsBalance(base, trace, events, x, k - 1);
      RunKeepsInv(base, trace, events, k - 1);
      assert IsStep(base, trace[k - 1], events[k - 1], trace[k]);
      LevelsStep(trace[k - 1], base, events[k - 1], x);
    }
  }

  lemma LevelsStep(s: State, base: seq<nat>, e: Event, x: nat)
    requires Inv(s, base) && Enabled(s, base, e)
    ensures Levels(Next(s, base, e), x) == Levels(s, x) + Gained(s, base, e, x)
  {
    assert s.waiters != [] ==> s.waiters[0] in s.waiters;
  }

  // A boost is not taken back when the waiter that caused it times out: thread 0 (base 5)
  // owns the mutex, thread 1 (base 1) waits and gives up; the owner stays at 1 with no waiter
  // left; see BoostExactlyWhen.
  lemma BoostOutlivesTimeout()
    ensures var base := [5, 1];
      var s1 := Take(Init(base), 0, 0).0;
      var s2 := Take(s1, 1, 10).0;
      var s3 := Timeout(s2, 1);
      s3.owner == Held(0) && s3.waiters == [] && s3.current[0] == 1
  {
  }

  // The owner runs at the best of its own priority and those of the threads waiting now.
  ghost predicate BoostExact(s: State, base: seq<nat>)
    requires Inv(s, base) && s.owner.Held?
  {
    IsLeast(s.current, base, s.owner.thread, Members(s.waiters))
  }

  // Somebody who needs the mutex, or its owner, is at least as urgent as b.
  ghost predicate Covered(s: State, base: seq<nat>, b: nat)
    requires Inv(s, base) && s.owner.Held? && b < |base|
  {
    base[s.owner.thread] <= base[b] || exists w :: w in s.waiters && w < |base| && base[w] <= base[b]
  }

  // The boost is what the threads waiting now justify exactly when everyone who waited during
  // the ownership is matched by the owner or by somebody still waiting.
  lemma BoostExactlyWhen(s: State, base: seq<nat>)
    requires Inv(s, base) && s.owner.Held?
    ensures BoostExact(s, base) <==> forall b :: b in s.boosters ==> b < |base| && Covered(s, base, b)
  {
    var o := s.owner.thread;
    if BoostExact(s, base) && s.current[o] != base[o] {
      var w :| w in s.waiters && w < |base| && s.current[o] == base[w];
      forall b | b in s.boosters
        ensures Covered(s, base, b)
      {
        assert base[w] <= base[b];
      }
    }
    if (forall b :: b in s.boosters ==> b < |base| && Covered(s, base, b)) && s.current[o] != base[o] {
      var b :| b in s.boosters && b < |base| && s.current[o] == base[b];
      assert Covered(s, base, b);
      var w :| w in s.waiters && w < |base| && base[w] <= base[b];
      assert s.current[o] == base[w];
    }
  }

  // A timeout of t leaves an exact boost exact exactly when the owner or another waiter is at
  // least as urgent as t.
  lemma TimeoutExactlyWhen(s: State, base: seq<nat>, t: nat)
    requires Inv(s, base) && s.owner.Held? && t in s.waiters && BoostExact(s, base)
    ensures Inv(Timeout(s, t), base) && Timeout(s, t).owner == s.owner && t < |base|
    ensures BoostExact(Timeout(s, t), base) <==>
              || base[s.owner.thread] <= base[t]
              || exists w :: w in s.waiters && w != t && w < |base| && base[w] <= base[t]
  {
    TimeoutKeepsInv(s, base, t);
    var s' := Timeout(s, t);
    OrderedNoDup(s.waiters, base, s.stamp);
    WithoutMembers(s.waiters, t);
    BoostExactlyWhen(s, base);
    BoostExactlyWhen(s', base);
    if exists w :: w in s.waiters && w != t && w < |base| && base[w] <= base[t] {
      var w :| w in s.waiters && w != t && w < |base| && base[w] <= base[t];
      assert w in s'.waiters;
    }
  }

  // ---- the kernel code ----

  class Mutex {
    var value: nat
    var owner: Owner
    var hold: nat
    var originalPriority: nat
    var waiters: seq<nat>          // parent.suspend_thread
    var timed: set<nat>            // threads whose thread_timer is active
    const current: array<nat>      // current_priority of every thread
    const error: array<Err>        // error of every thread
    ghost var stamp: seq<nat>
    ghost var clock: nat
    ghost var boosters: set<nat>
    ghost const base: seq<nat>

    ghost function View(): State
      reads this, current, error
    {
      State(value, owner, hold, originalPriority, waiters, current[..], error[..], timed, stamp, clock, boosters)
    }

    // rt_mutex_init, with the threads' own priorities
    constructor (priorities: seq<nat>)
      ensures View() == Init(priorities) && base == priorities && Inv(View(), base)
      ensures fresh(current) && fresh(error)
    {
      value, owner, hold, originalPriority, waiters, timed := 1, Nobody, 0, NO_PRIORITY, [], {};
      current := new nat[|priorities|](i requires 0 <= i < |priorities| => priorities[i]);
      error := new Err[|priorities|](_ => Ok);
      stamp, clock, boosters := seq(|priorities|, _ => 0), 1, {};
      base := priorities;
      new;
      assert current[..] == priorities && error[..] == seq(|priorities|, _ => Ok);
    }

    // rt_ipc_list_suspend with RT_IPC_FLAG_PRIO
    method SuspendPrio(t: nat)
      requires t < current.Length && forall i :: 0 <= i < |waiters| ==> waiters[i] < current.Length
      modifies `waiters
      ensures waiters == Suspend(old(waiters), current[..], t, Prio)
    {
      var n := 0;
      while n < |waiters|
        invariant n <= |waiters|
        invariant Place(waiters, current[..], t, Prio) == n + Place(waiters[n..], current[..], t, Prio)
      {
        if current[t] < current[waiters[n]] {
          break;
        }
        assert waiters[n..][1..] == waiters[n + 1..];
        n := n + 1;
      }
      waiters := waiters[..n] + [t] + waiters[n..];
    }

    // rt_mutex_take by thread t, up to where it returns or is suspended
    method MutexTake(t: nat, time: int) returns (r: Err)
      requires Inv(View(), base) && t < current.Length && t !in waiters
      modifies this, current, error
      ensures (View(), r) == Take(old(View()), t, time)
      ensures Inv(View(), base)
    {
      hide Ordered, IsLeast;
      TakeKeepsInv(View(), base, t, time);
      error[t] := Ok;
      if owner == Held(t) {
        if hold < HOLD_MAX {
          hold := hold + 1;
        } else {
          return Full;
        }
      } else if value > 0 {
        value := value - 1;
        owner := Held(t);
        originalPriority := current[t];
        if hold < HOLD_MAX {
          hold := hold + 1;
        } else {
          assert false; // the overflow return of lines 730-734
        }
        boosters := {};
      } else {
        if time == 0 {
          error[t] := TimedOut;
          assert error[..] == old(error[..])[t := TimedOut];
          return TimedOut;
        }
        BlockOn(t, time);
        return Blocked;
      }
      return Ok;
    }

    // The mutex is held by another thread: lend the owner t's priority and suspend t.
    method BlockOn(t: nat, time: int)
      requires Inv(View(), base) && t < current.Length && owner.Held? && owner != Held(t) && time != 0
      modifies current, `waiters, `stamp, `clock, `boosters, `timed
      ensures View() == Suspended(old(View()), t, time)
    {
      ghost var c0 := current[..];
      if current[t] < current[owner.thread] {
        current[owner.thread] := current[t];
      }
      assert current[..] == Boosted(c0, owner, t);
      assert forall i :: 0 <= i < |waiters| ==> waiters[i] < current.Length;
      SuspendPrio(t);
      stamp, clock := stamp[t := clock], clock + 1;
      boosters := boosters + {t};
      timed := SetTimer(timed, t, time);
    }

    // rt_mutex_release by thread t
    method MutexRelease(t: nat) returns (r: Err)
      requires Inv(View(), base) && t < current.Length && t !in waiters
      modifies this, current, error
      ensures Inv(View(), base)
      ensures old(waiters) == [] || old(waiters)[0] < current.Length
      ensures (View(), r) == Release(old(View()), t)
    {
      hide Ordered, IsLeast;
      assert waiters != [] ==> waiters[0] in waiters;
      ReleaseKeepsInv(View(), base, t);
      if owner != Held(t) {
        error[t] := Error;
        return Error;
      }
      hold := hold - 1;
      if hold == 0 {
        if originalPriority != current[t] {
          current[t] := originalPriority;
        }
        assert current[..] == old(current[..])[t := originalPriority];
        if waiters != [] {
          GrantNext();
        } else {
          if value < VALUE_MAX {
            value := value + 1;
          } else {
            assert false; // the overflow return of lines 913-917
          }
          owner := Nobody;
          originalPriority := NO_PRIORITY;
        }
        boosters := {};
      }
      return Ok;
    }

    // The first waiter becomes the owner and is resumed.
    method GrantNext()
      requires waiters != [] && waiters[0] < current.Length && hold == 0
      modifies `owner, `originalPriority, `hold, `waiters, `timed
      ensures owner == Held(old(waiters[0])) && originalPriority == current[old(waiters[0])] && hold == 1
      ensures waiters == old(waiters)[1..] && timed == old(timed) - {old(waiters[0])}
    {
      var w := waiters[0];
      owner := Held(w);
      originalPriority := current[w];
      if hold < HOLD_MAX {
        hold := hold + 1;
      } else {
        assert false; // the overflow return of lines 895-899
      }
      waiters := waiters[1..];
      timed := timed - {w};
    }

    // rt_thread_timeout for the suspended thread w
    method ThreadTimeout(w: nat)
      requires Inv(View(), base) && w in timed
      modifies this, error
      ensures w < error.Length && View() == Timeout(old(View()), w)
      ensures Inv(View(), base)
    {
      TimeoutKeepsInv(View(), base, w);
      error[w] := TimedOut;
      waiters := Without(waiters, w);
      timed := timed - {w};
    }
  }
}
