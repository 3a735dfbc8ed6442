// Priority inheritance on the real ready lists: what rt_mutex_take and rt_mutex_release of
// rt-thread/src/ipc.c do to the scheduler, and which thread runs afterwards.
module Inheritance {
  import S = Schedulers
  import M = Mutexes
  import W = Waiters
  import opened Lists

  // The mutex and the scheduler see the same threads: the priorities agree, and those waiting
  // are suspended.
  ghost predicate Agree(m: M.State, base: seq<nat>, s: S.State) {
    && M.Inv(m, base) && S.Inv(s) && m.current == s.prio
    && forall x :: x in m.waiters ==> x < |s.stat| && s.stat[x] == S.Suspended
  }

  // rt_mutex_take of a mutex held by o, by thread t, up to rt_schedule: the owner is lent t's
  // priority if that is better, and t is suspended.
  ghost function Block(s: S.State, o: nat, t: nat): S.State
    requires S.Shaped(s) && o < |s.stat| && t < |s.stat|
  {
    var s1 := if s.prio[t] < s.prio[o] then S.ChangePriority(s, o, s.prio[t]) else s;
    S.Suspend(s1, t).0
  }

  lemma BlockKeeps(s: S.State, o: nat, t: nat)
    requires S.Inv(s) && o < |s.stat| && t < |s.stat|
    ensures S.Inv(Block(s, o, t)) && |Block(s, o, t).table| == |s.table|
  {
    if s.prio[t] < s.prio[o] {
      S.ChangePriorityKeeps(s, o, s.prio[t]);
      S.SuspendKeeps(S.ChangePriority(s, o, s.prio[t]), t);
    } else {
      S.SuspendKeeps(s, t);
    }
  }

  // The current thread finds the mutex held by another one and waits.
  ghost predicate Blocks(m: M.State, base: seq<nat>, s: S.State, time: int) {
    && Agree(m, base, s) && m.owner.Held? && m.owner != M.Held(s.cur) && s.cur !in m.waiters && time != 0
    && s.stat[s.cur] == S.Running
  }

  // The two views agree again afterwards.
  lemma BlockAgrees(m: M.State, base: seq<nat>, s: S.State, time: int)
    requires Blocks(m, base, s, time)
    ensures Agree(M.Take(m, s.cur, time).0, base, Block(s, m.owner.thread, s.cur))
  {
    BlockKeeps(s, m.owner.thread, s.cur);
    M.TakeKeepsInv(m, base, s.cur, time);
    W.SuspendMembers(m.waiters, M.Boosted(m.current, m.owner, s.cur), s.cur, W.Prio);
  }

  lemma ReadyListed(s: S.State, t: nat)
    requires S.Inv(s) && t < |s.stat| && s.stat[t] == S.Ready
    ensures S.AnyReady(s)
  {
    assert S.QueueOk(s, s.prio[t]) && S.Queued(s, s.prio[t], t);
    assert t in s.table[s.prio[t]];
  }

  ghost predicate BlockedThenScheduled(s: S.State, o: nat, t: nat, s': S.State)
    requires S.Inv(s) && o < |s.stat| && t < |s.stat|
  {
    BlockKeeps(s, o, t);
    S.Scheduled(Block(s, o, t), s')
  }

  // After a blocking take and rt_schedule with the owner ready, nobody worse than the thread
  // that waits runs: the owner goes before every thread between the two. If no other ready
  // thread is as good as the one that waits, the owner runs.
  lemma OwnerGoesFirst(m: M.State, base: seq<nat>, s: S.State, time: int, s': S.State)
    requires Blocks(m, base, s, time) && s.nest == 0
    requires m.owner.thread < |s.stat| && s.stat[m.owner.thread] == S.Ready
    requires BlockedThenScheduled(s, m.owner.thread, s.cur, s')
    ensures s'.cur < |s'.stat| && s'.stat[s'.cur] == S.Running && s'.prio == M.Take(m, s.cur, time).0.current
    ensures forall x :: 0 <= x < |s.prio| && s.prio[s.cur] < s'.prio[x] ==> x != s'.cur
    ensures (forall x :: 0 <= x < |s.stat| && s.stat[x] == S.Ready && x != m.owner.thread ==> s.prio[s.cur] < s.prio[x])
              ==> s'.cur == m.owner.thread
  {
    var o, t := m.owner.thread, s.cur;
    var s1 := Block(s, o, t);
    BlockAgrees(m, base, s, time);
    assert s1.stat[o] == S.Ready && s1.prio[o] <= s.prio[t];
    ReadyListed(s1, o);
    S.ScheduleOutcome(s1, s');
    RunsReady(s1, s', o);
  }

  // A suspended current thread is replaced by a ready one at least as good as any.
  lemma RunsReady(s: S.State, s': S.State, o: nat)
    requires S.Inv(s) && S.Scheduled(s, s') && s.nest == 0
    requires s.stat[s.cur] != S.Running && o < |s.stat| && s.stat[o] == S.Ready
    ensures s'.cur < |s.stat| && s.stat[s'.cur] == S.Ready && s.prio[s'.cur] <= s.prio[o] && s'.prio == s.prio
  {
    ReadyListed(s, o);
    var p: nat :| S.IsBest(s, p) && s' == S.SwitchTo(s, p);
    S.BestOfAll(s, p, o);
    assert s'.cur == S.FirstOf(s, p);
  }

  // ---- the last release ----

  // rt_mutex_release of the last level by o, up to rt_schedule: o gets its own priority back,
  // and the first waiter w is resumed.
  ghost function HandOver(s: S.State, o: nat, original: nat, w: nat): S.State
    requires S.Shaped(s) && o < |s.stat| && w < |s.stat| && original < |s.table|
  {
    S.Resume(S.ChangePriority(s, o, original), w).0
  }

  lemma HandOverKeeps(s: S.State, o: nat, original: nat, w: nat)
    requires S.Inv(s) && o < |s.stat| && w < |s.stat| && original < |s.table|
    ensures S.Inv(HandOver(s, o, original, w))
  {
    S.ChangePriorityKeeps(s, o, original);
    S.ResumeKeeps(S.ChangePriority(s, o, original), w);
  }

  ghost predicate HandedThenScheduled(s: S.State, o: nat, original: nat, w: nat, s': S.State)
    requires S.Inv(s) && o < |s.stat| && w < |s.stat| && original < |s.table|
  {
    HandOverKeeps(s, o, original, w);
    S.Scheduled(HandOver(s, o, original, w), s')
  }

  // After the last release and rt_schedule nobody worse than the new owner runs, and the new
  // owner does if it is better than the old one and than every ready thread.
  lemma NewOwnerRuns(m: M.State, base: seq<nat>, s: S.State, s': S.State)
    requires Agree(m, base, s) && m.owner == M.Held(s.cur) && m.hold == 1 && m.waiters != []
    requires s.nest == 0 && s.stat[s.cur] == S.Running && m.original < |s.table|
    requires m.waiters[0] < |s.stat| && HandedThenScheduled(s, s.cur, m.original, m.waiters[0], s')
    ensures m.waiters[0] < |base| && s'.prio == M.Release(m, s.cur).0.current == base
    ensures s'.cur < |base| && base[s'.cur] <= base[m.waiters[0]]
    ensures (forall x :: 0 <= x < |base| && (x == s.cur || s.stat[x] == S.Ready) ==> base[m.waiters[0]] < base[x])
              ==> s'.cur == m.waiters[0]
  {
    var w := m.waiters[0];
    assert w in m.waiters;
    M.HandOff(m, base, s.cur);
    var s1 := HandOver(s, s.cur, m.original, w);
    HandOverKeeps(s, s.cur, m.original, w);
    assert s1.prio == base;
    ReadyListed(s1, w);
    S.ScheduleOutcome(s1, s');
    var p: nat :| S.IsBest(s1, p) && s' == S.SwitchTo(s1, p);
    S.BestOfAll(s1, p, w);
  }

  // ---- runs of mutex and scheduler together ----

  datatype Joint = Joint(m: M.State, s: S.State)

  // The priorities of all threads and the number of priorities stay within the ready table.
  ghost predicate Fits(base: seq<nat>, s: S.State) {
    forall x :: 0 <= x < |base| ==> base[x] < |s.table|
  }

  ghost predicate JointInv(j: Joint, base: seq<nat>) { Agree(j.m, base, j.s) && Fits(base, j.s) }

  // rt_mutex_release by the running thread, up to rt_schedule
  ghost function Released(m: M.State, s: S.State): S.State
    requires S.Shaped(s) && m.original < |s.table| && (m.waiters != [] ==> m.waiters[0] < |s.stat|)
  {
    if m.owner != M.Held(s.cur) || m.hold != 1 then s
    else if m.waiters == [] then S.ChangePriority(s, s.cur, m.original)
    else HandOver(s, s.cur, m.original, m.waiters[0])
  }

  // What the running thread and the clock do. Threads may also wait for, and be woken by,
  // something else than the mutex.
  datatype Event =
    | DoTake(time: int)
    | DoRelease
    | DoTimeout(w: nat)
    | DoSleep
    | DoWake(t: nat)
    | DoTick
    | DoSchedule

  ghost predicate Enabled(j: Joint, e: Event) {
    match e
    case DoTake(_) => j.s.cur < |j.s.stat| && j.s.stat[j.s.cur] == S.Running
    case DoRelease => j.s.cur < |j.s.stat| && j.s.stat[j.s.cur] == S.Running
    case DoTimeout(w) => w in j.m.timed
    case DoSleep => j.s.cur < |j.s.stat| && j.s.stat[j.s.cur] == S.Running
    case DoWake(t) => t < |j.s.stat| && t !in j.m.waiters
    case _ => true
  }

  // The mutex is held by another thread, and the caller is prepared to wait.
  ghost predicate MustWait(j: Joint, time: int) {
    j.m.owner.Held? && j.m.owner != M.Held(j.s.cur) && time != 0
  }

  // The running thread is not among the suspended ones, and the numbers are in range.
  lemma RunningOk(j: Joint, base: seq<nat>)
    requires JointInv(j, base)
    ensures |j.s.stat| == |base| == |j.m.current| == |j.m.error| == |j.m.stamp| && j.s.cur < |base|
    ensures j.s.stat[j.s.cur] == S.Running ==> j.s.cur !in j.m.waiters
    ensures j.m.owner.Held? ==> j.m.owner.thread < |base| && j.m.original == base[j.m.owner.thread] && j.m.value == 0
    ensures !j.m.owner.Held? ==> j.m.value > 0
    ensures forall x :: x in j.m.waiters ==> x < |base|
    ensures forall x :: x in j.m.timed ==> x in j.m.waiters
    ensures j.m.waiters != [] ==> j.m.waiters[0] in j.m.waiters && j.m.owner.Held?
  {
    assert j.m.waiters != [] ==> j.m.waiters[0] in j.m.waiters;
  }

  ghost predicate IsStep(j: Joint, base: seq<nat>, e: Event, j': Joint)
    requires JointInv(j, base) && Enabled(j, e)
  {
    RunningOk(j, base);
    match e
    case DoTake(time) =>
      && j'.m == M.Take(j.m, j.s.cur, time).0
      && j'.s == if MustWait(j, time) then Block(j.s, j.m.owner.thread, j.s.cur) else j.s
    case DoRelease =>
      && j'.m == M.Release(j.m, j.s.cur).0
      && j'.s == if j.m.owner == M.Held(j.s.cur) then Released(j.m, j.s) else j.s
    case DoTimeout(w) => j'.m == M.Timeout(j.m, w) && j'.s == S.Resume(j.s, w).0
    case DoSleep => j'.m == j.m && j'.s == S.Suspend(j.s, j.s.cur).0
    case DoWake(t) => j'.m == j.m && j'.s == S.Resume(j.s, t).0
    case DoTick => j'.m == j.m && j'.s == S.Tick(j.s).0
    case DoSchedule => j'.m == j.m && S.Scheduled(j.s, j'.s)
  }

  lemma TakeAgrees(j: Joint, base: seq<nat>, time: int, j': Joint)
    requires JointInv(j, base) && Enabled(j, DoTake(time)) && IsStep(j, base, DoTake(time), j')
    ensures JointInv(j', base)
  {
    RunningOk(j, base);
    var o, t := j.m.owner, j.s.cur;
    if MustWait(j, time) {
      BlockKeeps(j.s, o.thread, t);
      BlockAgrees(j.m, base, j.s, time);
      hide S.Inv, M.Inv, M.Take, Block;
    } else {
      M.TakeKeepsInv(j.m, base, t, time);
    }
  }

  lemma ReleaseAgrees(j: Joint, base: seq<nat>, j': Joint)
    requires JointInv(j, base) && Enabled(j, DoRelease) && IsStep(j, base, DoRelease, j')
    ensures JointInv(j', base)
  {
    RunningOk(j, base);
    var m, s := j.m, j.s;
    M.ReleaseKeepsInv(m, base, s.cur);
    if m.owner == M.Held(s.cur) && m.hold == 1 {
      M.HandOff(m, base, s.cur);
      if m.waiters == [] {
        S.ChangePriorityKeeps(s, s.cur, m.original);
      } else {
        HandOverKeeps(s, s.cur, m.original, m.waiters[0]);
        OthersWait(m, base);
      }
    }
  }

  // The first waiter is in line once.
  lemma OthersWait(m: M.State, base: seq<nat>)
    requires M.Inv(m, base) && m.waiters != []
    ensures forall x :: x in m.waiters[1..] ==> x in m.waiters && x != m.waiters[0]
  {
    W.OrderedNoDup(m.waiters, base, m.stamp);
  }

  lemma TimeoutAgrees(j: Joint, base: seq<nat>, w: nat, j': Joint)
    requires JointInv(j, base) && Enabled(j, DoTimeout(w)) && IsStep(j, base, DoTimeout(w), j')
    ensures JointInv(j', base)
  {
    RunningOk(j, base);
    M.TimeoutKeepsInv(j.m, base, w);
    S.ResumeKeeps(j.s, w);
    W.OrderedNoDup(j.m.waiters, base, j.m.stamp);
    WithoutMembers(j.m.waiters, w);
  }

  // rt_schedule changes no priority and wakes nobody.
  lemma ScheduleAgrees(s: S.State, s': S.State)
    requires S.Inv(s) && S.Scheduled(s, s')
    ensures S.Inv(s') && s'.prio == s.prio && |s'.table| == |s.table| && |s'.stat| == |s.stat|
    ensures forall x :: 0 <= x < |s.stat| && s.stat[x] == S.Suspended ==> s'.stat[x] == S.Suspended
  {
    S.ScheduleOutcome(s, s');
    if s.nest == 0 && S.AnyReady(s) {
      var p: nat :| S.IsBest(s, p) && s' == S.SwitchTo(s, p);
      assert S.Queued(s, p, S.FirstOf(s, p));
    }
  }

  lemma StepAgrees(j: Joint, base: seq<nat>, e: Event, j': Joint)
    requires JointInv(j, base) && Enabled(j, e) && IsStep(j, base, e, j')
    ensures JointInv(j', base)
  {
    match e
    case DoTake(time) => TakeAgrees(j, base, time, j');
    case DoRelease => ReleaseAgrees(j, base, j');
    case DoTimeout(w) => TimeoutAgrees(j, base, w, j');
    case DoSleep => S.SuspendKeeps(j.s, j.s.cur);
    case DoWake(t) => S.ResumeKeeps(j.s, t);
    case DoTick => S.TickKeeps(j.s);
    case DoSchedule => ScheduleAgrees(j.s, j'.s);
  }

  ghost predicate StepAt(base: seq<nat>, trace: seq<Joint>, events: seq<Event>, k: nat) {
    && k < |events| && k + 1 < |trace|
    && (JointInv(trace[k], base) ==> Enabled(trace[k], events[k]) && IsStep(trace[k], base, events[k], trace[k + 1]))
  }

  // A run that starts with the mutex free and every thread at its own priority.
  ghost predicate IsRun(base: seq<nat>, trace: seq<Joint>, events: seq<Event>) {
    && |trace| == |events| + 1
    && trace[0].m == M.Init(base) && S.Inv(trace[0].s) && trace[0].s.prio == base
    && forall k: nat :: k < |events| ==> StepAt(base, trace, events, k)
  }

  // The running thread is at least as urgent as everybody who waits for the mutex, if the owner
  // can run at all.
  ghost predicate NoInversion(j: Joint, base: seq<nat>)
    requires JointInv(j, base)
  {
    j.m.owner.Held? && j.m.owner.thread < |j.s.stat|
    && (j.s.stat[j.m.owner.thread] == S.Ready || j.s.stat[j.m.owner.thread] == S.Running)
    ==> forall w :: w in j.m.waiters ==> w < |base| && j.s.cur < |j.s.prio| && j.s.prio[j.s.cur] <= base[w]
  }

  lemma ScheduledNoInversion(j: Joint, base: seq<nat>, j': Joint)
    requires JointInv(j, base) && JointInv(j', base) && IsStep(j, base, DoSchedule, j') && j.s.nest == 0
    ensures NoInversion(j', base)
  {
    RunningOk(j', base);
    if j'.m.owner.Held? {
      var o := j'.m.owner.thread;
      ScheduleAgrees(j.s, j'.s);
      S.ScheduleOutcome(j.s, j'.s);
      if j'.s.stat[o] == S.Ready || j'.s.stat[o] == S.Running {
        CanRunBefore(j.s, j'.s, o);
        assert j'.s.prio[j'.s.cur] <= j'.s.prio[o];
        forall w | w in j'.m.waiters
          ensures w < |base| && j'.s.prio[j'.s.cur] <= base[w]
        {
          M.NoInversion(j'.m, base, w);
          assert j'.m.owner != M.Held(w);
        }
      }
    }
  }

  // Whoever can run after rt_schedule could before.
  lemma CanRunBefore(s: S.State, s': S.State, o: nat)
    requires S.Inv(s) && S.Scheduled(s, s') && s.nest == 0 && o < |s'.stat|
    requires s'.stat[o] == S.Ready || s'.stat[o] == S.Running
    ensures S.CanRun(s)
  {
    if !S.AnyReady(s) {
      assert s' == s;
      if s.stat[o] == S.Ready {
        ReadyListed(s, o);
      }
    }
  }

  // Over every run of takes, nested takes, releases, timeouts, ticks, other waits and rt_schedule
  // the mutex and the ready lists agree; and after an unlocked rt_schedule no thread less urgent
  // than one that waits for the mutex runs while the owner could.
  lemma {:induction false} RunAgrees(base: seq<nat>, trace: seq<Joint>, events: seq<Event>, k: nat)
    requires IsRun(base, trace, events) && k <= |events|
    ensures JointInv(trace[k], base)
    ensures k > 0 && events[k - 1] == DoSchedule && trace[k - 1].s.nest == 0 ==> NoInversion(trace[k], base)
  {
    if k > 0 {
      RunAgrees(base, trace, events, k - 1);
      assert StepAt(base, trace, events, k - 1);
      StepAgrees(trace[k - 1], base, events[k - 1], trace[k]);
      if events[k - 1] == DoSchedule && trace[k - 1].s.nest == 0 {
        ScheduledNoInversion(trace[k - 1], base, trace[k]);
      }
    }
  }
}
