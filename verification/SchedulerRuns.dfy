// Runs of the scheduler at the granularity of its critical sections. rt_thread_resume tests the
// state with interrupts enabled, unlinks the thread in one region and inserts it in another
// (rt-thread/src/thread.c); rt_thread_startup goes through it, and rt_thread_suspend tests before
// its region too. Other callers and timeouts may come in between.
module SchedulerRuns {
  import opened Lists
  import opened ReadyBits
  import opened Schedulers

  // Where a caller stands in rt_thread_resume, or in rt_thread_suspend, of thread t.
  datatype Call = Passed(t: nat) | Unlinked(t: nat) | Suspending(t: nat)

  // `timed` are the threads whose thread_timer is active, `calls` the callers that were
  // interrupted between two regions.
  datatype World = World(s: State, bits: Bitmap, timed: set<nat>, calls: map<nat, Call>)

  // What the scheduler relies on: lists and states agree, the bitmap agrees with the lists, and
  // rt_thread_timeout finds its thread suspended.
  ghost predicate Good(w: World) {
    && Inv(w.s) && Agrees(w.s.table, w.bits)
    && forall t :: t in w.timed ==> t < |w.s.stat| && w.s.stat[t] == Suspended
  }

  // ---- the regions, with the bitmap ----

  ghost function InsertBits(s: State, b: Bitmap, t: nat): Bitmap
    requires Shaped(s) && t < |s.stat| && Agrees(s.table, b)
  {
    if t == s.cur then b else Mark(b, s.prio[t])
  }

  ghost function RemoveBits(s: State, b: Bitmap, t: nat): Bitmap
    requires Shaped(s) && t < |s.stat| && Agrees(s.table, b)
  {
    if Without(s.table[s.prio[t]], t) == [] then Unmark(b, s.prio[t]) else b
  }

  lemma InsertBitsOk(s: State, b: Bitmap, t: nat)
    requires Shaped(s) && t < |s.stat| && Agrees(s.table, b)
    ensures Agrees(Insert(s, t).table, InsertBits(s, b, t))
  {
    InsertAgrees(s.table, b, s.prio[t], t);
  }

  lemma RemoveBitsOk(s: State, b: Bitmap, t: nat)
    requires Shaped(s) && t < |s.stat| && Agrees(s.table, b)
    ensures Agrees(Remove(s, t).table, RemoveBits(s, b, t))
  {
    RemoveAgrees(s.table, b, s.prio[t], t);
  }

  // rt_schedule when p is the best priority
  ghost function SwitchBits(s: State, b: Bitmap, p: nat): Bitmap
    requires Inv(s) && IsBest(s, p) && Agrees(s.table, b)
  {
    if Stays(s, p) then RemoveBits(s, b, s.cur)
    else
      var s2 := s.(cur := FirstOf(s, p));
      if s.stat[s.cur] == Running then
        InsertBitsOk(s2, b, s.cur);
        RemoveBits(Insert(s2, s.cur), InsertBits(s2, b, s.cur), s2.cur)
      else RemoveBits(s2, b, s2.cur)
  }

  lemma SwitchBitsOk(s: State, b: Bitmap, p: nat)
    requires Inv(s) && IsBest(s, p) && Agrees(s.table, b)
    ensures Agrees(SwitchTo(s, p).table, SwitchBits(s, b, p))
  {
    if Stays(s, p) {
      UnlinkSame(s, s.cur);
      RemoveBitsOk(s, b, s.cur);
    } else {
      var s2 := s.(cur := FirstOf(s, p));
      if s.stat[s.cur] == Running {
        InsertBitsOk(s2, b, s.cur);
        RemoveBitsOk(Insert(s2, s.cur), InsertBits(s2, b, s.cur), s2.cur);
      } else {
        RemoveBitsOk(s2, b, s2.cur);
      }
    }
  }

  ghost function ChangeBits(s: State, b: Bitmap, t: nat, p: nat): Bitmap
    requires Shaped(s) && t < |s.stat| && p < |s.table| && Agrees(s.table, b)
  {
    if s.stat[t] == Ready then
      RemoveBitsOk(s, b, t);
      var s1 := Remove(s, t);
      InsertBits(s1.(prio := s1.prio[t := p]), RemoveBits(s, b, t), t)
    else b
  }

  lemma ChangeBitsOk(s: State, b: Bitmap, t: nat, p: nat)
    requires Shaped(s) && t < |s.stat| && p < |s.table| && Agrees(s.table, b)
    ensures Agrees(ChangePriority(s, t, p).table, ChangeBits(s, b, t, p))
  {
    if s.stat[t] == Ready {
      RemoveBitsOk(s, b, t);
      var s1 := Remove(s, t);
      InsertBitsOk(s1.(prio := s1.prio[t := p]), RemoveBits(s, b, t), t);
    }
  }

  // rt_list_remove and rt_timer_stop
  ghost function Unlink(w: World, t: nat): World
    requires Shaped(w.s) && t < |w.s.stat|
  {
    w.(s := Remove(w.s, t), timed := w.timed - {t})
  }

  // rt_schedule_insert_thread
  ghost function Link(w: World, t: nat): World
    requires Shaped(w.s) && t < |w.s.stat| && Agrees(w.s.table, w.bits)
  {
    w.(s := Insert(w.s, t), bits := InsertBits(w.s, w.bits, t))
  }

  // The region of rt_thread_suspend, and the start of the thread's timer if it is to time out.
  ghost function Sleep(w: World, t: nat, timer: bool): World
    requires Shaped(w.s) && t < |w.s.stat| && Agrees(w.s.table, w.bits)
  {
    w.(s := Remove(w.s, t).(stat := w.s.stat[t := Suspended]), bits := RemoveBits(w.s, w.bits, t),
       timed := if timer then w.timed + {t} else w.timed - {t})
  }

  // All of rt_thread_resume, with interrupts disabled, and rt_thread_timeout up to rt_schedule.
  ghost function Wake(w: World, t: nat): World
    requires Good(w) && t < |w.s.stat|
  {
    if w.s.stat[t] == Suspended then
      UnlinkSame(w.s, t);
      Link(Unlink(w, t), t)
    else w
  }

  // ---- steps ----

  datatype Event =
    | DoSchedule
    | DoMarkYield
    | DoTick
    | DoLock
    | DoUnlock
    | DoChangePriority(t: nat, p: nat)
    | DoSuspend(t: nat, timer: bool)  // with interrupts disabled
    | DoResume(t: nat)                // with interrupts disabled, as everywhere in ipc.c
    | DoTimeout(t: nat)               // from rt_timer_check, which has interrupts disabled
    | BeginStartup(t: nat)            // rt_thread_startup up to rt_thread_resume
    | TestResume(c: nat, t: nat)      // caller c enters rt_thread_resume
    | UnlinkResume(c: nat)
    | InsertResume(c: nat)
    | TestSuspend(c: nat, t: nat)     // caller c enters rt_thread_suspend
    | EndSuspend(c: nat)

  ghost predicate Enabled(w: World, e: Event) {
    match e
    case DoSuspend(t, _) => t < |w.s.stat|
    case DoResume(t) => t < |w.s.stat|
    case DoTimeout(t) => t in w.timed
    case BeginStartup(t) => t < |w.s.stat| && w.s.stat[t] == Init
    case DoChangePriority(t, p) => t < |w.s.stat| && p < |w.s.table|
    case TestResume(c, t) => c !in w.calls && t < |w.s.stat|
    case UnlinkResume(c) => c in w.calls && w.calls[c].Passed? && w.calls[c].t < |w.s.stat|
    case InsertResume(c) => c in w.calls && w.calls[c].Unlinked? && w.calls[c].t < |w.s.stat|
    case TestSuspend(c, t) => c !in w.calls && t < |w.s.stat|
    case EndSuspend(c) => c in w.calls && w.calls[c].Suspending? && w.calls[c].t < |w.s.stat|
    case _ => true
  }

  // rt_schedule
  ghost predicate Rescheduled(w: World, w': World)
    requires Good(w)
  {
    if w.s.nest > 0 || !AnyReady(w.s) then w' == w
    else exists p: nat :: IsBest(w.s, p) && w' == w.(s := SwitchTo(w.s, p), bits := SwitchBits(w.s, w.bits, p))
  }

  ghost function Runnable(s: State, t: nat): bool
    requires t < |s.stat|
  {
    s.stat[t] == Ready || s.stat[t] == Running
  }

  ghost function Next(w: World, e: Event): World
    requires Good(w) && Enabled(w, e) && e != DoSchedule
  {
    match e
    case DoMarkYield => w.(s := MarkYield(w.s))
    case DoTick => w.(s := Tick(w.s).0)
    case DoLock => w.(s := w.s.(nest := w.s.nest + 1))
    case DoUnlock => w.(s := Unlock(w.s))
    case DoChangePriority(t, p) => w.(s := ChangePriority(w.s, t, p), bits := ChangeBits(w.s, w.bits, t, p))
    case DoSuspend(t, timer) => if Runnable(w.s, t) then Sleep(w, t, timer) else w
    case DoResume(t) => Wake(w, t)
    case DoTimeout(t) => Wake(w, t)
    case BeginStartup(t) => w.(s := Begun(w.s, t))
    case TestResume(c, t) => if w.s.stat[t] == Suspended then w.(calls := w.calls[c := Passed(t)]) else w
    case UnlinkResume(c) => Unlink(w, w.calls[c].t).(calls := w.calls[c := Unlinked(w.calls[c].t)])
    case InsertResume(c) => Link(w, w.calls[c].t).(calls := w.calls - {c})
    case TestSuspend(c, t) => if Runnable(w.s, t) then w.(calls := w.calls[c := Suspending(t)]) else w
    case EndSuspend(c) => Sleep(w, w.calls[c].t, false).(calls := w.calls - {c})
  }

  ghost predicate IsStep(w: World, e: Event, w': World)
    requires Good(w) && Enabled(w, e)
  {
    if e == DoSchedule then Rescheduled(w, w') else w' == Next(w, e)
  }

  // ---- which steps are safe ----

  // A region of rt_thread_resume is entered at a thread that somebody else has made READY, or,
  // for the second, that waits with its timer running again.
  ghost predicate Stale(w: World, e: Event)
    requires Good(w) && Enabled(w, e)
  {
    match e
    case UnlinkResume(c) => w.s.stat[w.calls[c].t] == Ready
    case InsertResume(c) => w.s.stat[w.calls[c].t] == Ready || w.calls[c].t in w.timed
    case _ => false
  }

  lemma SleepKeeps(w: World, t: nat, timer: bool)
    requires Good(w) && t < |w.s.stat|
    ensures Good(Sleep(w, t, timer))
  {
    RemoveQueues(w.s, t, Sleep(w, t, timer).s, Suspended);
    RemoveBitsOk(w.s, w.bits, t);
  }

  lemma LinkKeeps(w: World, t: nat)
    requires Good(w) && t < |w.s.stat| && w.s.stat[t] != Ready && t !in w.timed
    ensures Good(Link(w, t))
  {
    InsertKeeps(w.s, t);
    InsertBitsOk(w.s, w.bits, t);
  }

  lemma WakeKeeps(w: World, t: nat)
    requires Good(w) && t < |w.s.stat|
    ensures Good(Wake(w, t))
  {
    if w.s.stat[t] == Suspended {
      UnlinkSame(w.s, t);
      LinkKeeps(Unlink(w, t), t);
    }
  }

  lemma BeginKeeps(w: World, t: nat)
    requires Good(w) && t < |w.s.stat| && w.s.stat[t] == Init
    ensures Good(w.(s := Begun(w.s, t)))
  {
    BegunKeeps(w.s, t);
  }

  lemma ChangeKeeps(w: World, t: nat, p: nat)
    requires Good(w) && t < |w.s.stat| && p < |w.s.table|
    ensures Good(w.(s := ChangePriority(w.s, t, p), bits := ChangeBits(w.s, w.bits, t, p)))
  {
    ChangePriorityKeeps(w.s, t, p);
    ChangeBitsOk(w.s, w.bits, t, p);
  }

  lemma ScheduleKeeps(w: World, w': World)
    requires Good(w) && Rescheduled(w, w')
    ensures Good(w') && Scheduled(w.s, w'.s) && w'.calls == w.calls && w'.timed == w.timed
    ensures forall t :: 0 <= t < |w.s.stat| && w.s.stat[t] == Suspended ==> t < |w'.s.stat| && w'.s.stat[t] == Suspended
  {
    if w.s.nest == 0 && AnyReady(w.s) {
      var p: nat :| IsBest(w.s, p) && w' == w.(s := SwitchTo(w.s, p), bits := SwitchBits(w.s, w.bits, p));
      SwitchKeeps(w.s, p);
      SwitchBitsOk(w.s, w.bits, p);
      SwitchWakesNobody(w.s, p);
      hide Inv, Agrees, IsBest, SwitchTo, SwitchBits;
    }
  }

  lemma SwitchWakesNobody(s: State, p: nat)
    requires Inv(s) && IsBest(s, p)
    ensures |SwitchTo(s, p).stat| == |s.stat|
    ensures forall t :: 0 <= t < |s.stat| && s.stat[t] == Suspended ==> SwitchTo(s, p).stat[t] == Suspended
  {
    hide QueueOk;
  }

  lemma UnlinkExact(w: World, t: nat)
    requires Good(w) && t < |w.s.stat|
    ensures Good(Unlink(w, t)) <==> w.s.stat[t] != Ready
  {
    UnlinkExactlyWhen(w.s, t);
    if w.s.stat[t] != Ready {
      UnlinkSame(w.s, t);
    }
  }

  lemma LinkExact(w: World, t: nat)
    requires Good(w) && t < |w.s.stat|
    ensures Good(Link(w, t)) <==> w.s.stat[t] != Ready && t !in w.timed
  {
    InsertExactlyWhen(w.s, t);
    if w.s.stat[t] != Ready && t !in w.timed {
      LinkKeeps(w, t);
    }
  }

  // A step leads out of the good states exactly when it is stale.
  lemma StepExactlyWhen(w: World, e: Event, w': World)
    requires Good(w) && Enabled(w, e) && IsStep(w, e, w')
    ensures Good(w') <==> !Stale(w, e)
  {
    match e
    case DoSchedule => ScheduleKeeps(w, w');
    case DoMarkYield => MarkYieldKeeps(w.s);
    case DoTick => TickKeeps(w.s);
    case DoLock => SameQueues(w.s, w'.s);
    case DoUnlock => UnlockKeeps(w.s);
    case DoChangePriority(t, p) => ChangeKeeps(w, t, p);
    case DoSuspend(t, timer) => SleepKeeps(w, t, timer);
    case DoResume(t) => WakeKeeps(w, t);
    case DoTimeout(t) => WakeKeeps(w, t);
    case BeginStartup(t) => BeginKeeps(w, t);
    case TestResume(_, _) =>
    case UnlinkResume(c) => UnlinkExact(w, w.calls[c].t);
    case InsertResume(c) => LinkExact(w, w.calls[c].t);
    case TestSuspend(_, _) =>
    case EndSuspend(c) => SleepKeeps(w, w.calls[c].t, false);
  }

  // ---- what going to sleep and waking up come to ----

  // A thread goes to sleep: it can time out exactly if its timer was started with that.
  lemma SleepOutcome(w: World, t: nat, timer: bool)
    requires Good(w) && t < |w.s.stat|
    ensures var w' := Sleep(w, t, timer);
      && (Runnable(w.s, t) ==> w'.s == Suspend(w.s, t).0) && w'.calls == w.calls
      && (t in w'.timed <==> timer) && forall x :: x != t ==> (x in w'.timed <==> x in w.timed)
  {
  }

  // A suspended thread wakes up, behind the others of its priority, with its timer stopped; nothing
  // happens to any other.
  lemma WakeOutcome(w: World, t: nat)
    requires Good(w) && t < |w.s.stat|
    ensures var w' := Wake(w, t);
      && w'.s == Resume(w.s, t).0 && w'.calls == w.calls
      && (forall x :: x in w'.timed <==> x in w.timed && (x == t ==> w.s.stat[t] != Suspended))
  {
    if w.s.stat[t] == Suspended {
      UnlinkSame(w.s, t);
    }
  }

  // ---- runs ----

  // The steps are defined on good states.
  ghost predicate StepAt(trace: seq<World>, events: seq<Event>, k: nat) {
    && k < |events| && k + 1 < |trace|
    && (Good(trace[k]) ==> Enabled(trace[k], events[k]) && IsStep(trace[k], events[k], trace[k + 1]))
  }

  ghost predicate IsRun(trace: seq<World>, events: seq<Event>) {
    && |trace| == |events| + 1 && Good(trace[0]) && trace[0].calls == map[]
    && forall k: nat :: k < |events| ==> StepAt(trace, events, k)
  }

  ghost predicate StaleAt(trace: seq<World>, events: seq<Event>, k: nat)
    requires IsRun(trace, events) && k < |events|
  {
    StepInRun(trace, events, k);
    Good(trace[k]) && Stale(trace[k], events[k])
  }

  lemma StepInRun(trace: seq<World>, events: seq<Event>, k: nat)
    requires IsRun(trace, events) && k < |events|
    ensures Good(trace[k]) ==> Enabled(trace[k], events[k]) && IsStep(trace[k], events[k], trace[k + 1])
  {
    assert StepAt(trace, events, k);
  }

  // A run stays in good states exactly when none of its steps is stale.
  lemma RunExactlyWhen(trace: seq<World>, events: seq<Event>)
    requires IsRun(trace, events)
    ensures (forall k :: 0 <= k < |trace| ==> Good(trace[k]))
       <==> (forall k :: 0 <= k < |events| ==> !StaleAt(trace, events, k))
  {
    if forall k :: 0 <= k < |trace| ==> Good(trace[k]) {
      forall k | 0 <= k < |events|
        ensures !StaleAt(trace, events, k)
      {
        StepInRun(trace, events, k);
        StepExactlyWhen(trace[k], events[k], trace[k + 1]);
      }
    }
    if forall k :: 0 <= k < |events| ==> !StaleAt(trace, events, k) {
      forall k | 0 <= k < |trace|
        ensures Good(trace[k])
      {
        FreshKeeps(trace, events, k);
      }
    }
  }

  lemma {:induction false} FreshKeeps(trace: seq<World>, events: seq<Event>, k: nat)
    requires IsRun(trace, events) && k <= |events|
    requires forall j :: 0 <= j < |events| ==> !StaleAt(trace, events, j)
    ensures Good(trace[k])
  {
    if k > 0 {
      FreshKeeps(trace, events, k - 1);
      StepInRun(trace, events, k - 1);
      assert !StaleAt(trace, events, k - 1);
      StepExactlyWhen(trace[k - 1], events[k - 1], trace[k]);
    }
  }

  // ---- runs in which resumes do not overlap ----

  ghost predicate Resumes(call: Call, t: nat) { !call.Suspending? && call.t == t }

  // Some caller is inside rt_thread_resume of t.
  ghost predicate Resuming(w: World, t: nat) {
    exists c :: c in w.calls && Resumes(w.calls[c], t)
  }

  // Somebody else resumes t, or t times out, while a caller is inside rt_thread_resume of t.
  ghost predicate Overlaps(w: World, e: Event) {
    match e
    case DoResume(t) => Resuming(w, t)
    case DoTimeout(t) => Resuming(w, t)
    case TestResume(_, t) => Resuming(w, t)
    case _ => false
  }

  // One caller at a time resumes a thread, finds it suspended throughout, and from its first
  // region on without a running timer.
  ghost predicate CallOk(w: World, c: nat) {
    c in w.calls && !w.calls[c].Suspending? ==>
      && w.calls[c].t < |w.s.stat| && w.s.stat[w.calls[c].t] == Suspended
      && (w.calls[c].Unlinked? ==> w.calls[c].t !in w.timed)
  }

  ghost predicate Alone(w: World, c: nat, d: nat) {
    c in w.calls && d in w.calls && Resumes(w.calls[c], w.calls[d].t) && Resumes(w.calls[d], w.calls[c].t) ==> c == d
  }

  ghost predicate Orderly(w: World) {
    Good(w) && (forall c: nat :: CallOk(w, c)) && (forall c: nat, d: nat :: Alone(w, c, d))
  }

  // t stays suspended, and its timer does not start, unless the event resumes t.
  lemma StaysSuspended(w: World, e: Event, w': World, t: nat)
    requires Good(w) && Enabled(w, e) && IsStep(w, e, w') && t < |w.s.stat| && w.s.stat[t] == Suspended
    requires e.DoResume? || e.DoTimeout? ==> e.t != t
    requires e.InsertResume? ==> w.calls[e.c].t != t
    ensures t < |w'.s.stat| && w'.s.stat[t] == Suspended && (t !in w.timed ==> t !in w'.timed)
  {
    if e == DoSchedule {
      ScheduleKeeps(w, w');
    }
  }

  lemma StepOrderly(w: World, e: Event, w': World)
    requires Orderly(w) && Enabled(w, e) && IsStep(w, e, w') && !Overlaps(w, e)
    ensures Orderly(w')
  {
    if e.UnlinkResume? || e.InsertResume? {
      assert CallOk(w, e.c);
    }
    StepExactlyWhen(w, e, w');
    CallsAfter(w, e, w');
    forall c: nat
      ensures CallOk(w', c)
    {
      if c in w'.calls && !w'.calls[c].Suspending? {
        CallStaysOk(w, e, w', c);
      }
    }
    forall c: nat, d: nat
      ensures Alone(w', c, d)
    {
      assert Alone(w, c, d);
      if e.TestResume? {
        assert c in w.calls ==> !Resumes(w.calls[c], e.t);
        assert d in w.calls ==> !Resumes(w.calls[d], e.t);
      }
    }
  }

  // Which calls are open after a step.
  lemma CallsAfter(w: World, e: Event, w': World)
    requires Good(w) && Enabled(w, e) && IsStep(w, e, w')
    ensures forall c: nat :: c in w'.calls && c !in w.calls ==>
      && ((e.TestResume? && e.c == c && w.s.stat[e.t] == Suspended && w'.calls[c] == Passed(e.t))
          || (e.TestSuspend? && e.c == c && w'.calls[c] == Suspending(e.t)))
    ensures forall c: nat :: c in w'.calls && c in w.calls ==>
      w'.calls[c] == if e.UnlinkResume? && e.c == c then Unlinked(w.calls[c].t) else w.calls[c]
    ensures e.InsertResume? ==> e.c !in w'.calls
  {
    if e == DoSchedule {
      ScheduleKeeps(w, w');
    }
  }

  lemma CallStaysOk(w: World, e: Event, w': World, c: nat)
    requires Orderly(w) && Enabled(w, e) && IsStep(w, e, w') && !Overlaps(w, e)
    requires c in w'.calls && !w'.calls[c].Suspending?
    ensures CallOk(w', c)
  {
    CallsAfter(w, e, w');
    var t := w'.calls[c].t;
    assert CallOk(w, c);
    if e.InsertResume? {
      assert c in w.calls && c != e.c;
      assert Alone(w, c, e.c);
    }
    if c in w.calls {
      assert Resumes(w.calls[c], t);
    }
    StaysSuspended(w, e, w', t);
  }

  // When nobody resumes a thread, and it does not time out, while a caller is inside
  // rt_thread_resume of it, every reachable state is good: each READY thread is in exactly its
  // own list, only the current thread is RUNNING, a bit is set exactly for the non-empty lists.
  // After every unlocked rt_schedule with a thread that can run the best one runs.
  lemma {:induction false} RunKeeps(trace: seq<World>, events: seq<Event>, k: nat)
    requires IsRun(trace, events) && k <= |events|
    requires forall j :: 0 <= j < |events| ==> !Overlaps(trace[j], events[j])
    ensures Orderly(trace[k])
    ensures k > 0 && events[k - 1] == DoSchedule && trace[k - 1].s.nest == 0 && CanRun(trace[k - 1].s) ==> BestRuns(trace[k].s)
  {
    if k > 0 {
      RunKeeps(trace, events, k - 1);
      StepInRun(trace, events, k - 1);
      StepOrderly(trace[k - 1], events[k - 1], trace[k]);
      if events[k - 1] == DoSchedule {
        ScheduleKeeps(trace[k - 1], trace[k]);
        ScheduleOutcome(trace[k - 1].s, trace[k].s);
      }
    }
  }

  // That is so in particular when every resume is made with interrupts disabled.
  lemma ResumesInRegions(trace: seq<World>, events: seq<Event>, k: nat)
    requires IsRun(trace, events) && k <= |events|
    requires forall j :: 0 <= j < |events| ==> !events[j].TestResume?
    ensures Orderly(trace[k])
  {
    forall j | 0 <= j < |events|
      ensures !Overlaps(trace[j], events[j])
    {
      NobodyResuming(trace, events, j);
    }
    RunKeeps(trace, events, k);
  }

  lemma {:induction false} NobodyResuming(trace: seq<World>, events: seq<Event>, k: nat)
    requires IsRun(trace, events) && k <= |events|
    requires forall j :: 0 <= j < |events| ==> !events[j].TestResume?
    ensures Good(trace[k]) && forall c: nat :: c in trace[k].calls ==> trace[k].calls[c].Suspending?
  {
    if k > 0 {
      NobodyResuming(trace, events, k - 1);
      StepInRun(trace, events, k - 1);
      StepExactlyWhen(trace[k - 1], events[k - 1], trace[k]);
      CallsAfter(trace[k - 1], events[k - 1], trace[k]);
    }
  }

  // ---- a run with overlapping resumes ----

  // Thread 0 runs at priority 1, thread 1 of priority 0 waits, with its timer running if `timer`.
  ghost function TwoThreads(timer: bool): World {
    World(State([[], []], [Running, Suspended], [1, 0], [false, false], 0, 0, [1, 0], [10, 10], [10, 10]),
          Bitmap(false, Zeros(32), seq(32, _ => Zeros(8))), if timer then {1} else {}, map[])
  }

  lemma TwoThreadsGood(timer: bool)
    ensures Good(TwoThreads(timer))
  {
    var w := TwoThreads(timer);
    forall p: nat | p < 2
      ensures QueueOk(w.s, p)
    {
    }
  }

  ghost predicate Lost(w: World, t: nat) {
    && t < |w.s.stat| == |w.s.prio| && w.s.stat[t] == Ready && w.s.prio[t] < |w.s.table|
    && (forall p: nat :: p < |w.s.table| ==> t !in w.s.table[p])
  }

  // Two callers pass the test for thread 1; when the first has made it READY, the second unlinks
  // it again. The thread is in no list, and its bit stands for an empty one, which the next
  // rt_schedule would look up.
  lemma OverlapBreaks() returns (trace: seq<World>)
    ensures IsRun(trace, [TestResume(0, 1), TestResume(1, 1), UnlinkResume(0), InsertResume(0), UnlinkResume(1)])
    ensures Lost(trace[5], 1) && trace[5].s.table[0] == [] && !Good(trace[5])
    ensures BitmapOk(trace[5].bits) && Marked(trace[5].bits, 0) && Any(trace[5].bits.group) && Highest(trace[5].bits) == 0
  {
    var events := [TestResume(0, 1), TestResume(1, 1), UnlinkResume(0), InsertResume(0)];
    var before := FirstResumes();
    var w := Next(before[4], UnlinkResume(1));
    StaleUnlink(before[4], 1, w);
    RunAppends(before, events, UnlinkResume(1), w);
    trace := before + [w];
    assert events + [UnlinkResume(1)] == [TestResume(0, 1), TestResume(1, 1), UnlinkResume(0), InsertResume(0), UnlinkResume(1)];
  }

  // Up to where the first of the two has made the thread READY.
  lemma FirstResumes() returns (trace: seq<World>)
    ensures IsRun(trace, [TestResume(0, 1), TestResume(1, 1), UnlinkResume(0), InsertResume(0)])
    ensures var w := trace[4];
      && Good(w) && 1 < |w.s.stat| && 1 in w.calls && w.calls[1] == Passed(1)
      && w.s.stat[1] == Ready && w.s.prio[1] == 0 && w.s.table[0] == [1]
  {
    var w0 := TwoThreads(false);
    TwoThreadsGood(false);
    hide Inv, Agrees;
    var w1 := Next(w0, TestResume(0, 1));
    var w2 := Next(w1, TestResume(1, 1));
    StepExactlyWhen(w2, UnlinkResume(0), Next(w2, UnlinkResume(0)));
    var w3 := Next(w2, UnlinkResume(0));
    StepExactlyWhen(w3, InsertResume(0), Next(w3, InsertResume(0)));
    trace := [w0, w1, w2, w3, Next(w3, InsertResume(0))];
  }

  lemma RunAppends(trace: seq<World>, events: seq<Event>, e: Event, w: World)
    requires IsRun(trace, events) && Good(trace[|events|]) && Enabled(trace[|events|], e) && IsStep(trace[|events|], e, w)
    ensures IsRun(trace + [w], events + [e])
  {
    hide Good, IsStep, Enabled;
    forall k: nat | k < |events| + 1
      ensures StepAt(trace + [w], events + [e], k)
    {
      assert k < |events| ==> StepAt(trace, events, k);
    }
  }

  // The same when the thread times out between the test and the first region.
  lemma TimeoutBreaks() returns (trace: seq<World>)
    ensures IsRun(trace, [TestResume(0, 1), DoTimeout(1), UnlinkResume(0)])
    ensures Lost(trace[3], 1) && trace[3].s.table[0] == [] && !Good(trace[3])
    ensures BitmapOk(trace[3].bits) && Marked(trace[3].bits, 0) && Any(trace[3].bits.group) && Highest(trace[3].bits) == 0
  {
    var w0 := TwoThreads(true);
    TwoThreadsGood(true);
    hide Inv, Agrees;
    var w1 := Next(w0, TestResume(0, 1));
    StepExactlyWhen(w1, DoTimeout(1), Next(w1, DoTimeout(1)));
    var w2 := Next(w1, DoTimeout(1));
    trace := [w0, w1, w2, Next(w2, UnlinkResume(0))];
    StaleUnlink(w2, 0, trace[3]);
  }

  // A stale unlink of the only thread of the best list.
  lemma StaleUnlink(w: World, c: nat, w': World)
    requires Good(w) && 1 < |w.s.stat| && c in w.calls && w.calls[c] == Passed(1) && w' == Next(w, UnlinkResume(c))
    requires w.s.stat[1] == Ready && w.s.prio[1] == 0 && w.s.table[0] == [1]
    ensures Lost(w', 1) && w'.s.table[0] == [] && !Good(w')
    ensures BitmapOk(w'.bits) && Marked(w'.bits, 0) && Any(w'.bits.group) && Highest(w'.bits) == 0
  {
    UnlinkExact(w, 1);
    forall p: nat | p < |w'.s.table|
      ensures 1 !in w'.s.table[p]
    {
      QueueNoDup(w.s, p, 1);
    }
    HighestIsBest(w.bits, 0);
  }
}
