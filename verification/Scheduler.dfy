// The single-processor scheduler of RT-Thread: rt-thread/src/scheduler.c, the thread state
// changes of thread.c, and the time slice of rt_tick_increase in clock.c. Threads are numbers;
// a smaller priority number is better. Insert, Remove, ChangePriority and rt_schedule are each
// one region with interrupts disabled; Suspend, Resume and Startup are calls nothing comes in
// between, such as those made with interrupts disabled. Module SchedulerRuns takes the calls
// apart.
module Schedulers {
  import opened Words
  import opened Lists
  import opened ReadyBits

  datatype Stat = Init | Ready | Running | Suspended // stat & RT_THREAD_STAT_MASK

  datatype Err = Ok | Error


  // `table` is rt_thread_priority_table, `yielding` the RT_THREAD_STAT_YIELD flags, `cur` is
  // rt_current_thread, `nest` is rt_scheduler_lock_nest; `base` and `slice` are init_priority
  // and init_tick, `left` is remaining_tick.
  datatype State = State(table: seq<seq<nat>>, stat: seq<Stat>, prio: seq<nat>, yielding: seq<bool>, cur: nat, nest: nat,
                         base: seq<nat>, slice: seq<nat>, left: seq<nat>)

  // ---- the invariant ----

  ghost predicate Queued(s: State, p: nat, t: nat) {
    t < |s.stat| == |s.prio| && s.stat[t] == Ready && s.prio[t] == p
  }

  // The list of priority p holds exactly the READY threads of that priority, each once.
  ghost predicate QueueOk(s: State, p: nat)
    requires p < |s.table|
  {
    NoDup(s.table[p]) && forall t: nat :: t in s.table[p] <==> Queued(s, p, t)
  }

  ghost predicate Shaped(s: State) {
    && |s.stat| == |s.prio| == |s.yielding| == |s.base| == |s.slice| == |s.left|
    && s.cur < |s.stat|
    && (forall t :: 0 <= t < |s.prio| ==> s.prio[t] < |s.table| && s.base[t] < |s.table|)
  }

  // Every READY thread is in exactly its own list; only the current thread is RUNNING, and it is
  // in no list.
  ghost predicate Inv(s: State) {
    && Shaped(s)
    && (forall p: nat :: p < |s.table| ==> QueueOk(s, p))
    && s.stat[s.cur] != Ready
    && (forall t :: 0 <= t < |s.stat| && s.stat[t] == Running ==> t == s.cur)
  }

  ghost predicate AnyReady(s: State) {
    exists p: nat :: p < |s.table| && s.table[p] != []
  }

  // p is the best priority with ready threads.
  ghost predicate IsBest(s: State, p: nat) {
    p < |s.table| && s.table[p] != [] && forall q: nat :: q < p ==> s.table[q] == []
  }

  // ---- the steps ----

  // rt_schedule_insert_thread
  ghost function Insert(s: State, t: nat): State
    requires Shaped(s) && t < |s.stat|
  {
    if t == s.cur then s.(stat := s.stat[t := Running])
    else s.(stat := s.stat[t := Ready], table := s.table[s.prio[t] := s.table[s.prio[t]] + [t]])
  }

  // rt_schedule_remove_thread
  ghost function Remove(s: State, t: nat): State
    requires Shaped(s) && t < |s.stat|
  {
    s.(table := s.table[s.prio[t] := Without(s.table[s.prio[t]], t)])
  }

  // The current thread keeps the processor.
  ghost predicate Stays(s: State, p: nat)
    requires Shaped(s)
  {
    s.stat[s.cur] == Running && (s.prio[s.cur] < p || (s.prio[s.cur] == p && !s.yielding[s.cur]))
  }

  // rt_schedule when p is the best ready priority: switch to the first thread of its list
  // unless the current thread stays.
  ghost function SwitchTo(s: State, p: nat): State
    requires Inv(s) && IsBest(s, p)
  {
    var to := FirstOf(s, p);
    var s1 := if s.stat[s.cur] == Running then s.(yielding := s.yielding[s.cur := false]) else s;
    if Stays(s, p) then s1
    else
      var s2 := s1.(cur := to);
      var s3 := if s.stat[s.cur] == Running then Insert(s2, s.cur) else s2;
      var s4 := Remove(s3, to);
      s4.(stat := s4.stat[to := Running])
  }

  ghost function FirstOf(s: State, p: nat): (t: nat)
    requires Inv(s) && p < |s.table| && s.table[p] != []
    ensures t < |s.stat| && t == s.table[p][0] && Queued(s, p, t) && t != s.cur
  {
    assert QueueOk(s, p) && s.table[p][0] in s.table[p];
    s.table[p][0]
  }

  // rt_schedule: nothing happens while the scheduler is locked or nothing is ready.
  ghost predicate Scheduled(s: State, s': State)
    requires Inv(s)
  {
    if s.nest > 0 || !AnyReady(s) then s' == s
    else exists p: nat :: IsBest(s, p) && s' == SwitchTo(s, p)
  }

  // rt_thread_yield up to rt_schedule
  ghost function MarkYield(s: State): State
    requires Shaped(s)
  {
    s.(left := s.left[s.cur := s.slice[s.cur]], yielding := s.yielding[s.cur := true])
  }

  // rt_thread_suspend; a running thread only suspends itself.
  ghost function Suspend(s: State, t: nat): (State, Err)
    requires Shaped(s) && t < |s.stat|
  {
    if s.stat[t] != Ready && s.stat[t] != Running then (s, Error)
    else
      var s1 := Remove(s, t);
      (s1.(stat := s1.stat[t := Suspended]), Ok)
  }

  // rt_thread_resume
  ghost function Resume(s: State, t: nat): (State, Err)
    requires Shaped(s) && t < |s.stat|
  {
    if s.stat[t] != Suspended then (s, Error) else (Insert(s, t), Ok)
  }

  // rt_thread_startup up to rt_thread_resume, and up to rt_schedule
  ghost function Begun(s: State, t: nat): State
    requires Shaped(s) && t < |s.stat|
  {
    s.(prio := s.prio[t := s.base[t]], stat := s.stat[t := Suspended], yielding := s.yielding[t := false])
  }

  ghost function Startup(s: State, t: nat): State
    requires Shaped(s) && t < |s.stat|
  {
    Resume(Begun(s, t), t).0
  }

  // RT_THREAD_CTRL_CHANGE_PRIORITY: a ready thread goes to the end of its new list.
  ghost function ChangePriority(s: State, t: nat, p: nat): State
    requires Shaped(s) && t < |s.stat| && p < |s.table|
  {
    if s.stat[t] == Ready then
      var s1 := Remove(s, t);
      Insert(s1.(prio := s1.prio[t := p]), t)
    else s.(prio := s.prio[t := p])
  }

  // rt_tick_increase, the time slice: whether it is used up, and the state up to rt_schedule.
  ghost function Tick(s: State): (State, bool)
    requires Shaped(s)
  {
    var left := if s.left[s.cur] == 0 then WORD_RANGE - 1 else s.left[s.cur] - 1;
    if left == 0 then (MarkYield(s), true) else (s.(left := s.left[s.cur := left]), false)
  }

  // ---- each step keeps the invariant ----

  lemma QueueNoDup(s: State, p: nat, t: nat)
    requires Inv(s) && p < |s.table|
    ensures NoDup(s.table[p]) && (t in s.table[p] <==> Queued(s, p, t))
  {
    assert QueueOk(s, p);
  }

  // A thread that is in no list and becomes READY goes to the end of its own.
  lemma InsertQueues(s: State, t: nat, s': State)
    requires Shaped(s) && t < |s.stat| && t != s.cur && s' == Insert(s, t)
    requires (forall p: nat :: p < |s.table| ==> QueueOk(s, p)) && s.stat[t] != Ready
    ensures forall p: nat :: p < |s'.table| ==> QueueOk(s', p)
  {
    forall p: nat | p < |s.table|
      ensures QueueOk(s', p)
    {
      assert QueueOk(s, p);
      assert t !in s.table[p];
      forall x: nat
        ensures x in s'.table[p] <==> Queued(s', p, x)
      {
        assert x in s.table[p] <==> Queued(s, p, x);
      }
    }
  }

  lemma InsertKeeps(s: State, t: nat)
    requires Inv(s) && t < |s.stat| && s.stat[t] != Ready
    ensures Inv(Insert(s, t))
  {
    if t == s.cur {
      SameQueues(s, Insert(s, t));
    } else {
      InsertQueues(s, t, Insert(s, t));
    }
  }

  lemma SameQueues(s: State, s': State)
    requires Shaped(s) && forall p: nat :: p < |s.table| ==> QueueOk(s, p)
    requires s'.table == s.table && forall p, t: nat :: Queued(s', p, t) <==> Queued(s, p, t)
    ensures forall p: nat :: p < |s'.table| ==> QueueOk(s', p)
  {
    forall p: nat | p < |s.table|
      ensures QueueOk(s', p)
    {
      assert QueueOk(s, p);
    }
  }

  // A READY thread that changes its state leaves its list.
  lemma RemoveQueues(s: State, t: nat, s': State, stat: Stat)
    requires Shaped(s) && t < |s.stat| && (forall p: nat :: p < |s.table| ==> QueueOk(s, p)) && stat != Ready
    requires s' == Remove(s, t).(stat := s.stat[t := stat])
    ensures forall p: nat :: p < |s'.table| ==> QueueOk(s', p)
  {
    forall p: nat | p < |s.table|
      ensures QueueOk(s', p)
    {
      assert QueueOk(s, p);
      WithoutMembers(s.table[p], t);
      WithoutNoDup(s.table[p], t);
      forall x: nat
        ensures x in s'.table[p] <==> Queued(s', p, x)
      {
        assert x in s.table[p] <==> Queued(s, p, x);
      }
    }
  }

  lemma SuspendKeeps(s: State, t: nat)
    requires Inv(s) && t < |s.stat|
    ensures Inv(Suspend(s, t).0)
  {
    if s.stat[t] == Ready || s.stat[t] == Running {
      RemoveQueues(s, t, Suspend(s, t).0, Suspended);
    }
  }

  lemma ResumeKeeps(s: State, t: nat)
    requires Inv(s) && t < |s.stat|
    ensures Inv(Resume(s, t).0)
  {
    if s.stat[t] == Suspended {
      InsertKeeps(s, t);
    }
  }

  lemma BegunKeeps(s: State, t: nat)
    requires Inv(s) && t < |s.stat| && s.stat[t] == Init
    ensures Inv(Begun(s, t))
  {
    SameQueues(s, Begun(s, t));
  }

  lemma StartupKeeps(s: State, t: nat)
    requires Inv(s) && t < |s.stat| && s.stat[t] == Init
    ensures Inv(Startup(s, t))
  {
    BegunKeeps(s, t);
    InsertKeeps(Begun(s, t), t);
  }

  // ---- the two regions of rt_thread_resume ----

  // Unlinking a thread that is not READY does nothing to the ready lists.
  lemma UnlinkSame(s: State, t: nat)
    requires Inv(s) && t < |s.stat| && s.stat[t] != Ready
    ensures Remove(s, t) == s
  {
    QueueNoDup(s, s.prio[t], t);
    WithoutMembers(s.table[s.prio[t]], t);
  }

  // The first region is right exactly at threads that are not READY ...
  lemma UnlinkExactlyWhen(s: State, t: nat)
    requires Inv(s) && t < |s.stat|
    ensures Inv(Remove(s, t)) <==> s.stat[t] != Ready
  {
    if s.stat[t] == Ready {
      var s', p := Remove(s, t), s.prio[t];
      QueueNoDup(s, p, t);
      WithoutMembers(s.table[p], t);
      assert Queued(s', p, t) && t !in s'.table[p];
      assert !QueueOk(s', p);
    } else {
      UnlinkSame(s, t);
    }
  }

  // ... and so is the second.
  lemma InsertExactlyWhen(s: State, t: nat)
    requires Inv(s) && t < |s.stat|
    ensures Inv(Insert(s, t)) <==> s.stat[t] != Ready
  {
    if s.stat[t] == Ready {
      var s', p := Insert(s, t), s.prio[t];
      QueueNoDup(s, p, t);
      var k :| 0 <= k < |s.table[p]| && s.table[p][k] == t;
      assert s'.table[p] == s.table[p] + [t] && s'.table[p][k] == s'.table[p][|s.table[p]|];
      assert !QueueOk(s', p);
    } else {
      InsertKeeps(s, t);
    }
  }

  // The first region leaves the bitmap alone: it still agrees exactly unless the thread was the
  // last of its list.
  lemma UnlinkAgreesExactlyWhen(s: State, b: Bitmap, t: nat)
    requires Inv(s) && t < |s.stat| && Agrees(s.table, b)
    ensures Agrees(Remove(s, t).table, b) <==> s.table[s.prio[t]] != [t]
  {
    var p := s.prio[t];
    var l, l' := s.table[p], Without(s.table[p], t);
    QueueNoDup(s, p, t);
    WithoutNoDup(l, t);
    assert |l'| == if t in l then |l| - 1 else |l|;
    if |l| == 1 {
      assert l == [l[0]];
    }
    assert l' == [] && l != [] <==> l == [t];
    assert Remove(s, t).table == s.table[p := l'];
    if l != [t] {
      forall q: nat | PrioOk(b.wide, q)
        ensures Marked(b, q) <==> q < |s.table| && s.table[p := l'][q] != []
      {
      }
    } else {
      assert Marked(b, p);
    }
  }

  lemma ChangePriorityKeeps(s: State, t: nat, p: nat)
    requires Inv(s) && t < |s.stat| && p < |s.table|
    ensures Inv(ChangePriority(s, t, p))
  {
    if s.stat[t] == Ready {
      var s1 := Remove(s, t).(stat := s.stat[t := Suspended]);
      RemoveQueues(s, t, s1, Suspended);
      var s2 := s1.(prio := s1.prio[t := p]);
      SameQueues(s1, s2);
      InsertKeeps(s2, t);
      assert s.stat[t := Suspended][t := Ready] == s.stat[t := Ready];
      assert ChangePriority(s, t, p) == Insert(s2, t);
    } else {
      SameQueues(s, ChangePriority(s, t, p));
    }
  }

  lemma MarkYieldKeeps(s: State)
    requires Inv(s)
    ensures Inv(MarkYield(s))
  {
    SameQueues(s, MarkYield(s));
  }

  lemma TickKeeps(s: State)
    requires Inv(s)
    ensures Inv(Tick(s).0)
  {
    SameQueues(s, Tick(s).0);
  }

  // ---- rt_schedule ----

  lemma SwitchKeeps(s: State, p: nat)
    requires Inv(s) && IsBest(s, p)
    ensures Inv(SwitchTo(s, p))
  {
    var to := FirstOf(s, p);
    var s1 := if s.stat[s.cur] == Running then s.(yielding := s.yielding[s.cur := false]) else s;
    SameQueues(s, s1);
    if !Stays(s, p) {
      var s2 := s1.(cur := to);
      SameQueues(s1, s2);
      if s.stat[s.cur] == Running {
        InsertQueues(s2, s.cur, Insert(s2, s.cur));
      }
      var s3 := if s.stat[s.cur] == Running then Insert(s2, s.cur) else s2;
      RemoveQueues(s3, to, SwitchTo(s, p), Running);
    }
  }

  lemma BestUnique(s: State, p: nat, q: nat)
    requires IsBest(s, p) && IsBest(s, q)
    ensures p == q
  {
  }

  // Some thread can be given the processor.
  ghost predicate CanRun(s: State) {
    s.cur < |s.stat| && (s.stat[s.cur] == Running || AnyReady(s))
  }

  // The processor goes to a thread no ready one is better than.
  ghost predicate BestRuns(s: State) {
    && Shaped(s) && s.stat[s.cur] == Running
    && forall t :: 0 <= t < |s.stat| && s.stat[t] == Ready ==> s.prio[s.cur] <= s.prio[t]
  }

  lemma BestOfAll(s: State, p: nat, t: nat)
    requires Inv(s) && IsBest(s, p) && t < |s.stat| && s.stat[t] == Ready
    ensures p <= s.prio[t]
  {
    assert QueueOk(s, s.prio[t]);
    assert Queued(s, s.prio[t], t);
  }

  lemma SwitchPicksBest(s: State, p: nat)
    requires Inv(s) && IsBest(s, p)
    ensures BestRuns(SwitchTo(s, p))
  {
    var s', to := SwitchTo(s, p), FirstOf(s, p);
    forall t | 0 <= t < |s'.stat| && s'.stat[t] == Ready
      ensures s'.prio[s'.cur] <= s'.prio[t]
    {
      if s.stat[t] == Ready {
        BestOfAll(s, p, t);
      }
    }
  }

  lemma NoneReady(s: State)
    requires Inv(s) && !AnyReady(s)
    ensures forall t :: 0 <= t < |s.stat| ==> s.stat[t] != Ready
  {
    forall t | 0 <= t < |s.stat|
      ensures s.stat[t] != Ready
    {
      assert QueueOk(s, s.prio[t]) && s.table[s.prio[t]] == [];
      assert t in s.table[s.prio[t]] <==> Queued(s, s.prio[t], t);
    }
  }

  // After rt_schedule with the scheduler unlocked, the invariant holds, the one RUNNING thread is
  // in no list, and no ready thread is better - provided some thread can run at all.
  lemma ScheduleOutcome(s: State, s': State)
    requires Inv(s) && Scheduled(s, s')
    ensures Inv(s')
    ensures s.nest == 0 && CanRun(s) ==>
      BestRuns(s') && forall p: nat :: p < |s'.table| ==> s'.cur !in s'.table[p]
  {
    if s.nest == 0 && AnyReady(s) {
      var p: nat :| IsBest(s, p) && s' == SwitchTo(s, p);
      SwitchKeeps(s, p);
      SwitchPicksBest(s, p);
    } else if s.nest == 0 {
      NoneReady(s);
    }
    forall p: nat | p < |s'.table|
      ensures s'.cur !in s'.table[p]
    {
      QueueNoDup(s', p, s'.cur);
    }
  }

  lemma HeadReady(s: State, q: nat)
    requires Inv(s) && q < |s.table|
    ensures s.table[q] != [] ==> Queued(s, q, s.table[q][0])
  {
    assert QueueOk(s, q);
    assert s.table[q] != [] ==> s.table[q][0] in s.table[q];
  }

  ghost predicate ResumedThenScheduled(s: State, t: nat, s': State)
    requires Inv(s) && t < |s.stat|
  {
    ResumeKeeps(s, t);
    Scheduled(Resume(s, t).0, s')
  }

  // A thread better than the current one and than every ready thread preempts as soon as it is
  // resumed and rt_schedule is called.
  lemma ResumePreempts(s: State, t: nat, s': State)
    requires Inv(s) && s.nest == 0 && t < |s.stat| && s.stat[t] == Suspended && t != s.cur
    requires s.prio[t] < s.prio[s.cur]
    requires forall x :: 0 <= x < |s.stat| && s.stat[x] == Ready ==> s.prio[t] < s.prio[x]
    requires ResumedThenScheduled(s, t, s')
    ensures s'.cur == t && s'.stat[t] == Running
    ensures s.stat[s.cur] == Running ==>
      s'.stat[s.cur] == Ready && s'.table[s.prio[s.cur]] == s.table[s.prio[s.cur]] + [s.cur]
  {
    ResumeKeeps(s, t);
    var s1, p := Resume(s, t).0, s.prio[t];
    assert s1.table[p] != [];
    forall q: nat | q <= p
      ensures s.table[q] == []
    {
      HeadReady(s, q);
    }
    assert IsBest(s1, p);
    var b: nat :| IsBest(s1, b) && s' == SwitchTo(s1, b);
    BestUnique(s1, p, b);
    assert s1.table[p] == [t];
  }

  // rt_schedule does nothing while the scheduler is locked or nothing is ready. Otherwise at most
  // the current thread and the next one change: the one loses the processor, to wait if it could
  // run, and the other gets it.
  lemma ScheduleFrame(s: State, s': State)
    requires Inv(s) && Scheduled(s, s')
    ensures s.nest > 0 || !AnyReady(s) ==> s' == s
    ensures s' == s.(table := s'.table, stat := s'.stat, yielding := s'.yielding, cur := s'.cur)
    ensures |s'.stat| == |s.stat| && |s'.yielding| == |s.yielding|
    ensures forall t :: 0 <= t < |s.stat| && t != s.cur ==>
      s'.yielding[t] == s.yielding[t] && (if t == s'.cur then s'.stat[t] == Running else s'.stat[t] == s.stat[t])
    ensures s'.cur != s.cur ==> s'.stat[s.cur] == if s.stat[s.cur] == Running then Ready else s.stat[s.cur]
  {
  }

  // The current thread keeps the processor from threads that are not better, unless it yields.
  lemma CurrentStays(s: State, s': State)
    requires Inv(s) && s.stat[s.cur] == Running && !s.yielding[s.cur] && Scheduled(s, s')
    requires forall q: nat :: q < s.prio[s.cur] ==> s.table[q] == []
    ensures s' == s
  {
    assert s.yielding[s.cur := false] == s.yielding;
  }

  // ---- what the other steps come to ----

  lemma SuspendOutcome(s: State, t: nat)
    requires Inv(s) && t < |s.stat|
    ensures var (s', r) := Suspend(s, t);
      && (r == Ok <==> s.stat[t] == Ready || s.stat[t] == Running) && (r == Error ==> s' == s)
      && (r == Ok ==> s' == s.(table := s'.table, stat := s.stat[t := Suspended]) && |s'.table| == |s.table|
                      && forall p: nat :: p < |s.table| ==> LeftAlone(s.table[p], t, s'.table[p]))
  {
    if s.stat[t] == Ready || s.stat[t] == Running {
      forall p: nat | p < |s.table|
        ensures LeftAlone(s.table[p], t, Suspend(s, t).0.table[p])
      {
        QueueNoDup(s, p, t);
        WithoutLeaves(s.table[p], t);
      }
    }
  }

  lemma ResumeOutcome(s: State, t: nat)
    requires Inv(s) && t < |s.stat|
    ensures var (s', r) := Resume(s, t);
      && (r == Ok <==> s.stat[t] == Suspended) && (r == Error ==> s' == s)
      && (r == Ok && t == s.cur ==> s' == s.(stat := s.stat[t := Running]))
      && (r == Ok && t != s.cur ==>
            s' == s.(stat := s.stat[t := Ready], table := s.table[s.prio[t] := s.table[s.prio[t]] + [t]]))
  {
  }

  // A started thread is ready at its initial priority, last of its list.
  lemma StartupOutcome(s: State, t: nat)
    requires Inv(s) && t < |s.stat| && s.stat[t] == Init && t != s.cur
    ensures var s', p := Startup(s, t), s.base[t];
      && s' == s.(stat := s.stat[t := Ready], prio := s.prio[t := p], yielding := s'.yielding,
                  table := s.table[p := s.table[p] + [t]])
      && s'.yielding == s.yielding[t := false]
  {
    assert s.stat[t := Suspended][t := Ready] == s.stat[t := Ready];
  }

  // A thread has the new priority, and if it is ready is last of the list of that.
  lemma ChangePriorityOutcome(s: State, t: nat, p: nat)
    requires Inv(s) && t < |s.stat| && p < |s.table|
    ensures var s' := ChangePriority(s, t, p);
      && s' == s.(prio := s.prio[t := p], table := s'.table) && |s'.table| == |s.table|
      && (s.stat[t] != Ready ==> s'.table == s.table)
      && (s.stat[t] == Ready ==>
            && s'.table[p] != [] && s'.table[p][|s'.table[p]| - 1] == t
            && LeftAlone(s.table[p], t, s'.table[p][..|s'.table[p]| - 1])
            && forall q: nat :: q < |s.table| && q != p ==> LeftAlone(s.table[q], t, s'.table[q]))
  {
    if s.stat[t] == Ready {
      assert s.stat[t := Ready] == s.stat;
      forall q: nat | q < |s.table|
        ensures LeftAlone(s.table[q], t, Remove(s, t).table[q])
      {
        QueueNoDup(s, q, t);
        WithoutLeaves(s.table[q], t);
      }
      var l := Remove(s, t).table[p];
      assert (l + [t])[..|l|] == l;
    }
  }

  // One lock less; rt_schedule runs exactly when it was the last.
  lemma UnlockOutcome(s: State, s': State)
    requires Inv(s) && Unlocked(s, s')
    ensures s'.nest == if s.nest > 0 then s.nest - 1 else 0
    ensures s.nest > 1 ==> s' == s.(nest := s.nest - 1)
    ensures s.nest <= 1 && CanRun(s) ==> BestRuns(s')
  {
    UnlockKeeps(s);
    if s.nest <= 1 {
      ScheduleOutcome(Unlock(s), s');
      ScheduleFrame(Unlock(s), s');
    }
  }

  // ---- round robin ----

  // The current thread and those behind it in its list.
  ghost function Circle(s: State): seq<nat>
    requires Shaped(s)
  {
    [s.cur] + s.table[s.prio[s.cur]]
  }

  // The current thread runs and nothing better is ready.
  ghost predicate OnTop(s: State) {
    Inv(s) && s.nest == 0 && s.stat[s.cur] == Running && forall q: nat :: q < s.prio[s.cur] ==> s.table[q] == []
  }

  // rt_thread_yield
  ghost predicate Yielded(s: State, s': State)
    requires Inv(s)
  {
    MarkYieldKeeps(s);
    Scheduled(MarkYield(s), s')
  }

  ghost function Rotated(c: seq<nat>): seq<nat>
    requires c != []
  {
    c[1..] + [c[0]]
  }

  // A yield moves the current thread behind the others of its priority.
  lemma YieldRotates(s: State, s': State)
    requires OnTop(s) && Yielded(s, s')
    ensures OnTop(s') && s'.prio == s.prio && Circle(s') == Rotated(Circle(s))
    ensures s'.prio[s'.cur] == s.prio[s.cur]
  {
    MarkYieldKeeps(s);
    var s1, p := MarkYield(s), s.prio[s.cur];
    if AnyReady(s1) {
      var b: nat :| IsBest(s1, b) && s' == SwitchTo(s1, b);
      SwitchKeeps(s1, b);
      if s.table[p] != [] {
        assert IsBest(s1, p);
        BestUnique(s1, p, b);
        var to := FirstOf(s1, p);
        assert s.table[p] == [to] + s.table[p][1..];
        assert Without(s.table[p] + [s.cur], to) == s.table[p][1..] + [s.cur];
      } else {
        assert Circle(s) == [s.cur];
      }
    }
  }

  // It also renews the time slice.
  lemma YieldRenews(s: State, s': State)
    requires Inv(s) && Yielded(s, s')
    ensures s'.slice == s.slice && s'.left == s.left[s.cur := s.slice[s.cur]]
  {
    MarkYieldKeeps(s);
    ScheduleFrame(MarkYield(s), s');
  }

  // The states of n calls of rt_thread_yield in a row.
  ghost predicate YieldRun(trace: seq<State>) {
    |trace| > 0 && OnTop(trace[0]) && forall k: nat :: k + 1 < |trace| ==> YieldAt(trace, k)
  }

  ghost predicate YieldAt(trace: seq<State>, k: nat) {
    k + 1 < |trace| && (OnTop(trace[k]) ==> Yielded(trace[k], trace[k + 1]))
  }

  ghost function Turned(c: seq<nat>, k: nat): seq<nat>
    requires k <= |c|
  {
    c[k..] + c[..k]
  }

  lemma {:induction false} YieldsTurn(trace: seq<State>, k: nat)
    requires YieldRun(trace) && k < |trace| && k <= |Circle(trace[0])|
    ensures OnTop(trace[k]) && Circle(trace[k]) == Turned(Circle(trace[0]), k)
    ensures trace[k].prio == trace[0].prio && trace[k].prio[trace[k].cur] == trace[0].prio[trace[0].cur]
  {
    var c := Circle(trace[0]);
    if k == 0 {
      assert Turned(c, 0) == c;
    } else {
      YieldsTurn(trace, k - 1);
      assert YieldAt(trace, k - 1);
      YieldRotates(trace[k - 1], trace[k]);
      assert Rotated(Turned(c, k - 1)) == Turned(c, k);
    }
  }

  // With n threads at the top priority that only yield, n yields let each run exactly once and
  // restore the order.
  lemma RoundRobin(trace: seq<State>)
    requires YieldRun(trace) && |trace| == |Circle(trace[0])| + 1
    ensures var c := Circle(trace[0]);
      && NoDup(c)
      && (forall k :: 0 <= k < |c| ==> trace[k].cur == c[k])
      && OnTop(trace[|c|]) && Circle(trace[|c|]) == c
  {
    var c, s := Circle(trace[0]), trace[0];
    QueueNoDup(s, s.prio[s.cur], s.cur);
    forall k | 0 <= k < |c|
      ensures trace[k].cur == c[k]
    {
      YieldsTurn(trace, k);
      assert Circle(trace[k])[0] == c[k];
    }
    YieldsTurn(trace, |c|);
    assert Turned(c, |c|) == c;
  }

  // ---- time slices ----

  // A tick counts the slice of the current thread down, in 32 bits; the one that uses it up renews
  // it and moves the thread behind the others of its priority.
  lemma TickOutcome(s: State, s': State)
    requires OnTop(s) && Ticked(s, s')
    ensures OnTop(s') && s'.prio == s.prio && s'.slice == s.slice && s'.prio[s'.cur] == s.prio[s.cur]
    ensures s.left[s.cur] == 1 ==> Circle(s') == Rotated(Circle(s)) && s'.left == s.left[s.cur := s.slice[s.cur]]
    ensures s.left[s.cur] > 1 ==> s' == s.(left := s.left[s.cur := s.left[s.cur] - 1])
    ensures s.left[s.cur] == 0 ==> s' == s.(left := s.left[s.cur := 0xFFFF_FFFF])
  {
    TickKeeps(s);
    if s.left[s.cur] == 1 {
      YieldRotates(s, s');
      YieldRenews(s, s');
    }
  }

  // The states of a stretch in which nothing but ticks happens.
  ghost predicate TickRun(trace: seq<State>) {
    |trace| > 0 && OnTop(trace[0]) && forall k: nat :: k + 1 < |trace| ==> TickAt(trace, k)
  }

  ghost predicate TickAt(trace: seq<State>, k: nat) {
    k + 1 < |trace| && (OnTop(trace[k]) ==> Ticked(trace[k], trace[k + 1]))
  }

  // All threads of the circle have their whole slice before them.
  ghost predicate Fresh(s: State)
    requires OnTop(s)
  {
    forall i :: 0 <= i < |Circle(s)| ==>
      var t := Circle(s)[i]; t < |s.left| == |s.slice| && s.left[t] == s.slice[t] > 0
  }

  // The ticks the first k threads have together.
  ghost function Slices(c: seq<nat>, slice: seq<nat>, k: nat): nat
    requires k <= |c|
  {
    if k == 0 then 0 else Slices(c, slice, k - 1) + if c[k - 1] < |slice| then slice[c[k - 1]] else 0
  }

  // The k-th thread of the circle of s0 has had j ticks.
  ghost predicate TurnOf(s0: State, s: State, k: nat, j: nat)
    requires OnTop(s0) && k <= |Circle(s0)|
  {
    && OnTop(s) && Circle(s) == Turned(Circle(s0), k)
    && s.prio == s0.prio && s.slice == s0.slice && s.prio[s.cur] == s0.prio[s0.cur]
    && j <= s0.slice[s.cur] && s.left == s0.left[s.cur := s0.slice[s.cur] - j]
  }

  // Each thread of the top priority in turn runs for exactly its slice.
  lemma {:induction false} TicksTurn(trace: seq<State>, k: nat, j: nat)
    requires TickRun(trace) && Fresh(trace[0]) && Within(trace[0], k, j)
    requires Slices(Circle(trace[0]), trace[0].slice, k) + j < |trace|
    ensures TurnOf(trace[0], trace[Slices(Circle(trace[0]), trace[0].slice, k) + j], k, j)
    decreases k, j
  {
    var s0, n := trace[0], Slices(Circle(trace[0]), trace[0].slice, k) + j;
    hide OnTop, Circle, Fresh, Within, TurnOf, Ticked, QueueOk, Inv;
    if k == 0 && j == 0 {
      FirstTurn(s0);
    } else {
      var (k1, j1) := Before(s0, k, j);
      BeforeSlices(s0, k, j);
      hide Slices, Before;
      TicksTurn(trace, k1, j1);
      TurnGoesOn(trace, n - 1, k1, j1);
    }
  }

  lemma TurnGoesOn(trace: seq<State>, n: nat, k: nat, j: nat)
    requires TickRun(trace) && Fresh(trace[0]) && Within(trace[0], k, j) && k < |Circle(trace[0])|
    requires n + 1 < |trace| && TurnOf(trace[0], trace[n], k, j)
    ensures if j + 1 < trace[0].slice[Circle(trace[0])[k]] then TurnOf(trace[0], trace[n + 1], k, j + 1)
            else TurnOf(trace[0], trace[n + 1], k + 1, 0)
  {
    assert TickAt(trace, n);
    TopAt(trace[0], trace[n], k, j);
    NextTurn(trace[0], trace[n], trace[n + 1], k, j);
    hide OnTop, Fresh, TurnOf, Ticked;
  }

  // There is a j-th tick of the k-th thread; or it is the end of the round.
  ghost predicate Within(s0: State, k: nat, j: nat)
    requires OnTop(s0)
  {
    k <= |Circle(s0)| && if k < |Circle(s0)| then Circle(s0)[k] < |s0.slice| && j < s0.slice[Circle(s0)[k]] else j == 0
  }

  // The tick before
  ghost function Before(s0: State, k: nat, j: nat): (nat, nat)
    requires OnTop(s0) && Fresh(s0) && Within(s0, k, j) && k + j > 0
  {
    if j > 0 then (k, j - 1) else (k - 1, s0.slice[Circle(s0)[k - 1]] - 1)
  }

  lemma BeforeSlices(s0: State, k: nat, j: nat)
    requires OnTop(s0) && Fresh(s0) && Within(s0, k, j) && k + j > 0
    ensures var (k1, j1), c := Before(s0, k, j), Circle(s0);
      && Within(s0, k1, j1) && k1 < |c| && (k1 < k || (k1 == k && j1 < j))
      && Slices(c, s0.slice, k1) + j1 + 1 == Slices(c, s0.slice, k) + j
      && (k, j) == if j1 + 1 < s0.slice[c[k1]] then (k1, j1 + 1) else (k1 + 1, 0)
  {
  }

  lemma FirstTurn(s0: State)
    requires OnTop(s0) && Fresh(s0)
    ensures TurnOf(s0, s0, 0, 0)
  {
    var c := Circle(s0);
    assert Turned(c, 0) == c;
    assert c[0] == s0.cur && s0.left[s0.cur := s0.slice[s0.cur]] == s0.left;
  }

  lemma TopAt(s0: State, s: State, k: nat, j: nat)
    requires OnTop(s0) && k <= |Circle(s0)| && TurnOf(s0, s, k, j)
    ensures OnTop(s)
  {
  }

  lemma NextTurn(s0: State, s: State, s': State, k: nat, j: nat)
    requires OnTop(s0) && Fresh(s0) && Within(s0, k, j) && k < |Circle(s0)| && TurnOf(s0, s, k, j) && Ticked(s, s')
    ensures if j + 1 < s0.slice[Circle(s0)[k]] then TurnOf(s0, s', k, j + 1) else TurnOf(s0, s', k + 1, 0)
  {
    hide Ticked, QueueOk;
    var c := Circle(s0);
    assert Circle(s)[0] == s.cur == c[k];
    TickOutcome(s, s');
    if j + 1 == s0.slice[c[k]] {
      assert Rotated(Turned(c, k)) == Turned(c, k + 1);
      TurnBegins(s0, s', k + 1);
    }
    hide OnTop;
  }

  // Who gets the processor has a whole slice.
  lemma TurnBegins(s0: State, s: State, k: nat)
    requires OnTop(s0) && Fresh(s0) && k <= |Circle(s0)| && OnTop(s) && Circle(s) == Turned(Circle(s0), k)
    ensures s.cur < |s0.left| == |s0.slice| && s0.left[s.cur := s0.slice[s.cur]] == s0.left
  {
    var c := Circle(s0);
    assert Circle(s)[0] == s.cur == if k < |c| then c[k] else c[0];
  }

  // While nothing but ticks happens, the threads of the top priority share the processor: the k-th
  // one runs from the tick that uses up the slice of the one before it until it has used up its
  // own, ...
  lemma TimeSlicing(trace: seq<State>, k: nat, j: nat)
    requires TickRun(trace) && Fresh(trace[0])
    requires |trace| > Slices(Circle(trace[0]), trace[0].slice, |Circle(trace[0])|)
    requires k < |Circle(trace[0])| && Within(trace[0], k, j)
    ensures var c, s0 := Circle(trace[0]), trace[0];
      Slices(c, s0.slice, k) + j < |trace| && trace[Slices(c, s0.slice, k) + j].cur == c[k]
  {
    var s0, c := trace[0], Circle(trace[0]);
    SlicesGrow(c, s0.slice, k + 1, |c|);
    TicksTurn(trace, k, j);
    assert Circle(trace[Slices(c, s0.slice, k) + j])[0] == c[k];
  }

  // ... and after a round everything is as it was.
  lemma RoundRestores(trace: seq<State>)
    requires TickRun(trace) && Fresh(trace[0])
    requires |trace| == Slices(Circle(trace[0]), trace[0].slice, |Circle(trace[0])|) + 1
    ensures var s := trace[|trace| - 1];
      OnTop(s) && Circle(s) == Circle(trace[0]) && s.left == trace[0].left && s.prio == trace[0].prio
  {
    var s0, s, c := trace[0], trace[|trace| - 1], Circle(trace[0]);
    TicksTurn(trace, |c|, 0);
    TopAt(s0, s, |c|, 0);
    assert Turned(c, |c|) == c;
    assert Circle(s)[0] == s.cur && c[0] == s0.cur;
    assert s0.left[s0.cur := s0.slice[s0.cur]] == s0.left;
  }

  lemma {:induction false} SlicesGrow(c: seq<nat>, slice: seq<nat>, k: nat, n: nat)
    requires k <= n <= |c|
    ensures Slices(c, slice, k) <= Slices(c, slice, n)
    decreases n
  {
    if k < n {
      SlicesGrow(c, slice, k, n - 1);
    }
  }

  // ---- the kernel code ----

  class Scheduler {
    const wide: bool               // RT_THREAD_PRIORITY_MAX > 32
    const table: array<seq<nat>>   // rt_thread_priority_table
    var group: Bits                // rt_thread_ready_priority_group
    var ready: seq<Bits>           // rt_thread_ready_table
    var stat: seq<Stat>
    var prio: seq<nat>             // current_priority
    var yielding: seq<bool>
    var cur: nat                   // rt_current_thread
    var nest: nat                  // rt_scheduler_lock_nest
    var base: seq<nat>             // init_priority
    var slice: seq<nat>            // init_tick
    var left: seq<nat>             // remaining_tick

    ghost function View(): State
      reads this, table
    {
      State(table[..], stat, prio, yielding, cur, nest, base, slice, left)
    }

    function Map(): Bitmap
      reads `group, `ready
    {
      Bitmap(wide, group, ready)
    }

    // A bit is set exactly for the priorities with a non-empty list.
    ghost predicate BitsMatch()
      reads `group, `ready, table
    {
      Agrees(table[..], Map())
    }

    ghost predicate Valid()
      reads this, table
    {
      Inv(View()) && BitsMatch()
    }

    // rt_system_scheduler_init, and rt_system_scheduler_start with thread 0 the one started so far
    constructor (max: nat, base: seq<nat>, slice: seq<nat>)
      requires 0 < max <= 256 && 0 < |base| == |slice| && forall t :: 0 <= t < |base| ==> base[t] < max
      ensures Valid() && wide == (max > 32) && table.Length == max && fresh(table)
      ensures cur == 0 && stat[0] == Running && (forall t :: 0 < t < |stat| ==> stat[t] == Init) && nest == 0
      ensures prio == this.base == base && left == this.slice == slice
    {
      wide := max > 32;
      table := new seq<nat>[max](_ => []);
      group, ready := Zeros(32), seq(32, _ => Zeros(8));
      stat := seq(|base|, i => if i == 0 then Running else Init);
      prio, this.base, this.slice, left := base, base, slice, slice;
      yielding := seq(|base|, _ => false);
      cur, nest := 0, 0;
      new;
      forall p: nat | p < max
        ensures QueueOk(View(), p)
      {
        assert table[p] == [];
      }
    }

    // rt_schedule_insert_thread
    method InsertThread(t: nat)
      requires Shaped(View()) && BitsMatch() && t < |stat|
      modifies `stat, `group, `ready, table
      ensures View() == Insert(old(View()), t) && BitsMatch()
    {
      if t == cur {
        stat := stat[t := Running];
        return;
      }
      stat := stat[t := Ready];
      var p := prio[t];
      InsertAgrees(table[..], Map(), p, t);
      ghost var table' := table[..][p := table[p] + [t]];
      table[p] := table[p] + [t];
      assert table[..] == table';
      SetMark(p);
    }

    method SetMark(p: nat)
      requires BitmapOk(Map()) && PrioOk(wide, p)
      modifies `group, `ready
      ensures Map() == Mark(old(Map()), p)
    {
      if wide {
        ready := ready[p / 8 := ready[p / 8][p % 8 := true]];
        group := group[p / 8 := true];
      } else {
        group := group[p := true];
      }
    }

    // rt_schedule_remove_thread
    method RemoveThread(t: nat)
      requires Shaped(View()) && BitsMatch() && t < |stat|
      modifies `group, `ready, table
      ensures View() == Remove(old(View()), t) && BitsMatch()
    {
      var p := prio[t];
      RemoveAgrees(table[..], Map(), p, t);
      ghost var table' := table[..][p := Without(table[p], t)];
      table[p] := Without(table[p], t);
      assert table[..] == table';
      if table[p] == [] {
        ClearMark(p);
      }
    }

    method ClearMark(p: nat)
      requires BitmapOk(Map()) && PrioOk(wide, p)
      modifies `group, `ready
      ensures Map() == Unmark(old(Map()), p)
    {
      if wide {
        ready := ready[p / 8 := ready[p / 8][p % 8 := false]];
        if !Any(ready[p / 8]) {
          group := group[p / 8 := false];
        }
      } else {
        group := group[p := false];
      }
    }

    // _get_highest_priority_thread
    method GetHighest() returns (to: nat, p: nat)
      requires Valid() && Any(group)
      ensures IsBest(View(), p) && to == FirstOf(View(), p)
    {
      BestMarked(View(), Map());
      FfsIsLowest(group);
      var number := Ffs(group) - 1;
      p := number;
      if wide {
        p := number * 8 + Ffs(ready[number] + Zeros(24)) - 1;
      }
      to := table[p][0];
    }

    // rt_schedule
    method Schedule()
      requires Valid()
      modifies this, table
      ensures Valid() && Scheduled(old(View()), View())
    {
      hide QueueOk, Agrees;
      MarkedMeansReady(View(), Map());
      if nest == 0 && Any(group) {
        var to, p := GetHighest();
        SwitchKeeps(View(), p);
        ghost var s' := SwitchTo(View(), p);
        var insert := false;
        if stat[cur] == Running {
          if prio[cur] < p || (prio[cur] == p && !yielding[cur]) {
            to := cur;
          } else {
            insert := true;
          }
          yielding := yielding[cur := false];
        }
        if to != cur {
          Switch(to, insert);
        } else {
          KeepCurrent();
        }
        assert View() == s';
      }
    }

    // from_thread is put back if it can still run, and to_thread taken out and started.
    method Switch(to: nat, insert: bool)
      requires Shaped(View()) && BitsMatch() && to < |stat| && to != cur && stat[to] == Ready
      modifies this, table
      ensures Shaped(View()) && BitsMatch()
      ensures var s2 := old(View()).(cur := to);
        var s3 := if insert then Insert(s2, old(cur)) else s2;
        View() == Remove(s3, to).(stat := s3.stat[to := Running])
    {
      var from := cur;
      cur := to;
      if insert {
        InsertThread(from);
      }
      RemoveThread(to);
      stat := stat[to := Running];
    }

    // The current thread goes on.
    method KeepCurrent()
      requires Inv(View()) && BitsMatch() && stat[cur] == Running
      modifies this, table
      ensures BitsMatch() && View() == old(View())
    {
      ghost var s := View();
      QueueNoDup(s, prio[cur], cur);
      WithoutMembers(table[prio[cur]], cur);
      RemoveThread(cur);
      stat := stat[cur := Running];
      assert View() == s;
    }

    // rt_thread_yield
    method Yield()
      requires Valid()
      modifies this, table
      ensures Valid() && Yielded(old(View()), View())
    {
      MarkYieldKeeps(View());
      left := left[cur := slice[cur]];
      yielding := yielding[cur := true];
      Schedule();
    }

    // rt_thread_suspend
    method ThreadSuspend(t: nat) returns (r: Err)
      requires Valid() && t < |stat|
      modifies this, table
      ensures Valid() && (View(), r) == Suspend(old(View()), t)
    {
      SuspendKeeps(View(), t);
      if stat[t] != Ready && stat[t] != Running {
        return Error;
      }
      RemoveThread(t);
      stat := stat[t := Suspended];
      return Ok;
    }

    // rt_list_remove of a thread's list node, as rt_thread_resume and rt_thread_timeout do it: the
    // bitmap is not looked after.
    method UnlinkThread(t: nat)
      requires Shaped(View()) && t < |stat|
      modifies table
      ensures View() == Remove(old(View()), t) && Map() == old(Map())
    {
      var p := prio[t];
      ghost var table' := table[..][p := Without(table[p], t)];
      table[p] := Without(table[p], t);
      assert table[..] == table';
    }

    // rt_thread_resume, undisturbed
    method ThreadResume(t: nat) returns (r: Err)
      requires Valid() && t < |stat|
      modifies this, table
      ensures Valid() && (View(), r) == Resume(old(View()), t)
    {
      ResumeKeeps(View(), t);
      if stat[t] != Suspended {
        return Error;
      }
      UnlinkSame(View(), t);
      UnlinkThread(t);
      InsertThread(t);
      return Ok;
    }

    // rt_thread_timeout
    method ThreadTimeout(t: nat)
      requires Valid() && t < |stat| && stat[t] == Suspended
      modifies this, table
      ensures Valid() && ResumedThenScheduled(old(View()), t, View())
    {
      ResumeKeeps(View(), t);
      UnlinkSame(View(), t);
      UnlinkThread(t);
      InsertThread(t);
      Schedule();
    }

    // rt_thread_startup, undisturbed
    method ThreadStartup(t: nat)
      requires Valid() && t < |stat| && stat[t] == Init
      modifies this, table
      ensures Valid() && Started(old(View()), t, View())
    {
      StartupKeeps(View(), t);
      prio := prio[t := base[t]];
      stat := stat[t := Suspended];
      yielding := yielding[t := false];
      BegunKeeps(old(View()), t);
      UnlinkSame(View(), t);
      UnlinkThread(t);
      InsertThread(t);
      Schedule();
    }

    // rt_thread_control with RT_THREAD_CTRL_CHANGE_PRIORITY
    method ThreadChangePriority(t: nat, p: nat)
      requires Valid() && t < |stat| && p < table.Length
      modifies this, table
      ensures Valid() && View() == ChangePriority(old(View()), t, p)
    {
      ChangePriorityKeeps(View(), t, p);
      if stat[t] == Ready {
        RemoveThread(t);
        prio := prio[t := p];
        InsertThread(t);
      } else {
        prio := prio[t := p];
      }
    }

    // rt_tick_increase, up to the timers
    method TickIncrease()
      requires Valid()
      modifies this, table
      ensures Valid() && Ticked(old(View()), View())
    {
      TickKeeps(View());
      left := left[cur := if left[cur] == 0 then WORD_RANGE - 1 else left[cur] - 1];
      if left[cur] == 0 {
        left := left[cur := slice[cur]];
        yielding := yielding[cur := true];
        assert View() == Tick(old(View())).0;
        Schedule();
      }
    }

    method EnterCritical()
      requires Valid()
      modifies `nest
      ensures Valid() && View() == old(View()).(nest := old(nest) + 1)
    {
      nest := nest + 1;
      SameQueues(old(View()), View());
    }

    method ExitCritical()
      requires Valid()
      modifies this, table
      ensures Valid() && Unlocked(old(View()), View())
    {
      UnlockKeeps(View());
      if nest <= 1 {
        nest := 0;
        Schedule();
      } else {
        nest := nest - 1;
      }
    }
  }

  ghost predicate Started(s: State, t: nat, s': State)
    requires Inv(s) && t < |s.stat| && s.stat[t] == Init
  {
    StartupKeeps(s, t);
    Scheduled(Startup(s, t), s')
  }

  ghost predicate Ticked(s: State, s': State)
    requires Inv(s)
  {
    TickKeeps(s);
    if Tick(s).1 then Scheduled(Tick(s).0, s') else s' == Tick(s).0
  }

  ghost function Unlock(s: State): State {
    s.(nest := if s.nest > 0 then s.nest - 1 else 0)
  }

  lemma UnlockKeeps(s: State)
    requires Inv(s)
    ensures Inv(Unlock(s))
  {
    SameQueues(s, Unlock(s));
  }

  ghost predicate Unlocked(s: State, s': State)
    requires Inv(s)
  {
    UnlockKeeps(s);
    if Unlock(s).nest == 0 then Scheduled(Unlock(s), s') else s' == Unlock(s)
  }

  // The bitmap agrees with the lists.
  ghost predicate Agrees(table: seq<seq<nat>>, b: Bitmap) {
    && BitmapOk(b) && |table| <= (if b.wide then 256 else 32)
    && forall p: nat :: PrioOk(b.wide, p) ==> (Marked(b, p) <==> p < |table| && table[p] != [])
  }

  lemma InsertAgrees(table: seq<seq<nat>>, b: Bitmap, p: nat, t: nat)
    requires Agrees(table, b) && p < |table|
    ensures Agrees(table[p := table[p] + [t]], Mark(b, p))
  {
    MarkOk(b, p);
  }

  lemma RemoveAgrees(table: seq<seq<nat>>, b: Bitmap, p: nat, t: nat)
    requires Agrees(table, b) && p < |table|
    ensures var l := Without(table[p], t);
      Agrees(table[p := l], if l == [] then Unmark(b, p) else b)
  {
    UnmarkOk(b, p);
    assert table[p] == [] ==> Without(table[p], t) == [];
  }

  lemma MarkedMeansReady(s: State, b: Bitmap)
    requires Agrees(s.table, b)
    ensures Any(b.group) <==> AnyReady(s)
  {
    if AnyReady(s) {
      var p: nat :| p < |s.table| && s.table[p] != [];
      HighestIsBest(b, p);
    } else {
      NothingMarked(b);
    }
  }

  lemma BestMarked(s: State, b: Bitmap)
    requires Agrees(s.table, b) && Any(b.group)
    ensures Highest(b) >= 0 && IsBest(s, Highest(b))
  {
    MarkedMeansReady(s, b);
    var p: nat :| p < |s.table| && s.table[p] != [];
    HighestIsBest(b, p);
    var h := Highest(b);
    forall q: nat | q < h
      ensures s.table[q] == []
    {
      if s.table[q] != [] {
        HighestIsBest(b, q);
      }
    }
  }
}
