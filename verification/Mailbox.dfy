// The mailbox of rt-thread/src/ipc.c: a ring of `size` mails with two suspend lists. Each
// region with interrupts disabled is one step; a sender or receiver that was resumed starts
// over with the same test of the ring.
module Mailboxes {
  import opened Lists
  import opened Waiters

  const ENTRY_MAX := 0xFFFF

  datatype Err = Ok | Error | TimedOut | Full | Suspended

  // `recvWoken` and `sendWoken` are the threads resumed by a sender or receiver that have not
  // run again; `timed` the suspended threads whose timer runs.
  datatype State = State(pool: seq<int>, inOffset: nat, outOffset: nat, entry: nat,
                         recvWait: seq<nat>, sendWait: seq<nat>,
                         recvWoken: set<nat>, sendWoken: set<nat>, timed: set<nat>)

  // An offset k places behind `from` in a ring of n.
  function Ring(from: nat, k: nat, n: nat): nat {
    if from + k < n then from + k else from + k - n
  }

  // The mails in the order they will be received.
  ghost function Mails(s: State): seq<int>
    requires s.entry <= |s.pool| && (s.pool != [] ==> s.outOffset < |s.pool|)
  {
    seq(s.entry, k requires 0 <= k < s.entry => s.pool[Ring(s.outOffset, k, |s.pool|)])
  }

  ghost predicate RingOk(s: State) {
    && |s.pool| <= ENTRY_MAX && s.entry <= |s.pool|
    && (if s.pool == [] then s.inOffset == s.outOffset == 0
        else s.outOffset < |s.pool| && s.inOffset == Ring(s.outOffset, s.entry, |s.pool|))
  }

  ghost predicate Apart(s: State) {
    TwoSided(s.recvWait, s.sendWait, s.recvWoken, s.sendWoken, s.timed)
  }

  ghost predicate Inv(s: State) {
    && RingOk(s) && Apart(s)
    && NoLostWakeup(s.entry, s.recvWait, s.recvWoken)
    && NoLostWakeup(|s.pool| - s.entry, s.sendWait, s.sendWoken)
  }

  ghost predicate Running(s: State, t: nat) { t !in s.recvWait && t !in s.sendWait }

  // ---- the steps ----

  // The mail goes into the ring and the first waiting receiver is resumed.
  ghost function PutMail(s: State, mail: int): State
    requires s.inOffset < |s.pool|
  {
    s.(pool := s.pool[s.inOffset := mail],
       inOffset := if s.inOffset + 1 >= |s.pool| then 0 else s.inOffset + 1,
       entry := s.entry + 1,
       recvWait := Rest(s.recvWait), recvWoken := s.recvWoken + First(s.recvWait),
       timed := s.timed - First(s.recvWait))
  }

  // A mail leaves the ring and the first waiting sender is resumed.
  ghost function GetMail(s: State): State
    requires s.entry > 0
  {
    s.(outOffset := if s.outOffset + 1 >= |s.pool| then 0 else s.outOffset + 1,
       entry := s.entry - 1,
       sendWait := Rest(s.sendWait), sendWoken := s.sendWoken + First(s.sendWait),
       timed := s.timed - First(s.sendWait))
  }

  // rt_mb_send_wait of thread t from the test of the ring on, with `time` left to wait.
  ghost function Send(s: State, prio: seq<nat>, flag: Flag, t: nat, mail: int, time: int): (State, Err)
    requires s.entry <= |s.pool| && (s.pool != [] ==> s.inOffset < |s.pool|)
  {
    var s0 := s.(sendWoken := s.sendWoken - {t});
    if s.entry == |s.pool| then
      if time == 0 then (s0, Full)
      else (s0.(sendWait := Suspend(s.sendWait, prio, t, flag),
                timed := SetTimer(s.timed, t, time)), Suspended)
    else (PutMail(s0, mail), Ok)
  }

  // rt_mb_recv of thread t from the test of the ring on.
  ghost function Recv(s: State, prio: seq<nat>, flag: Flag, t: nat, time: int): (State, Err, int)
    requires s.entry <= |s.pool| && (s.pool != [] ==> s.outOffset < |s.pool|)
  {
    var s0 := s.(recvWoken := s.recvWoken - {t});
    if s.entry == 0 then
      if time == 0 then (s0, TimedOut, 0)
      else (s0.(recvWait := Suspend(s.recvWait, prio, t, flag),
                timed := SetTimer(s.timed, t, time)), Suspended, 0)
    else (GetMail(s0), Ok, s.pool[s.outOffset])
  }

  // rt_thread_timeout of a suspended thread, which then returns from its call.
  ghost function Timeout(s: State, t: nat): State {
    s.(recvWait := Without(s.recvWait, t), sendWait := Without(s.sendWait, t), timed := s.timed - {t})
  }

  // RT_IPC_CMD_RESET: every waiter is resumed with an error and the ring emptied.
  ghost function Reset(s: State): State {
    s.(recvWait := [], sendWait := [], timed := {}, entry := 0, inOffset := 0, outOffset := 0)
  }

  // ---- each step keeps the invariant and acts on the mails as a FIFO queue ----

  lemma MailAppended(s: State, s': State, mail: int)
    requires RingOk(s) && s.entry < |s.pool| && s'.entry == s.entry + 1 && s'.outOffset == s.outOffset
    requires s'.pool == s.pool[s.inOffset := mail]
    ensures Mails(s') == Mails(s) + [mail]
  {
  }

  lemma MailRemoved(s: State, s': State)
    requires RingOk(s) && 0 < s.entry && s'.entry == s.entry - 1 && s'.pool == s.pool
    requires s'.outOffset == if s.outOffset + 1 >= |s.pool| then 0 else s.outOffset + 1
    ensures Mails(s) == [s.pool[s.outOffset]] + Mails(s')
  {
  }

  lemma PutKeeps(s: State, t: nat, mail: int)
    requires Inv(s) && Running(s, t) && s.entry < |s.pool|
    ensures var s' := PutMail(s.(sendWoken := s.sendWoken - {t}), mail);
      Inv(s') && Mails(s') == Mails(s) + [mail]
  {
    hide RingOk, Apart, NoLostWakeup, Mails;
    PutRing(s, t, mail);
    PutLines(s, t, mail);
  }

  lemma PutRing(s: State, t: nat, mail: int)
    requires RingOk(s) && s.entry < |s.pool|
    ensures var s' := PutMail(s.(sendWoken := s.sendWoken - {t}), mail);
      RingOk(s') && Mails(s') == Mails(s) + [mail]
  {
    MailAppended(s, PutMail(s.(sendWoken := s.sendWoken - {t}), mail), mail);
  }

  lemma PutLines(s: State, t: nat, mail: int)
    requires Inv(s) && Running(s, t) && s.entry < |s.pool|
    ensures var s' := PutMail(s.(sendWoken := s.sendWoken - {t}), mail);
      && Apart(s')
      && NoLostWakeup(s'.entry, s'.recvWait, s'.recvWoken)
      && NoLostWakeup(|s'.pool| - s'.entry, s'.sendWait, s'.sendWoken)
  {
    FirstLeaves(s.recvWait, s.sendWait, s.recvWoken, s.sendWoken, s.timed, {t});
    WakeFirst(s.entry, s.recvWait, s.recvWoken);
    TakeUnit(|s.pool| - s.entry, s.sendWait, s.sendWoken, t);
    hide NoLostWakeup, TwoSided;
  }

  lemma SendKeeps(s: State, prio: seq<nat>, flag: Flag, t: nat, mail: int, time: int)
    requires Inv(s) && Running(s, t) && t !in s.recvWoken
    ensures var (s', r) := Send(s, prio, flag, t, mail, time);
      && Inv(s')
      && (r == Ok <==> |Mails(s)| < |s.pool|)
      && Mails(s') == (if r == Ok then Mails(s) + [mail] else Mails(s))
  {
    var (s', r) := Send(s, prio, flag, t, mail, time);
    if r == Ok {
      PutKeeps(s, t, mail);
    } else {
      SuspendMembers(s.sendWait, prio, t, flag);
      assert s.entry == |s.pool|;
      assert Mails(s') == Mails(s);
    }
  }

  lemma GetKeeps(s: State, t: nat)
    requires Inv(s) && Running(s, t) && s.entry > 0
    ensures var s' := GetMail(s.(recvWoken := s.recvWoken - {t}));
      Inv(s') && Mails(s) == [s.pool[s.outOffset]] + Mails(s')
  {
    var s' := GetMail(s.(recvWoken := s.recvWoken - {t}));
    OtherSide(s.recvWait, s.sendWait, s.recvWoken, s.sendWoken, s.timed);
    FirstLeaves(s.sendWait, s.recvWait, s.sendWoken, s.recvWoken, s.timed, {t});
    OtherSide(s'.recvWait, s'.sendWait, s'.recvWoken, s'.sendWoken, s'.timed);
    WakeFirst(|s.pool| - s.entry, s.sendWait, s.sendWoken);
    TakeUnit(s.entry, s.recvWait, s.recvWoken, t);
    MailRemoved(s, s');
    hide NoLostWakeup, TwoSided, Mails;
  }

  lemma RecvKeeps(s: State, prio: seq<nat>, flag: Flag, t: nat, time: int)
    requires Inv(s) && Running(s, t) && t !in s.sendWoken
    ensures var (s', r, mail) := Recv(s, prio, flag, t, time);
      && Inv(s')
      && (r == Ok <==> Mails(s) != [])
      && (if r == Ok then Mails(s) == [mail] + Mails(s') else Mails(s') == Mails(s))
  {
    var (s', r, mail) := Recv(s, prio, flag, t, time);
    if s.entry > 0 {
      GetKeeps(s, t);
    } else {
      SuspendMembers(s.recvWait, prio, t, flag);
      assert Mails(s') == Mails(s);
    }
  }

  lemma SendKeepsInv(s: State, prio: seq<nat>, flag: Flag, t: nat, mail: int, time: int)
    requires Inv(s) && Running(s, t) && t !in s.recvWoken
    ensures Inv(Send(s, prio, flag, t, mail, time).0)
  {
    SendKeeps(s, prio, flag, t, mail, time);
  }

  lemma RecvKeepsInv(s: State, prio: seq<nat>, flag: Flag, t: nat, time: int)
    requires Inv(s) && Running(s, t) && t !in s.sendWoken
    ensures Inv(Recv(s, prio, flag, t, time).0)
  {
    RecvKeeps(s, prio, flag, t, time);
  }

  lemma TimeoutKeeps(s: State, t: nat)
    requires Inv(s) && t in s.timed
    ensures Inv(Timeout(s, t)) && Mails(Timeout(s, t)) == Mails(s)
  {
    WithoutMembers(s.recvWait, t);
    WithoutMembers(s.sendWait, t);
    WithoutNoDup(s.recvWait, t);
    WithoutNoDup(s.sendWait, t);
    assert Mails(Timeout(s, t)) == Mails(s);
  }

  lemma ResetKeeps(s: State)
    requires Inv(s)
    ensures Inv(Reset(s)) && Mails(Reset(s)) == []
  {
  }

  // ---- what each step comes to ----

  // A send finds room, and then the first waiting receiver is resumed; else it gives up at once or
  // waits in the senders' line.
  lemma SendOutcome(s: State, prio: seq<nat>, flag: Flag, t: nat, mail: int, time: int)
    requires Inv(s) && Running(s, t) && t !in s.recvWoken
    ensures var (s', r) := Send(s, prio, flag, t, mail, time);
      && (r == Ok <==> s.entry < |s.pool|)
      && (r == Full <==> s.entry == |s.pool| && time == 0) && (r == Suspended <==> s.entry == |s.pool| && time != 0)
      && (forall x :: x in s'.recvWoken <==> x in s.recvWoken || (r == Ok && x in s.recvWait && x !in s'.recvWait))
      && (forall x :: x in s'.sendWoken <==> x in s.sendWoken && x != t)
      && (if r == Ok then FirstResumed(s.recvWait, s.timed, s'.recvWait, s'.timed) else s'.recvWait == s.recvWait)
      && (if r == Suspended then t in s'.sendWait && Joined(s.sendWait, s.timed, prio, flag, t, time, s'.sendWait, s'.timed)
          else s'.sendWait == s.sendWait)
      && (r == Full ==> s'.timed == s.timed)
  {
    SuspendJoins(s.sendWait, s.timed, prio, flag, t, time);
    HeadOnce(s.recvWait);
  }

  // A receive finds a mail, and then the first waiting sender is resumed; else it gives up at once
  // or waits in the receivers' line.
  lemma RecvOutcome(s: State, prio: seq<nat>, flag: Flag, t: nat, time: int)
    requires Inv(s) && Running(s, t) && t !in s.sendWoken
    ensures var (s', r, _) := Recv(s, prio, flag, t, time);
      && (r == Ok <==> s.entry > 0)
      && (r == TimedOut <==> s.entry == 0 && time == 0) && (r == Suspended <==> s.entry == 0 && time != 0)
      && (forall x :: x in s'.sendWoken <==> x in s.sendWoken || (r == Ok && x in s.sendWait && x !in s'.sendWait))
      && (forall x :: x in s'.recvWoken <==> x in s.recvWoken && x != t)
      && (if r == Ok then FirstResumed(s.sendWait, s.timed, s'.sendWait, s'.timed) else s'.sendWait == s.sendWait)
      && (if r == Suspended then t in s'.recvWait && Joined(s.recvWait, s.timed, prio, flag, t, time, s'.recvWait, s'.timed)
          else s'.recvWait == s.recvWait)
      && (r == TimedOut ==> s'.timed == s.timed)
  {
    SuspendJoins(s.recvWait, s.timed, prio, flag, t, time);
    HeadOnce(s.sendWait);
  }

  lemma TimeoutOutcome(s: State, t: nat)
    requires Inv(s) && t in s.timed
    ensures var s' := Timeout(s, t);
      && LeftAlone(s.recvWait, t, s'.recvWait) && LeftAlone(s.sendWait, t, s'.sendWait) && Running(s', t)
      && (forall x :: x in s'.timed <==> x in s.timed && x != t)
      && s' == s.(recvWait := s'.recvWait, sendWait := s'.sendWait, timed := s'.timed)
  {
    WithoutLeaves(s.recvWait, t);
    WithoutLeaves(s.sendWait, t);
  }

  // ---- runs ----

  datatype Event = DoSend(t: nat, mail: int, time: int) | DoRecv(t: nat, time: int) | DoTimeout(t: nat) | DoReset

  // A thread that is not suspended may call in; one that was resumed goes on with its call.
  ghost predicate Enabled(s: State, e: Event) {
    match e
    case DoSend(t, _, _) => Running(s, t) && t !in s.recvWoken
    case DoRecv(t, _) => Running(s, t) && t !in s.sendWoken
    case DoTimeout(t) => t in s.timed
    case DoReset => true
  }

  ghost function Next(s: State, prio: seq<nat>, flag: Flag, e: Event): State
    requires RingOk(s)
  {
    match e
    case DoSend(t, mail, time) => Send(s, prio, flag, t, mail, time).0
    case DoRecv(t, time) => Recv(s, prio, flag, t, time).0
    case DoTimeout(t) => Timeout(s, t)
    case DoReset => Reset(s)
  }

  // The steps are defined on states that satisfy the invariant; RunIsFifo shows that all do.
  ghost predicate IsStep(s: State, prio: seq<nat>, flag: Flag, e: Event, s': State) {
    Inv(s) ==> Enabled(s, e) && s' == Next(s, prio, flag, e)
  }

  ghost function Init(pool: seq<int>): State {
    State(pool, 0, 0, 0, [], [], {}, {}, {})
  }

  lemma InitOk(pool: seq<int>)
    requires |pool| <= ENTRY_MAX
    ensures Inv(Init(pool)) && Mails(Init(pool)) == []
  {
  }

  // A run from the state rt_mb_init leaves behind; trace[k] is the state before event k.
  ghost predicate IsRun(prio: seq<nat>, flag: Flag, trace: seq<State>, events: seq<Event>) {
    && |trace| == |events| + 1
    && |trace[0].pool| <= ENTRY_MAX && trace[0] == Init(trace[0].pool)
    && forall k: nat :: k < |events| ==> StepAt(prio, flag, trace, events, k)
  }

  ghost predicate StepAt(prio: seq<nat>, flag: Flag, trace: seq<State>, events: seq<Event>, k: nat) {
    k < |events| && k + 1 < |trace| && IsStep(trace[k], prio, flag, events[k], trace[k + 1])
  }

  ghost function Accepted(s: State, prio: seq<nat>, flag: Flag, e: Event): seq<int> {
    if RingOk(s) && e.DoSend? && Send(s, prio, flag, e.t, e.mail, e.time).1 == Ok then [e.mail] else []
  }

  ghost function Delivered(s: State, prio: seq<nat>, flag: Flag, e: Event): seq<int> {
    if RingOk(s) && e.DoRecv? && Recv(s, prio, flag, e.t, e.time).1 == Ok
    then [Recv(s, prio, flag, e.t, e.time).2] else []
  }

  lemma SendStep(s: State, prio: seq<nat>, flag: Flag, e: Event)
    requires Inv(s) && Enabled(s, e) && e.DoSend?
    ensures Inv(Next(s, prio, flag, e)) && Mails(Next(s, prio, flag, e)) == Mails(s) + Accepted(s, prio, flag, e)
  {
    SendKeeps(s, prio, flag, e.t, e.mail, e.time);
    assert Mails(s) + [] == Mails(s);
  }

  lemma RecvStep(s: State, prio: seq<nat>, flag: Flag, e: Event)
    requires Inv(s) && Enabled(s, e) && e.DoRecv?
    ensures Inv(Next(s, prio, flag, e)) && Mails(s) == Delivered(s, prio, flag, e) + Mails(Next(s, prio, flag, e))
  {
    RecvKeeps(s, prio, flag, e.t, e.time);
    assert [] + Mails(s) == Mails(s);
  }

  lemma StepKeeps(s: State, prio: seq<nat>, flag: Flag, e: Event)
    requires Inv(s) && Enabled(s, e)
    ensures var s' := Next(s, prio, flag, e);
      && Inv(s')
      && (if e.DoReset? then Mails(s') == []
          else Mails(s) + Accepted(s, prio, flag, e) == Delivered(s, prio, flag, e) + Mails(s'))
  {
    assert Mails(s) + [] == Mails(s);
    if e.DoSend? {
      SendStep(s, prio, flag, e);
    } else if e.DoRecv? {
      RecvStep(s, prio, flag, e);
    } else if e.DoTimeout? {
      TimeoutKeeps(s, e.t);
    } else {
      ResetKeeps(s);
    }
  }

  // The mails accepted, and those received, since the last reset before event k.
  ghost function Sent(prio: seq<nat>, flag: Flag, trace: seq<State>, events: seq<Event>, k: nat): seq<int>
    requires k <= |events| < |trace|
  {
    if k == 0 || events[k - 1].DoReset? then []
    else Sent(prio, flag, trace, events, k - 1) + Accepted(trace[k - 1], prio, flag, events[k - 1])
  }

  ghost function Received(prio: seq<nat>, flag: Flag, trace: seq<State>, events: seq<Event>, k: nat): seq<int>
    requires k <= |events| < |trace|
  {
    if k == 0 || events[k - 1].DoReset? then []
    else Received(prio, flag, trace, events, k - 1) + Delivered(trace[k - 1], prio, flag, events[k - 1])
  }

  lemma FifoStep(prio: seq<nat>, flag: Flag, s: State, e: Event, s': State, sent: seq<int>, got: seq<int>)
    requires Inv(s) && IsStep(s, prio, flag, e, s') && sent == got + Mails(s)
    ensures Inv(s')
    ensures if e.DoReset? then Mails(s') == []
            else sent + Accepted(s, prio, flag, e) == got + Delivered(s, prio, flag, e) + Mails(s')
  {
    StepKeeps(s, prio, flag, e);
    if !e.DoReset? {
      Regroup(got, Mails(s), Accepted(s, prio, flag, e), Delivered(s, prio, flag, e), Mails(s'));
    }
  }

  lemma Regroup(got: seq<int>, mails: seq<int>, acc: seq<int>, del: seq<int>, mails': seq<int>)
    requires mails + acc == del + mails'
    ensures got + mails + acc == got + del + mails'
  {
    assert got + mails + acc == got + (mails + acc);
    assert got + (del + mails') == got + del + mails';
  }

  // In every reachable state no wakeup is lost, and the mails received followed by those in
  // the ring are exactly the mails accepted, in order.
  lemma {:induction false} RunIsFifo(prio: seq<nat>, flag: Flag, trace: seq<State>, events: seq<Event>, k: nat)
    requires IsRun(prio, flag, trace, events) && k <= |events|
    ensures Inv(trace[k])
    ensures Sent(prio, flag, trace, events, k) == Received(prio, flag, trace, events, k) + Mails(trace[k])
  {
    if k == 0 {
      InitOk(trace[0].pool);
    } else {
      RunIsFifo(prio, flag, trace, events, k - 1);
      assert StepAt(prio, flag, trace, events, k - 1);
      FifoStep(prio, flag, trace[k - 1], events[k - 1], trace[k],
               Sent(prio, flag, trace, events, k - 1), Received(prio, flag, trace, events, k - 1));
    }
  }

  // The time thread t gave when it last sent or received, before event k.
  ghost function LastTime(events: seq<Event>, t: nat, k: nat): int
    requires k <= |events|
  {
    if k == 0 then 0
    else match events[k - 1]
      case DoSend(u, _, time) => if u == t then time else LastTime(events, t, k - 1)
      case DoRecv(u, time) => if u == t then time else LastTime(events, t, k - 1)
      case _ => LastTime(events, t, k - 1)
  }

  ghost predicate Calls(e: Event, t: nat) { (e.DoSend? || e.DoRecv?) && e.t == t }

  // After any run a waiter can time out exactly if it did not ask to wait forever, and nobody
  // waits after a reset.
  lemma {:induction false} RunTimers(prio: seq<nat>, flag: Flag, trace: seq<State>, events: seq<Event>, k: nat, x: nat)
    requires IsRun(prio, flag, trace, events) && k <= |events| && !Running(trace[k], x)
    ensures Enabled(trace[k], DoTimeout(x)) <==> LastTime(events, x, k) > 0
    ensures k > 0 ==> !events[k - 1].DoReset?
  {
    if k > 0 {
      RunIsFifo(prio, flag, trace, events, k - 1);
      assert StepAt(prio, flag, trace, events, k - 1);
      StillInLine(trace[k - 1], prio, flag, events[k - 1], x);
      if !Calls(events[k - 1], x) {
        RunTimers(prio, flag, trace, events, k - 1, x);
      }
    }
  }

  // Who waits after a step waited before with the same timer, or has just been suspended.
  lemma StillInLine(s: State, prio: seq<nat>, flag: Flag, e: Event, x: nat)
    requires Inv(s) && Enabled(s, e) && !Running(Next(s, prio, flag, e), x)
    ensures !e.DoReset?
    ensures if Calls(e, x) then x in Next(s, prio, flag, e).timed <==> e.time > 0
            else !Running(s, x) && (x in Next(s, prio, flag, e).timed <==> x in s.timed)
  {
    match e
    case DoSend(t, mail, time) =>
      SendOutcome(s, prio, flag, t, mail, time);
      SuspendMembers(s.sendWait, prio, t, flag);
      HeadOnce(s.recvWait);
    case DoRecv(t, time) =>
      RecvOutcome(s, prio, flag, t, time);
      SuspendMembers(s.recvWait, prio, t, flag);
      HeadOnce(s.sendWait);
    case DoTimeout(t) =>
      WithoutMembers(s.recvWait, t);
      WithoutMembers(s.sendWait, t);
    case DoReset =>
  }

  // ---- the kernel code ----

  class Mailbox {
    const pool: array<int>      // msg_pool, of length size
    var inOffset: nat
    var outOffset: nat
    var entry: nat
    var recvWait: seq<nat>      // parent.suspend_thread
    var sendWait: seq<nat>      // suspend_sender_thread
    var timed: set<nat>         // threads whose thread_timer is active
    ghost var recvWoken: set<nat>
    ghost var sendWoken: set<nat>
    const flag: Flag
    const prio: seq<nat>        // current_priority of every thread

    ghost function View(): State
      reads this, pool
    {
      State(pool[..], inOffset, outOffset, entry, recvWait, sendWait, recvWoken, sendWoken, timed)
    }

    // rt_mb_init; the size field has 16 bits
    constructor (size: nat, flag: Flag, prio: seq<nat>)
      ensures View() == Init(seq(size % (ENTRY_MAX + 1), _ => 0)) && Inv(View()) && Mails(View()) == [] && fresh(pool)
      ensures this.flag == flag && this.prio == prio
    {
      pool := new int[size % (ENTRY_MAX + 1)](_ => 0);
      inOffset, outOffset, entry, recvWait, sendWait := 0, 0, 0, [], [];
      recvWoken, sendWoken, timed := {}, {}, {};
      this.flag, this.prio := flag, prio;
      new;
      assert pool[..] == seq(size % (ENTRY_MAX + 1), _ => 0);
    }

    // rt_mb_send_wait from the test of the ring on
    method MbSend(t: nat, mail: int, time: int) returns (r: Err)
      requires Inv(View()) && Running(View(), t) && t !in recvWoken
      modifies this, pool
      ensures (View(), r) == Send(old(View()), prio, flag, t, mail, time)
      ensures Inv(View())
    {
      SendKeepsInv(View(), prio, flag, t, mail, time);
      sendWoken := sendWoken - {t};
      if entry != pool.Length {
        Accept(mail);
        return Ok;
      }
      if time == 0 {
        return Full;
      }
      sendWait := Suspend(sendWait, prio, t, flag);
      timed := SetTimer(timed, t, time);
      return Suspended;
    }

    method Accept(mail: int)
      requires entry < pool.Length <= ENTRY_MAX && inOffset < pool.Length
      modifies pool, this
      ensures View() == PutMail(old(View()), mail)
    {
      Put(mail);
      WakeReceiver();
    }

    method Deliver() returns (mail: int)
      requires entry > 0 && outOffset < pool.Length
      modifies this
      ensures mail == pool[old(outOffset)] && View() == GetMail(old(View()))
    {
      mail := Get();
      WakeSender();
    }

    method Put(mail: int)
      requires entry < pool.Length <= ENTRY_MAX && inOffset < pool.Length
      modifies pool, `inOffset, `entry
      ensures pool[..] == old(pool[..])[old(inOffset) := mail] && entry == old(entry) + 1
      ensures inOffset == if old(inOffset) + 1 >= pool.Length then 0 else old(inOffset) + 1
    {
      pool[inOffset] := mail;
      inOffset := inOffset + 1;
      if inOffset >= pool.Length {
        inOffset := 0;
      }
      if entry < ENTRY_MAX {
        entry := entry + 1;
      } else {
        assert false; // the overflow return of lines 1615-1619
      }
    }

    // rt_ipc_list_resume of the first receiver, if one is suspended
    method WakeReceiver()
      modifies `recvWait, `recvWoken, `timed
      ensures recvWait == Rest(old(recvWait)) && recvWoken == old(recvWoken) + First(old(recvWait))
      ensures timed == old(timed) - First(old(recvWait))
    {
      if recvWait != [] {
        recvWoken := recvWoken + {recvWait[0]};
        timed := timed - {recvWait[0]};
        recvWait := recvWait[1..];
      }
    }

    // rt_ipc_list_resume of the first sender, if one is suspended
    method WakeSender()
      modifies `sendWait, `sendWoken, `timed
      ensures sendWait == Rest(old(sendWait)) && sendWoken == old(sendWoken) + First(old(sendWait))
      ensures timed == old(timed) - First(old(sendWait))
    {
      if sendWait != [] {
        sendWoken := sendWoken + {sendWait[0]};
        timed := timed - {sendWait[0]};
        sendWait := sendWait[1..];
      }
    }

    // rt_mb_recv from the test of the ring on
    method MbRecv(t: nat, time: int) returns (r: Err, mail: int)
      requires Inv(View()) && Running(View(), t) && t !in sendWoken
      modifies this
      ensures (View(), r, mail) == Recv(old(View()), prio, flag, t, time)
      ensures Inv(View())
    {
      RecvKeepsInv(View(), prio, flag, t, time);
      recvWoken := recvWoken - {t};
      mail := 0;
      if entry != 0 {
        mail := Deliver();
        return Ok, mail;
      }
      if time == 0 {
        return TimedOut, mail;
      }
      recvWait := Suspend(recvWait, prio, t, flag);
      timed := SetTimer(timed, t, time);
      return Suspended, mail;
    }

    method Get() returns (mail: int)
      requires entry > 0 && outOffset < pool.Length
      modifies `outOffset, `entry
      ensures mail == pool[old(outOffset)] && entry == old(entry) - 1
      ensures outOffset == if old(outOffset) + 1 >= pool.Length then 0 else old(outOffset) + 1
    {
      mail := pool[outOffset];
      outOffset := outOffset + 1;
      if outOffset >= pool.Length {
        outOffset := 0;
      }
      if entry > 0 {
        entry := entry - 1;
      }
    }

    // rt_thread_timeout for a suspended sender or receiver
    method ThreadTimeout(t: nat)
      requires Inv(View()) && t in timed
      modifies this
      ensures View() == Timeout(old(View()), t) && Inv(View())
    {
      TimeoutKeeps(View(), t);
      recvWait := Without(recvWait, t);
      sendWait := Without(sendWait, t);
      timed := timed - {t};
    }

    // rt_mb_control with RT_IPC_CMD_RESET
    method MbReset()
      requires Inv(View())
      modifies this
      ensures View() == Reset(old(View())) && Inv(View())
    {
      while recvWait != []
        invariant pool[..] == old(pool[..]) && entry == old(entry) && outOffset == old(outOffset)
        invariant sendWait == old(sendWait) && recvWoken == old(recvWoken) && sendWoken == old(sendWoken)
        invariant forall x :: x in timed ==> x in recvWait || x in sendWait
        decreases |recvWait|
      {
        timed := timed - {recvWait[0]};
        recvWait := recvWait[1..];
      }
      while sendWait != []
        invariant pool[..] == old(pool[..]) && recvWait == []
        invariant recvWoken == old(recvWoken) && sendWoken == old(sendWoken)
        invariant forall x :: x in timed ==> x in sendWait
        decreases |sendWait|
      {
        timed := timed - {sendWait[0]};
        sendWait := sendWait[1..];
      }
      entry, inOffset, outOffset := 0, 0, 0;
      ResetKeeps(old(View()));
    }
  }
}
