// The event flag group of rt-thread/src/ipc.c. Each region with interrupts disabled is one step.
// An event set is modelled by the set of its bit numbers: or is union, and is intersection,
// and masking out is difference.
module Events {
  import opened Lists
  import opened Waiters

  datatype Err = Ok | Error | TimedOut | Invalid | Suspended

  // event_info: RT_EVENT_FLAG_AND, RT_EVENT_FLAG_OR, RT_EVENT_FLAG_CLEAR
  datatype Option = Option(both: bool, either: bool, clear: bool)

  // `want` holds event_set and `info` event_info of every thread; `timed` are the suspended
  // threads whose timer runs.
  datatype State = State(bits: set<nat>, waiters: seq<nat>, want: seq<set<nat>>, info: seq<Option>, timed: set<nat>)

  predicate Satisfied(bits: set<nat>, w: set<nat>, o: Option) {
    if o.both then w <= bits else o.either && w * bits != {}
  }

  // What a satisfied thread receives.
  function Received(bits: set<nat>, w: set<nat>, o: Option): set<nat> {
    if o.both then w else w * bits
  }

  // What remains of the event set afterwards.
  function Left(bits: set<nat>, w: set<nat>, o: Option): set<nat> {
    if o.clear then bits - Received(bits, w, o) else bits
  }

  // ---- rt_event_send ----

  // The walk over the suspended threads from `ws` on: the event set and what the threads hold
  // afterwards, who stays suspended, and who was resumed, in order.
  datatype Walked = Walked(bits: set<nat>, want: seq<set<nat>>, stay: seq<nat>, woken: seq<nat>)

  ghost predicate AllIn(ws: seq<nat>, n: nat) {
    forall i :: 0 <= i < |ws| ==> ws[i] < n
  }

  ghost function Walk(bits: set<nat>, want: seq<set<nat>>, info: seq<Option>, ws: seq<nat>): Walked
    requires |want| == |info| && AllIn(ws, |want|)
    decreases |ws|
  {
    if ws == [] then Walked(bits, want, [], [])
    else
      var t := ws[0];
      if Satisfied(bits, want[t], info[t]) then
        var r := Walk(Left(bits, want[t], info[t]), want[t := Received(bits, want[t], info[t])], info, ws[1..]);
        r.(woken := [t] + r.woken)
      else
        var r := Walk(bits, want, info, ws[1..]);
        r.(stay := [t] + r.stay)
  }

  ghost function Send(s: State, bits: set<nat>): (State, Err)
    requires |s.want| == |s.info| && AllIn(s.waiters, |s.want|)
  {
    if bits == {} then (s, Error)
    else
      var r := Walk(s.bits + bits, s.want, s.info, s.waiters);
      (State(r.bits, r.stay, r.want, s.info, s.timed - Members(r.woken)), Ok)
  }

  // ---- rt_event_recv, up to the switch to another thread ----

  ghost function Recv(s: State, prio: seq<nat>, flag: Flag, t: nat, bits: set<nat>, o: Option, time: int): (State, Err)
    requires t < |s.want| == |s.info|
  {
    if bits == {} then (s, Error)
    else if Satisfied(s.bits, bits, o) then
      (s.(want := s.want[t := s.bits * bits], info := s.info[t := o],
          bits := if o.clear then s.bits - bits else s.bits), Ok)
    else if time == 0 then (s, TimedOut)
    else
      (s.(want := s.want[t := bits], info := s.info[t := o], waiters := Suspend(s.waiters, prio, t, flag),
          timed := SetTimer(s.timed, t, time)), Suspended)
  }

  // rt_thread_timeout of a suspended thread
  ghost function Timeout(s: State, t: nat): State {
    s.(waiters := Without(s.waiters, t), timed := s.timed - {t})
  }

  // RT_IPC_CMD_RESET: every waiter is resumed with an error and the event set emptied.
  ghost function Reset(s: State): State {
    s.(waiters := [], timed := {}, bits := {})
  }

  // ---- the invariant ----

  // A suspended thread waits for something, under AND or OR, and the event set does not
  // satisfy it.
  ghost predicate Waiting(s: State, t: nat) {
    && t < |s.want| == |s.info|
    && s.want[t] != {} && (s.info[t].both || s.info[t].either)
    && !Satisfied(s.bits, s.want[t], s.info[t])
  }

  ghost predicate Inv(s: State) {
    && |s.want| == |s.info| && NoDup(s.waiters)
    && (forall i :: 0 <= i < |s.waiters| ==> Waiting(s, s.waiters[i]))
    && (forall x :: x in s.timed ==> x in s.waiters)
  }

  // ---- the walk ----

  lemma SmallerSatisfiesLess(bits: set<nat>, bits': set<nat>, w: set<nat>, o: Option)
    requires bits' <= bits
    ensures Satisfied(bits', w, o) ==> Satisfied(bits, w, o)
  {
    assert !o.both ==> w * bits' <= w * bits;
  }

  lemma Tail(ws: seq<nat>)
    requires NoDup(ws) && ws != []
    ensures NoDup(ws[1..]) && ws[0] !in ws[1..] && forall x :: x in ws <==> x == ws[0] || x in ws[1..]
  {
    assert ws == [ws[0]] + ws[1..];
    assert forall i :: 0 <= i < |ws| - 1 ==> ws[1..][i] == ws[i + 1] != ws[0];
  }

  // No thread is lost: it stays suspended or is resumed, and only resumed ones get anything.
  lemma {:induction false} WalkSplits(bits: set<nat>, want: seq<set<nat>>, info: seq<Option>, ws: seq<nat>)
    requires |want| == |info| && AllIn(ws, |want|) && NoDup(ws)
    ensures var r := Walk(bits, want, info, ws);
      && |r.want| == |want|
      && (forall x :: x in r.stay || x in r.woken <==> x in ws)
      && NoDup(r.stay) && NoDup(r.woken) && (forall x :: x in r.stay ==> x !in r.woken)
      && (forall t :: 0 <= t < |want| && t !in r.woken ==> r.want[t] == want[t])
    decreases |ws|
  {
    if ws != [] {
      var t, rest := ws[0], ws[1..];
      Tail(ws);
      if Satisfied(bits, want[t], info[t]) {
        WalkSplits(Left(bits, want[t], info[t]), want[t := Received(bits, want[t], info[t])], info, rest);
      } else {
        WalkSplits(bits, want, info, rest);
      }
    }
  }

  // The event set only shrinks, and no thread that stays is satisfied by what is left -
  // although CLEAR waiters shrink the set on the way.
  lemma {:induction false} WalkLeavesNone(bits: set<nat>, want: seq<set<nat>>, info: seq<Option>, ws: seq<nat>)
    requires |want| == |info| && AllIn(ws, |want|) && NoDup(ws)
    ensures var r := Walk(bits, want, info, ws);
      && r.bits <= bits && |r.want| == |want|
      && (forall t :: t in r.stay ==> t < |want| && !Satisfied(r.bits, want[t], info[t]))
    decreases |ws|
  {
    WalkSplits(bits, want, info, ws);
    if ws != [] {
      var t, rest := ws[0], ws[1..];
      Tail(ws);
      if Satisfied(bits, want[t], info[t]) {
        var bits1, want1 := Left(bits, want[t], info[t]), want[t := Received(bits, want[t], info[t])];
        WalkLeavesNone(bits1, want1, info, rest);
        WalkSplits(bits1, want1, info, rest);
      } else {
        WalkLeavesNone(bits, want, info, rest);
        var r := Walk(bits, want, info, rest);
        SmallerSatisfiesLess(bits, r.bits, want[t], info[t]);
      }
    }
  }

  // What a resumed thread finds in its event_set: all it asked for under AND, a non-empty part
  // of it under OR, and nothing that was not set.
  ghost predicate GotRight(w: set<nat>, o: Option, got: set<nat>, bits: set<nat>) {
    got <= bits && (if o.both then got == w else got != {} && got <= w)
  }

  lemma {:induction false} WalkGives(bits: set<nat>, want: seq<set<nat>>, info: seq<Option>, ws: seq<nat>, t: nat)
    requires |want| == |info| && AllIn(ws, |want|) && NoDup(ws)
    requires t in Walk(bits, want, info, ws).woken
    ensures t < |want| && |Walk(bits, want, info, ws).want| == |want|
    ensures GotRight(want[t], info[t], Walk(bits, want, info, ws).want[t], bits)
    decreases |ws|
  {
    var u, rest := ws[0], ws[1..];
    Tail(ws);
    WalkSplits(bits, want, info, ws);
    if Satisfied(bits, want[u], info[u]) {
      var bits1, want1 := Left(bits, want[u], info[u]), want[u := Received(bits, want[u], info[u])];
      WalkSplits(bits1, want1, info, rest);
      if t != u {
        WalkGives(bits1, want1, info, rest, t);
      }
    } else {
      WalkGives(bits, want, info, rest, t);
    }
  }

  // A bit that is gone afterwards was received by a CLEAR waiter.
  lemma {:induction false} WalkClears(bits: set<nat>, want: seq<set<nat>>, info: seq<Option>, ws: seq<nat>, b: nat)
    requires |want| == |info| && AllIn(ws, |want|) && NoDup(ws)
    requires b in bits && b !in Walk(bits, want, info, ws).bits
    ensures |Walk(bits, want, info, ws).want| == |want|
    ensures exists t :: t in Walk(bits, want, info, ws).woken && t < |want| && info[t].clear
                        && b in Walk(bits, want, info, ws).want[t]
    decreases |ws|
  {
    WalkSplits(bits, want, info, ws);
    if ws != [] {
      var u, rest := ws[0], ws[1..];
      Tail(ws);
      if Satisfied(bits, want[u], info[u]) {
        var bits1, want1 := Left(bits, want[u], info[u]), want[u := Received(bits, want[u], info[u])];
        WalkSplits(bits1, want1, info, rest);
        var r1 := Walk(bits1, want1, info, rest);
        if b in bits1 {
          WalkClears(bits1, want1, info, rest, b);
          var t :| t in r1.woken && t < |want| && info[t].clear && b in r1.want[t];
          assert t in Walk(bits, want, info, ws).woken;
        } else {
          assert u !in rest && r1.want[u] == Received(bits, want[u], info[u]);
          assert u in Walk(bits, want, info, ws).woken;
        }
      } else {
        WalkClears(bits, want, info, rest, b);
      }
    }
  }

  // Thread t was resumed and took event b out of the set.
  ghost predicate Took(r: Walked, info: seq<Option>, t: nat, b: nat) {
    t in r.woken && t < |info| && t < |r.want| && info[t].clear && b in r.want[t]
  }

  ghost predicate TookBefore(r: Walked, info: seq<Option>, ws: seq<nat>, i: nat, b: nat)
    requires i <= |ws|
  {
    exists j :: 0 <= j < i && Took(r, info, ws[j], b)
  }

  // What the threads in front of place i have left of the set.
  ghost function LeftAt(r: Walked, bits: set<nat>, info: seq<Option>, ws: seq<nat>, i: nat): set<nat>
    requires i <= |ws|
  {
    set b | b in bits && !TookBefore(r, info, ws, i, b)
  }

  // A thread is resumed exactly if it is satisfied by what those in front of it have left, and
  // receives its events from that.
  ghost predicate ServedAt(r: Walked, bits: set<nat>, want: seq<set<nat>>, info: seq<Option>, ws: seq<nat>, i: nat)
    requires |want| == |info| && AllIn(ws, |want|) && i < |ws|
  {
    var t, left := ws[i], LeftAt(r, bits, info, ws, i);
    && (t in r.woken <==> Satisfied(left, want[t], info[t]))
    && (t in r.woken ==> t < |r.want| && r.want[t] == Received(left, want[t], info[t]))
  }

  lemma {:induction false} WalkServes(bits: set<nat>, want: seq<set<nat>>, info: seq<Option>, ws: seq<nat>, i: nat)
    requires |want| == |info| && AllIn(ws, |want|) && NoDup(ws) && i <= |ws|
    ensures var r := Walk(bits, want, info, ws);
      if i < |ws| then ServedAt(r, bits, want, info, ws, i) else r.bits == LeftAt(r, bits, info, ws, i)
    decreases |ws|
  {
    if ws != [] {
      var r := Walk(bits, want, info, ws);
      Tail(ws);
      WalkSplits(bits, want, info, ws);
      if i == 0 {
        assert LeftAt(r, bits, info, ws, 0) == bits;
        if Satisfied(bits, want[ws[0]], info[ws[0]]) {
          WalkSplits(Left(bits, want[ws[0]], info[ws[0]]), want[ws[0] := Received(bits, want[ws[0]], info[ws[0]])], info, ws[1..]);
        } else {
          WalkSplits(bits, want, info, ws[1..]);
        }
      } else if Satisfied(bits, want[ws[0]], info[ws[0]]) {
        WalkServes(Left(bits, want[ws[0]], info[ws[0]]), want[ws[0] := Received(bits, want[ws[0]], info[ws[0]])], info,
                   ws[1..], i - 1);
        LeftPast(bits, want, info, ws, i);
      } else {
        WalkServes(bits, want, info, ws[1..], i - 1);
        LeftPast(bits, want, info, ws, i);
      }
    }
  }

  // One round of the walk further on, the same is left at every place.
  lemma LeftPast(bits: set<nat>, want: seq<set<nat>>, info: seq<Option>, ws: seq<nat>, i: nat)
    requires |want| == |info| && AllIn(ws, |want|) && NoDup(ws) && 0 < i <= |ws|
    ensures var t := ws[0];
      var r, hit := Walk(bits, want, info, ws), Satisfied(bits, want[t], info[t]);
      var bits1 := if hit then Left(bits, want[t], info[t]) else bits;
      var want1 := if hit then want[t := Received(bits, want[t], info[t])] else want;
      var r1 := Walk(bits1, want1, info, ws[1..]);
      && LeftAt(r1, bits1, info, ws[1..], i - 1) == LeftAt(r, bits, info, ws, i)
      && r.want == r1.want && r.bits == r1.bits && forall x :: x in ws[1..] ==> (x in r.woken <==> x in r1.woken)
  {
    var t := ws[0];
    var r, hit := Walk(bits, want, info, ws), Satisfied(bits, want[t], info[t]);
    var bits1 := if hit then Left(bits, want[t], info[t]) else bits;
    var want1 := if hit then want[t := Received(bits, want[t], info[t])] else want;
    var r1 := Walk(bits1, want1, info, ws[1..]);
    Tail(ws);
    WalkSplits(bits1, want1, info, ws[1..]);
    forall b | b in bits
      ensures b in bits1 <==> !Took(r, info, t, b)
    {
    }
    forall b: nat
      ensures TookBefore(r, info, ws, i, b) <==> Took(r, info, t, b) || TookBefore(r1, info, ws[1..], i - 1, b)
    {
      TookPast(r, r1, info, ws, i, b);
    }
  }

  lemma TookPast(r: Walked, r1: Walked, info: seq<Option>, ws: seq<nat>, i: nat, b: nat)
    requires 0 < i <= |ws| && r.want == r1.want && forall x :: x in ws[1..] ==> (x in r.woken <==> x in r1.woken)
    ensures TookBefore(r, info, ws, i, b) <==> Took(r, info, ws[0], b) || TookBefore(r1, info, ws[1..], i - 1, b)
  {
    if j :| 0 <= j < i - 1 && Took(r1, info, ws[1..][j], b) {
      assert Took(r, info, ws[j + 1], b);
    }
    if j :| 1 <= j < i && Took(r, info, ws[j], b) {
      assert ws[1..][j - 1] == ws[j] && Took(r1, info, ws[1..][j - 1], b);
    }
  }

  // ---- each step keeps the invariant ----

  lemma InvShape(s: State)
    requires Inv(s)
    ensures AllIn(s.waiters, |s.want|)
  {
    assert forall i :: 0 <= i < |s.waiters| ==> Waiting(s, s.waiters[i]);
  }

  lemma SendKeeps(s: State, bits: set<nat>)
    requires Inv(s)
    ensures AllIn(s.waiters, |s.want|)
    ensures var (s', r) := Send(s, bits);
      && Inv(s')
      && (forall t :: t in s.waiters && t !in s'.waiters ==> t < |s'.want| && GotRight(s.want[t], s.info[t], s'.want[t], s.bits + bits))
  {
    InvShape(s);
    if bits != {} {
      var r, s' := Walk(s.bits + bits, s.want, s.info, s.waiters), Send(s, bits).0;
      WalkSplits(s.bits + bits, s.want, s.info, s.waiters);
      WalkLeavesNone(s.bits + bits, s.want, s.info, s.waiters);
      forall i | 0 <= i < |s'.waiters|
        ensures Waiting(s', s'.waiters[i])
      {
        var t := s'.waiters[i];
        assert t in r.stay && t in s.waiters;
        var j :| 0 <= j < |s.waiters| && s.waiters[j] == t;
        assert Waiting(s, s.waiters[j]);
      }
      forall t | t in s.waiters && t !in s'.waiters
        ensures t < |s'.want| && GotRight(s.want[t], s.info[t], s'.want[t], s.bits + bits)
      {
        WalkGives(s.bits + bits, s.want, s.info, s.waiters, t);
      }
    }
  }

  // Thread t was resumed by a send, and took event b out of the set.
  ghost predicate TookOut(s: State, s': State, t: nat, b: nat) {
    t in s.waiters && t !in s'.waiters && t < |s.info| && t < |s'.want| && s.info[t].clear && b in s'.want[t]
  }

  ghost predicate SomeTookOut(s: State, s': State, b: nat) {
    exists t :: TookOut(s, s', t, b)
  }

  // What was set, or has been sent, and was not taken out by a thread in front of place i.
  ghost function SetAt(s: State, bits: set<nat>, s': State, i: nat): set<nat>
    requires i <= |s.waiters|
  {
    set b | b in s.bits + bits && !exists j :: 0 <= j < i && TookOut(s, s', s.waiters[j], b)
  }

  // The thread at place i of the line is resumed exactly if what is set when it is its turn
  // satisfies it, and receives its events from that; else it waits on.
  ghost predicate SentAt(s: State, bits: set<nat>, s': State, i: nat) {
    && i < |s.waiters| && s.waiters[i] < |s.want| == |s.info| == |s'.want|
    && var t, now := s.waiters[i], SetAt(s, bits, s', i);
       && (t !in s'.waiters <==> Satisfied(now, s.want[t], s.info[t]))
       && s'.want[t] == if t in s'.waiters then s.want[t] else if s.info[t].both then s.want[t] else s.want[t] * now
  }

  // A send of events turns them on, for the threads in line one after the other; what is set in the
  // end is what was set or sent but for what resumed CLEAR threads took out.
  lemma SendOutcome(s: State, bits: set<nat>)
    requires Inv(s)
    ensures AllIn(s.waiters, |s.want|)
    ensures var (s', r) := Send(s, bits);
      && (r == Ok <==> bits != {}) && (r == Error <==> bits == {})
      && (r == Error ==> s' == s)
      && (r == Ok ==> s'.bits == SetAt(s, bits, s', |s.waiters|) && forall i :: 0 <= i < |s.waiters| ==> SentAt(s, bits, s', i))
      && (forall t :: t in s'.waiters ==> t in s.waiters)
      && (forall t :: t in s'.timed <==> t in s.timed && (t in s.waiters ==> t in s'.waiters))
  {
    InvShape(s);
    if bits != {} {
      var r, s' := Walk(s.bits + bits, s.want, s.info, s.waiters), Send(s, bits).0;
      WalkSplits(s.bits + bits, s.want, s.info, s.waiters);
      forall t, b
        ensures t in s.waiters ==> (Took(r, s.info, t, b) <==> TookOut(s, s', t, b))
      {
      }
      forall i: nat | i <= |s.waiters|
        ensures LeftAt(r, s.bits + bits, s.info, s.waiters, i) == SetAt(s, bits, s', i)
      {
        SameLeft(s, bits, s', r, i);
      }
      WalkServes(s.bits + bits, s.want, s.info, s.waiters, |s.waiters|);
      forall i | 0 <= i < |s.waiters|
        ensures SentAt(s, bits, s', i)
      {
        WalkServes(s.bits + bits, s.want, s.info, s.waiters, i);
        assert LeftAt(r, s.bits + bits, s.info, s.waiters, i) == SetAt(s, bits, s', i);
        assert s.waiters[i] in s.waiters;
      }
    }
  }

  lemma SameLeft(s: State, bits: set<nat>, s': State, r: Walked, i: nat)
    requires i <= |s.waiters|
    requires forall t, b :: t in s.waiters ==> (Took(r, s.info, t, b) <==> TookOut(s, s', t, b))
    ensures LeftAt(r, s.bits + bits, s.info, s.waiters, i) == SetAt(s, bits, s', i)
  {
    assert forall j :: 0 <= j < i ==> s.waiters[j] in s.waiters;
  }

  // In particular every thread satisfied by what is set and sent is resumed, if no CLEAR thread is
  // in front of it; and without CLEAR threads all of it stays set.
  lemma SendReaches(s: State, bits: set<nat>, i: nat)
    requires Inv(s) && bits != {} && i <= |s.waiters|
    ensures AllIn(s.waiters, |s.want|)
    requires forall j :: 0 <= j < i ==> s.waiters[j] < |s.info| && !s.info[s.waiters[j]].clear
    ensures i == |s.waiters| ==> Send(s, bits).0.bits == s.bits + bits
    ensures i < |s.waiters| ==>
      (s.waiters[i] !in Send(s, bits).0.waiters <==> Satisfied(s.bits + bits, s.want[s.waiters[i]], s.info[s.waiters[i]]))
  {
    SendOutcome(s, bits);
    var s' := Send(s, bits).0;
    assert SetAt(s, bits, s', i) == s.bits + bits;
    assert i < |s.waiters| ==> SentAt(s, bits, s', i);
  }

  // Under AND all events asked for must be set, else under OR one of them.
  lemma SatisfiedExactly(bits: set<nat>, w: set<nat>, o: Option)
    requires o.both || o.either
    ensures Satisfied(bits, w, o) <==> if o.both then forall b :: b in w ==> b in bits else exists b :: b in w && b in bits
  {
    if b :| b in w && b in bits {
      assert b in w * bits;
    }
  }

  // What a receive comes to: it takes events, if it is satisfied, and takes them out under CLEAR;
  // else it gives up at once or waits in line for what it asked for.
  lemma RecvOutcome(s: State, prio: seq<nat>, flag: Flag, t: nat, bits: set<nat>, o: Option, time: int)
    requires Inv(s) && t < |s.want| && t !in s.waiters && (o.both || o.either)
    ensures var (s', r) := Recv(s, prio, flag, t, bits, o, time);
      && (r == Error <==> bits == {}) && (r == Ok <==> bits != {} && Satisfied(s.bits, bits, o))
      && (r == TimedOut <==> bits != {} && !Satisfied(s.bits, bits, o) && time == 0)
      && (r == Suspended <==> bits != {} && !Satisfied(s.bits, bits, o) && time != 0)
      && (r == Ok ==> s'.want == s.want[t := s.bits * bits] && s'.info == s.info[t := o])
      && (forall b :: b in s'.bits <==> b in s.bits && !(r == Ok && o.clear && b in s'.want[t]))
      && (r == Suspended ==> s'.want == s.want[t := bits] && s'.info == s.info[t := o] && t in s'.waiters
                             && Joined(s.waiters, s.timed, prio, flag, t, time, s'.waiters, s'.timed))
      && (r != Suspended ==> s'.waiters == s.waiters && s'.timed == s.timed)
      && (r == Error || r == TimedOut ==> s' == s)
  {
    SuspendJoins(s.waiters, s.timed, prio, flag, t, time);
  }

  lemma TimeoutOutcome(s: State, t: nat)
    requires Inv(s) && t in s.timed
    ensures var s' := Timeout(s, t);
      && LeftAlone(s.waiters, t, s'.waiters) && t !in s'.waiters && s'.bits == s.bits
      && forall x :: x in s'.timed <==> x in s.timed && x != t
  {
    WithoutLeaves(s.waiters, t);
  }

  lemma RecvKeeps(s: State, prio: seq<nat>, flag: Flag, t: nat, bits: set<nat>, o: Option, time: int)
    requires Inv(s) && t < |s.want| && t !in s.waiters && (o.both || o.either)
    ensures var (s', r) := Recv(s, prio, flag, t, bits, o, time);
      && Inv(s')
      && (r == Ok <==> bits != {} && Satisfied(s.bits, bits, o))
      && (r == Ok ==> GotRight(bits, o, s'.want[t], s.bits))
  {
    var (s', r) := Recv(s, prio, flag, t, bits, o, time);
    if r == Suspended {
      SuspendMembers(s.waiters, prio, t, flag);
    }
    forall i | 0 <= i < |s'.waiters|
      ensures Waiting(s', s'.waiters[i])
    {
      var u := s'.waiters[i];
      assert u in s'.waiters;
      if u != t {
        StillWaiting(s, s', u);
      }
    }
    if r == Ok && o.both {
      assert s.bits * bits == bits;
    }
  }

  lemma StillWaiting(s: State, s': State, t: nat)
    requires Inv(s) && t in s.waiters && s'.bits <= s.bits
    requires |s'.want| == |s.want| == |s'.info|
    requires t < |s.want| ==> s'.want[t] == s.want[t] && s'.info[t] == s.info[t]
    ensures Waiting(s', t)
  {
    var j :| 0 <= j < |s.waiters| && s.waiters[j] == t;
    assert Waiting(s, s.waiters[j]);
    SmallerSatisfiesLess(s.bits, s'.bits, s.want[t], s.info[t]);
  }

  lemma TimeoutKeeps(s: State, t: nat)
    requires Inv(s) && t in s.timed
    ensures Inv(Timeout(s, t))
  {
    WithoutMembers(s.waiters, t);
    WithoutNoDup(s.waiters, t);
    var s' := Timeout(s, t);
    forall i | 0 <= i < |s'.waiters|
      ensures Waiting(s', s'.waiters[i])
    {
      assert s'.waiters[i] in s'.waiters;
      StillWaiting(s, s', s'.waiters[i]);
    }
  }

  // ---- runs ----

  datatype Event =
    | DoSend(bits: set<nat>)
    | DoRecv(t: nat, bits: set<nat>, o: Option, time: int)
    | DoTimeout(t: nat)
    | DoReset

  ghost predicate Enabled(s: State, e: Event) {
    match e
    case DoRecv(t, _, o, _) => t < |s.want| && t !in s.waiters && (o.both || o.either)
    case DoTimeout(t) => t in s.timed
    case _ => true
  }

  ghost function Next(s: State, prio: seq<nat>, flag: Flag, e: Event): State
    requires Inv(s) && Enabled(s, e)
  {
    InvShape(s);
    match e
    case DoSend(bits) => Send(s, bits).0
    case DoRecv(t, bits, o, time) => Recv(s, prio, flag, t, bits, o, time).0
    case DoTimeout(t) => Timeout(s, t)
    case DoReset => Reset(s)
  }

  lemma StepKeeps(s: State, prio: seq<nat>, flag: Flag, e: Event)
    requires Inv(s) && Enabled(s, e)
    ensures Inv(Next(s, prio, flag, e))
  {
    match e
    case DoSend(bits) => SendKeeps(s, bits);
    case DoRecv(t, bits, o, time) => RecvKeeps(s, prio, flag, t, bits, o, time);
    case DoTimeout(t) => TimeoutKeeps(s, t);
    case DoReset =>
  }

  // The steps are defined on states that satisfy the invariant; RunKeeps shows that all do.
  ghost predicate StepAt(prio: seq<nat>, flag: Flag, trace: seq<State>, events: seq<Event>, k: nat) {
    && k < |events| && k + 1 < |trace|
    && (Inv(trace[k]) ==> Enabled(trace[k], events[k]) && trace[k + 1] == Next(trace[k], prio, flag, events[k]))
  }

  // A run from the state rt_event_init leaves behind.
  ghost predicate IsRun(prio: seq<nat>, flag: Flag, trace: seq<State>, events: seq<Event>) {
    && |trace| == |events| + 1
    && trace[0].bits == {} && trace[0].waiters == [] && trace[0].timed == {} && |trace[0].want| == |trace[0].info|
    && forall k: nat :: k < |events| ==> StepAt(prio, flag, trace, events, k)
  }

  // In every reachable state no suspended thread is satisfied by the event set.
  lemma {:induction false} RunKeeps(prio: seq<nat>, flag: Flag, trace: seq<State>, events: seq<Event>, k: nat)
    requires IsRun(prio, flag, trace, events) && k <= |events|
    ensures Inv(trace[k])
  {
    if k > 0 {
      RunKeeps(prio, flag, trace, events, k - 1);
      assert StepAt(prio, flag, trace, events, k - 1);
      StepKeeps(trace[k - 1], prio, flag, events[k - 1]);
    }
  }

  // The time thread t gave when it last received, before event k.
  ghost function LastTime(events: seq<Event>, t: nat, k: nat): int
    requires k <= |events|
  {
    if k == 0 then 0
    else if events[k - 1].DoRecv? && events[k - 1].t == t then events[k - 1].time
    else LastTime(events, t, k - 1)
  }

  // After any run a waiter can time out exactly if it did not ask to wait forever, and nobody
  // waits after a reset.
  lemma {:induction false} RunTimers(prio: seq<nat>, flag: Flag, trace: seq<State>, events: seq<Event>, k: nat, x: nat)
    requires IsRun(prio, flag, trace, events) && k <= |events| && x in trace[k].waiters
    ensures Enabled(trace[k], DoTimeout(x)) <==> LastTime(events, x, k) > 0
    ensures k > 0 ==> !events[k - 1].DoReset?
  {
    if k > 0 {
      RunKeeps(prio, flag, trace, events, k - 1);
      assert StepAt(prio, flag, trace, events, k - 1);
      StillInLine(trace[k - 1], prio, flag, events[k - 1], x);
      if !(events[k - 1].DoRecv? && events[k - 1].t == x) {
        RunTimers(prio, flag, trace, events, k - 1, x);
      }
    }
  }

  // Who waits after a step waited before with the same timer, or has just been suspended.
  lemma StillInLine(s: State, prio: seq<nat>, flag: Flag, e: Event, x: nat)
    requires Inv(s) && Enabled(s, e) && x in Next(s, prio, flag, e).waiters
    ensures !e.DoReset?
    ensures if e.DoRecv? && e.t == x then x in Next(s, prio, flag, e).timed <==> e.time > 0
            else x in s.waiters && (x in Next(s, prio, flag, e).timed <==> x in s.timed)
  {
    match e
    case DoSend(bits) => SendOutcome(s, bits);
    case DoRecv(t, bits, o, time) => RecvOutcome(s, prio, flag, t, bits, o, time); SuspendMembers(s.waiters, prio, t, flag);
    case DoTimeout(t) => WithoutMembers(s.waiters, t);
    case DoReset =>
  }

  // Some thread takes event b out of the set in step k: one that receives it at once, or one that
  // a send resumes.
  ghost predicate TakenAt(trace: seq<State>, events: seq<Event>, k: nat, b: nat)
    requires k < |events| < |trace|
  {
    match events[k]
    case DoRecv(t, bits, o, _) => bits != {} && Satisfied(trace[k].bits, bits, o) && o.clear && b in bits && b in trace[k].bits
    case DoSend(bits) => SomeTookOut(trace[k], trace[k + 1], b)
    case _ => false
  }

  // Event b has been sent since the last reset before event k, and nobody has taken it out since.
  ghost predicate SentAndLeft(trace: seq<State>, events: seq<Event>, k: nat, b: nat)
    requires k <= |events| < |trace|
  {
    && k > 0 && !events[k - 1].DoReset?
    && ((events[k - 1].DoSend? && b in events[k - 1].bits) || SentAndLeft(trace, events, k - 1, b))
    && !TakenAt(trace, events, k - 1, b)
  }

  // After any run exactly those events are set.
  lemma {:induction false} RunSets(prio: seq<nat>, flag: Flag, trace: seq<State>, events: seq<Event>, k: nat, b: nat)
    requires IsRun(prio, flag, trace, events) && k <= |events|
    ensures b in trace[k].bits <==> SentAndLeft(trace, events, k, b)
  {
    if k > 0 {
      RunSets(prio, flag, trace, events, k - 1, b);
      RunKeeps(prio, flag, trace, events, k - 1);
      assert StepAt(prio, flag, trace, events, k - 1);
      var s, s' := trace[k - 1], trace[k];
      match events[k - 1]
      case DoSend(bits) => SendSets(s, bits, b);
      case DoRecv(t, bits, o, time) => RecvOutcome(s, prio, flag, t, bits, o, time);
      case _ =>
    }
  }

  lemma SendSets(s: State, bits: set<nat>, b: nat)
    requires Inv(s)
    ensures AllIn(s.waiters, |s.want|)
    ensures b in Send(s, bits).0.bits <==> b in s.bits + bits && !SomeTookOut(s, Send(s, bits).0, b)
  {
    SendOutcome(s, bits);
    var s' := Send(s, bits).0;
    if t :| TookOut(s, s', t, b) {
      var j :| 0 <= j < |s.waiters| && s.waiters[j] == t;
    }
  }

  // ---- the kernel code ----

  class EventGroup {
    var bits: set<nat>        // set
    var waiters: seq<nat>     // parent.suspend_thread
    var want: seq<set<nat>>   // event_set of every thread
    var info: seq<Option>     // event_info of every thread
    var timed: set<nat>       // threads whose thread_timer is active
    const flag: Flag
    const prio: seq<nat>      // current_priority of every thread

    ghost function View(): State
      reads this
    {
      State(bits, waiters, want, info, timed)
    }

    // rt_event_init
    constructor (flag: Flag, prio: seq<nat>)
      ensures Inv(View()) && bits == {} && waiters == [] && |want| == |prio| && this.flag == flag && this.prio == prio
    {
      bits, waiters, timed := {}, [], {};
      want, info := seq(|prio|, _ => {}), seq(|prio|, _ => Option(false, false, false));
      this.flag, this.prio := flag, prio;
    }

    // rt_event_send
    method EventSend(b: set<nat>) returns (r: Err)
      requires Inv(View())
      modifies this
      ensures AllIn(old(waiters), |old(want)|) && (View(), r) == Send(old(View()), b)
      ensures Inv(View())
    {
      SendKeeps(View(), b);
      InvShape(View());
      if b == {} {
        return Error;
      }
      bits := bits + b;
      r := WakeSatisfied();
    }

    // The walk over the suspended threads.
    method WakeSatisfied() returns (r: Err)
      requires |want| == |info| && AllIn(waiters, |want|)
      requires forall i :: 0 <= i < |waiters| ==> info[waiters[i]].both || info[waiters[i]].either
      modifies this
      ensures r == Ok && info == old(info)
      ensures var w := Walk(old(bits), old(want), info, old(waiters));
        bits == w.bits && want == w.want && waiters == w.stay && timed == old(timed) - Members(w.woken)
    {
      ghost var w := Walk(bits, want, info, waiters);
      ghost var woken: seq<nat> := [];
      var n := 0;
      while n < |waiters|
        invariant n <= |waiters| && |want| == |info| && info == old(info) && AllIn(waiters, |want|)
        invariant forall i :: 0 <= i < |waiters| ==> info[waiters[i]].both || info[waiters[i]].either
        invariant timed == old(timed) - Members(woken)
        invariant Resumes(w, bits, want, info, waiters, n, woken)
        decreases |waiters| - n
      {
        var t := waiters[n];
        var status := Test(t);
        if status == Ok {
          woken := Wake(n, w, woken);
        } else {
          n := StepOver(n, w, woken);
        }
      }
      assert waiters[..n] == waiters && waiters[n..] == [];
      assert woken + [] == woken;
      return Ok;
    }

    // Whether the suspended thread t is satisfied.
    method Test(t: nat) returns (status: Err)
      requires |want| == |info| && t < |want| && (info[t].both || info[t].either)
      ensures status == if Satisfied(bits, want[t], info[t]) then Ok else Error
    {
      AndIsSubset(want[t], bits);
      status := Error;
      if info[t].both {
        if want[t] * bits == want[t] {
          status := Ok;
        }
      } else if info[t].either {
        if want[t] * bits != {} {
          status := Ok;
        }
      } else {
        assert false; // the return of -RT_EINVAL in the middle of the walk
      }
    }

    // The thread at place n of the list, which is satisfied, receives its events and is resumed.
    method Wake(n: nat, ghost w: Walked, ghost woken: seq<nat>) returns (ghost woken': seq<nat>)
      requires n < |waiters| && |want| == |info| && AllIn(waiters, |want|)
      requires Satisfied(bits, want[waiters[n]], info[waiters[n]]) && Resumes(w, bits, want, info, waiters, n, woken)
      modifies `bits, `waiters, `want, `timed
      ensures waiters == old(waiters)[..n] + old(waiters)[n + 1..] && |want| == |info|
      ensures woken' == woken + [old(waiters)[n]] && timed == old(timed) - {old(waiters)[n]}
      ensures Resumes(w, bits, want, info, waiters, n, woken')
    {
      WakeStep(w, bits, want, info, waiters, n, woken);
      var t := waiters[n];
      woken' := woken + [t];
      if !info[t].both {
        want := want[t := want[t] * bits];
      } else {
        assert want[t := want[t]] == want;
      }
      if info[t].clear {
        bits := bits - want[t];
      }
      waiters := waiters[..n] + waiters[n + 1..];
      timed := timed - {t};
    }

    method StepOver(n: nat, ghost w: Walked, ghost woken: seq<nat>) returns (next: nat)
      requires n < |waiters| && |want| == |info| && AllIn(waiters, |want|)
      requires !Satisfied(bits, want[waiters[n]], info[waiters[n]]) && Resumes(w, bits, want, info, waiters, n, woken)
      ensures next == n + 1 && Resumes(w, bits, want, info, waiters, n + 1, woken)
    {
      assert waiters[n..][1..] == waiters[n + 1..];
      assert waiters[..n + 1] == waiters[..n] + [waiters[n]];
      next := n + 1;
    }

    // rt_event_recv up to the switch to another thread; an option is required
    method EventRecv(t: nat, b: set<nat>, o: Option, time: int) returns (r: Err, recved: set<nat>)
      requires Inv(View()) && t < |want| && t !in waiters && (o.both || o.either)
      modifies this
      ensures (View(), r) == Recv(old(View()), prio, flag, t, b, o, time)
      ensures r == Ok ==> recved == old(bits) * b
      ensures Inv(View())
    {
      RecvKeeps(View(), prio, flag, t, b, o, time);
      recved := {};
      if b == {} {
        return Error, recved;
      }
      AndIsSubset(b, bits);
      var status := Error;
      if o.both {
        if bits * b == b {
          status := Ok;
        }
      } else if o.either {
        if bits * b != {} {
          status := Ok;
        }
      }
      assert bits * b == b * bits;
      if status == Ok {
        recved := bits * b;
        want := want[t := bits * b];
        info := info[t := o];
        if o.clear {
          bits := bits - b;
        }
        return Ok, recved;
      }
      if time == 0 {
        return TimedOut, recved;
      }
      want := want[t := b];
      info := info[t := o];
      waiters := Suspend(waiters, prio, t, flag);
      timed := SetTimer(timed, t, time);
      return Suspended, recved;
    }

    // rt_thread_timeout for a suspended thread
    method ThreadTimeout(t: nat)
      requires Inv(View()) && t in timed
      modifies this
      ensures View() == Timeout(old(View()), t) && Inv(View())
    {
      TimeoutKeeps(View(), t);
      waiters := Without(waiters, t);
      timed := timed - {t};
    }

    // rt_event_control with RT_IPC_CMD_RESET
    method EventReset()
      requires Inv(View())
      modifies this
      ensures View() == Reset(old(View())) && Inv(View())
    {
      while waiters != []
        invariant forall x :: x in timed ==> x in waiters
        invariant want == old(want) && info == old(info)
        decreases |waiters|
      {
        timed := timed - {waiters[0]};
        waiters := waiters[1..];
      }
      bits := {};
    }
  }

  lemma AndIsSubset(w: set<nat>, bits: set<nat>)
    ensures w * bits == w <==> w <= bits
    ensures bits * w == w <==> w <= bits
  {
    if w * bits == w {
      assert forall x :: x in w ==> x in w * bits;
    }
    assert bits * w == w * bits;
  }

  // After n threads that stay and `woken` ones, the rest of the walk completes w.
  ghost predicate Resumes(w: Walked, bits: set<nat>, want: seq<set<nat>>, info: seq<Option>, ws: seq<nat>, n: nat,
                          woken: seq<nat>) {
    && n <= |ws| && |want| == |info| && AllIn(ws[n..], |want|)
    && var r := Walk(bits, want, info, ws[n..]);
       w == Walked(r.bits, r.want, ws[..n] + r.stay, woken + r.woken)
  }

  lemma WakeStep(w: Walked, bits: set<nat>, want: seq<set<nat>>, info: seq<Option>, ws: seq<nat>, n: nat, woken: seq<nat>)
    requires n < |ws| && |want| == |info| && AllIn(ws, |want|)
    requires Satisfied(bits, want[ws[n]], info[ws[n]]) && Resumes(w, bits, want, info, ws, n, woken)
    ensures var t := ws[n];
      Resumes(w, Left(bits, want[t], info[t]), want[t := Received(bits, want[t], info[t])], info,
              ws[..n] + ws[n + 1..], n, woken + [t])
  {
    var ws' := ws[..n] + ws[n + 1..];
    assert ws[n..][1..] == ws[n + 1..] == ws'[n..];
    assert ws'[..n] == ws[..n];
  }
}
