// The message queue of rt-thread/src/ipc.c. A send or receive is two critical sections with
// the copy of the message between them; the node it works on belongs to neither list then.
// The steps below are the critical sections, the copies, timeouts and the reset, taken by any
// threads in any order.
module MsgQueues {
  import opened Lists
  import opened Waiters

  const ENTRY_MAX := 0xFFFF

  datatype Err = Ok | Error | TimedOut | Full | Suspended

  type Message = seq<int> // the bytes of a message buffer

  // Where a message node is: on the free list, on the queue, or in the hands of a thread
  // between the two critical sections of its call; `urgent` tells rt_mq_urgent from
  // rt_mq_send_wait.
  datatype Place =
    | Free
    | Queued
    | Grabbed(t: nat, urgent: bool)
    | Filled(t: nat, urgent: bool)
    | Receiving(t: nat)

  // `free` and `queue` are the two node lists in order, `data` the buffer of every node.
  datatype State = State(place: seq<Place>, free: seq<nat>, queue: seq<nat>, data: seq<Message>,
                         recvWait: seq<nat>, sendWait: seq<nat>,
                         recvWoken: set<nat>, sendWoken: set<nat>, timed: set<nat>)

  // ---- the invariant ----

  ghost predicate In(place: seq<Place>, x: nat, p: Place) {
    x < |place| && place[x] == p
  }

  // `list` holds exactly the nodes at place p, each once.
  ghost predicate Holds(list: seq<nat>, place: seq<Place>, p: Place) {
    NoDup(list) && forall x: nat :: x in list <==> In(place, x, p)
  }

  ghost predicate NodesOk(s: State) {
    && |s.place| == |s.data| <= ENTRY_MAX
    && Holds(s.free, s.place, Free) && Holds(s.queue, s.place, Queued)
  }

  ghost predicate Apart(s: State) {
    TwoSided(s.recvWait, s.sendWait, s.recvWoken, s.sendWoken, s.timed)
  }

  ghost predicate Inv(s: State) {
    && NodesOk(s) && Apart(s)
    && NoLostWakeup(|s.queue|, s.recvWait, s.recvWoken)
    && NoLostWakeup(|s.free|, s.sendWait, s.sendWoken)
  }

  ghost predicate Running(s: State, t: nat) { t !in s.recvWait && t !in s.sendWait }

  // The queued messages from head to tail.
  ghost function Gather(queue: seq<nat>, data: seq<Message>): seq<Message> {
    seq(|queue|, i requires 0 <= i < |queue| => if queue[i] < |data| then data[queue[i]] else [])
  }

  ghost function Messages(s: State): seq<Message> { Gather(s.queue, s.data) }

  // ---- the steps ----

  // rt_mq_send_wait or rt_mq_urgent, first critical section from the test of the free list on.
  // An urgent send never waits.
  ghost function Grab(s: State, prio: seq<nat>, flag: Flag, t: nat, urgent: bool, time: int): (State, Err)
    requires s.free != [] ==> s.free[0] < |s.place|
  {
    var s0 := s.(sendWoken := s.sendWoken - {t});
    if s.free == [] then
      if urgent || time == 0 then (s0, Full)
      else (s0.(sendWait := Suspend(s.sendWait, prio, t, flag), timed := SetTimer(s.timed, t, time)), Suspended)
    else
      (s0.(free := s.free[1..], place := s.place[s.free[0] := Grabbed(t, urgent)]), Ok)
  }

  // rt_memcpy of the message to the front of the node's buffer.
  function Overwrite(buffer: Message, message: Message): Message
    requires |message| <= |buffer|
  {
    message + buffer[|message|..]
  }

  ghost function Fill(s: State, node: nat, message: Message): State
    requires node < |s.place| == |s.data| && s.place[node].Grabbed? && |message| <= |s.data[node]|
  {
    s.(data := s.data[node := Overwrite(s.data[node], message)],
       place := s.place[node := Filled(s.place[node].t, s.place[node].urgent)])
  }

  // Second critical section of a send: link the node at the tail, or at the head if urgent,
  // and resume the first waiting receiver.
  ghost function Link(s: State, node: nat): State
    requires node < |s.place| && s.place[node].Filled?
  {
    s.(queue := if s.place[node].urgent then [node] + s.queue else s.queue + [node],
       place := s.place[node := Queued],
       recvWait := Rest(s.recvWait), recvWoken := s.recvWoken + First(s.recvWait),
       timed := s.timed - First(s.recvWait))
  }

  // rt_mq_recv, first critical section from the test of the queue on.
  ghost function Pop(s: State, prio: seq<nat>, flag: Flag, t: nat, time: int): (State, Err)
    requires s.queue != [] ==> s.queue[0] < |s.place|
  {
    var s0 := s.(recvWoken := s.recvWoken - {t});
    if s.queue == [] then
      if time == 0 then (s0, TimedOut)
      else (s0.(recvWait := Suspend(s.recvWait, prio, t, flag), timed := SetTimer(s.timed, t, time)), Suspended)
    else
      (s0.(queue := s.queue[1..], place := s.place[s.queue[0] := Receiving(t)]), Ok)
  }

  // rt_mq_recv, second critical section: the node goes back to the free list and the first
  // waiting sender is resumed.
  ghost function Return(s: State, node: nat): State
    requires node < |s.place|
  {
    s.(free := [node] + s.free, place := s.place[node := Free],
       sendWait := Rest(s.sendWait), sendWoken := s.sendWoken + First(s.sendWait),
       timed := s.timed - First(s.sendWait))
  }

  ghost function Timeout(s: State, t: nat): State {
    s.(recvWait := Without(s.recvWait, t), sendWait := Without(s.sendWait, t), timed := s.timed - {t})
  }

  // One round of the loop that empties the queue into the free list.
  ghost function Discard(s: State): State
    requires s.queue != [] && s.queue[0] < |s.place|
  {
    s.(queue := s.queue[1..], free := [s.queue[0]] + s.free, place := s.place[s.queue[0] := Free])
  }

  ghost function DiscardAll(s: State): State
    requires NodesOk(s)
    ensures NodesOk(DiscardAll(s))
    decreases |s.queue|
  {
    if s.queue == [] then s
    else
      DiscardKeepsNodes(s);
      DiscardAll(Discard(s))
  }

  // RT_IPC_CMD_RESET: every waiter is resumed with an error and the queue is emptied; a node
  // in the hands of a thread stays with it.
  ghost function Reset(s: State): State
    requires NodesOk(s)
  {
    DiscardAll(s.(recvWait := [], sendWait := [], timed := {}))
  }

  // ---- nodes move between places ----

  lemma TakeHead(list: seq<nat>, place: seq<Place>, p: Place, q: Place)
    requires Holds(list, place, p) && list != [] && p != q
    ensures In(place, list[0], p)
    ensures Holds(list[1..], place[list[0] := q], p)
  {
    assert list[0] in list;
    var rest := list[1..];
    forall x: nat
      ensures x in rest <==> In(place[list[0] := q], x, p)
    {
      assert list == [list[0]] + rest;
      assert forall i :: 0 <= i < |rest| ==> rest[i] == list[i + 1] != list[0];
      assert x in list <==> In(place, x, p);
    }
    assert forall i :: 0 <= i < |rest| ==> rest[i] == list[i + 1];
  }

  lemma PutNode(list: seq<nat>, list': seq<nat>, place: seq<Place>, node: nat, p: Place)
    requires Holds(list, place, p) && node < |place| && place[node] != p
    requires list' == [node] + list || list' == list + [node]
    ensures Holds(list', place[node := p], p)
  {
    assert !In(place, node, p);
    forall x: nat
      ensures x in list' <==> In(place[node := p], x, p)
    {
      assert x in list <==> In(place, x, p);
    }
  }

  // A list is not touched by a node moving between two other places.
  lemma ElseWhere(list: seq<nat>, place: seq<Place>, node: nat, p: Place, q: Place)
    requires Holds(list, place, p) && node < |place| && place[node] != p && q != p
    ensures Holds(list, place[node := q], p)
  {
    forall x: nat
      ensures x in list <==> In(place[node := q], x, p)
    {
      assert x in list <==> In(place, x, p);
    }
  }

  lemma DiscardKeepsNodes(s: State)
    requires NodesOk(s) && s.queue != []
    ensures s.queue[0] < |s.place| && NodesOk(Discard(s))
  {
    TakeHead(s.queue, s.place, Queued, Free);
    PutNode(s.free, [s.queue[0]] + s.free, s.place, s.queue[0], Free);
  }

  // A node outside the queue leaves room in the counter: the overflow returns of sending are
  // never taken.
  lemma RoomToLink(s: State, node: nat)
    requires NodesOk(s) && node < |s.place| && s.place[node] != Queued
    ensures |s.queue| < ENTRY_MAX
  {
    var used, all := [node] + s.queue, seq(|s.place|, i requires 0 <= i < |s.place| => i);
    assert !In(s.place, node, Queued);
    forall i | 0 <= i < |used|
      ensures used[i] in all
    {
      assert i > 0 ==> used[i] in s.queue;
      assert all[used[i]] == used[i];
    }
    NoDupShorter(used, all);
  }

  // ---- every step keeps the invariant and acts on the messages as on a deque ----

  lemma GrabKeeps(s: State, prio: seq<nat>, flag: Flag, t: nat, urgent: bool, time: int)
    requires Inv(s) && Running(s, t) && t !in s.recvWoken
    ensures s.free != [] ==> s.free[0] < |s.place|
    ensures var (s', r) := Grab(s, prio, flag, t, urgent, time);
      Inv(s') && Messages(s') == Messages(s) && (r == Ok <==> s.free != [])
  {
    TakeUnit(|s.free|, s.sendWait, s.sendWoken, t);
    if s.free != [] {
      TakeHead(s.free, s.place, Free, Grabbed(t, urgent));
      ElseWhere(s.queue, s.place, s.free[0], Queued, Grabbed(t, urgent));
    } else {
      SuspendMembers(s.sendWait, prio, t, flag);
    }
  }

  lemma GrabKeepsInv(s: State, prio: seq<nat>, flag: Flag, t: nat, urgent: bool, time: int)
    requires Inv(s) && Running(s, t) && t !in s.recvWoken
    ensures s.free != [] ==> s.free[0] < |s.place|
    ensures Inv(Grab(s, prio, flag, t, urgent, time).0)
  {
    GrabKeeps(s, prio, flag, t, urgent, time);
  }

  lemma FillKeeps(s: State, node: nat, message: Message)
    requires Inv(s) && node < |s.place| && s.place[node].Grabbed? && |message| <= |s.data[node]|
    ensures Inv(Fill(s, node, message)) && Messages(Fill(s, node, message)) == Messages(s)
  {
    var q := Filled(s.place[node].t, s.place[node].urgent);
    ElseWhere(s.queue, s.place, node, Queued, q);
    ElseWhere(s.free, s.place, node, Free, q);
    assert !In(s.place, node, Queued);
    assert forall i :: 0 <= i < |s.queue| ==> s.queue[i] in s.queue;
    assert Messages(Fill(s, node, message)) == Messages(s);
  }

  lemma LinkKeeps(s: State, node: nat)
    requires Inv(s) && node < |s.place| && s.place[node].Filled?
    ensures Inv(Link(s, node))
    ensures Messages(Link(s, node)) ==
      if s.place[node].urgent then [s.data[node]] + Messages(s) else Messages(s) + [s.data[node]]
  {
    hide Gather;
    var s' := Link(s, node);
    GatherMore(s.queue, s.data, node);
    PutNode(s.queue, s'.queue, s.place, node, Queued);
    ElseWhere(s.free, s.place, node, Free, Queued);
    FirstLeaves(s.recvWait, s.sendWait, s.recvWoken, s.sendWoken, s.timed, {});
    WakeFirst(|s.queue|, s.recvWait, s.recvWoken);
    hide NoLostWakeup, TwoSided, Holds;
    assert s.sendWoken - {} == s.sendWoken;
  }

  lemma GatherMore(queue: seq<nat>, data: seq<Message>, node: nat)
    requires node < |data|
    ensures Gather([node] + queue, data) == [data[node]] + Gather(queue, data)
    ensures Gather(queue + [node], data) == Gather(queue, data) + [data[node]]
  {
  }

  lemma LinkKeepsInv(s: State, node: nat)
    requires Inv(s) && node < |s.place| && s.place[node].Filled?
    ensures Inv(Link(s, node))
  {
    LinkKeeps(s, node);
  }

  lemma PopKeeps(s: State, prio: seq<nat>, flag: Flag, t: nat, time: int)
    requires Inv(s) && Running(s, t) && t !in s.sendWoken
    ensures s.queue != [] ==> s.queue[0] < |s.place|
    ensures var (s', r) := Pop(s, prio, flag, t, time);
      && Inv(s') && (r == Ok <==> Messages(s) != [])
      && Messages(s) == (if r == Ok then [s.data[s.queue[0]]] + Messages(s') else Messages(s'))
  {
    TakeUnit(|s.queue|, s.recvWait, s.recvWoken, t);
    if s.queue != [] {
      TakeHead(s.queue, s.place, Queued, Receiving(t));
      ElseWhere(s.free, s.place, s.queue[0], Free, Receiving(t));
      assert Messages(s) == [s.data[s.queue[0]]] + Gather(s.queue[1..], s.data);
    } else {
      SuspendMembers(s.recvWait, prio, t, flag);
    }
  }

  lemma PopKeepsInv(s: State, prio: seq<nat>, flag: Flag, t: nat, time: int)
    requires Inv(s) && Running(s, t) && t !in s.sendWoken
    ensures s.queue != [] ==> s.queue[0] < |s.place|
    ensures Inv(Pop(s, prio, flag, t, time).0)
  {
    PopKeeps(s, prio, flag, t, time);
  }

  lemma ReturnKeepsInv(s: State, node: nat)
    requires Inv(s) && node < |s.place| && s.place[node].Receiving?
    ensures Inv(Return(s, node))
  {
    ReturnKeeps(s, node);
  }

  lemma ReturnKeeps(s: State, node: nat)
    requires Inv(s) && node < |s.place| && s.place[node].Receiving?
    ensures Inv(Return(s, node)) && Messages(Return(s, node)) == Messages(s)
  {
    var s' := Return(s, node);
    PutNode(s.free, s'.free, s.place, node, Free);
    ElseWhere(s.queue, s.place, node, Queued, Free);
    OtherSide(s.recvWait, s.sendWait, s.recvWoken, s.sendWoken, s.timed);
    FirstLeaves(s.sendWait, s.recvWait, s.sendWoken, s.recvWoken, s.timed, {});
    OtherSide(s'.recvWait, s'.sendWait, s'.recvWoken, s'.sendWoken, s'.timed);
    WakeFirst(|s.free|, s.sendWait, s.sendWoken);
    hide NoLostWakeup, TwoSided, Holds;
    assert s.recvWoken - {} == s.recvWoken;
  }

  lemma TimeoutKeeps(s: State, t: nat)
    requires Inv(s) && t in s.timed
    ensures Inv(Timeout(s, t)) && Messages(Timeout(s, t)) == Messages(s)
  {
    WithoutMembers(s.recvWait, t);
    WithoutMembers(s.sendWait, t);
    WithoutNoDup(s.recvWait, t);
    WithoutNoDup(s.sendWait, t);
  }

  lemma {:induction false} DiscardAllEmpties(s: State)
    requires NodesOk(s)
    ensures var s' := DiscardAll(s);
      && s'.queue == [] && s'.data == s.data
      && s'.recvWait == s.recvWait && s'.sendWait == s.sendWait && s'.timed == s.timed
      && s'.recvWoken == s.recvWoken && s'.sendWoken == s.sendWoken
      && |s'.place| == |s.place|
      && forall x: nat :: x < |s.place| ==> s'.place[x] == if s.place[x] == Queued then Free else s.place[x]
    decreases |s.queue|
  {
    if s.queue == [] {
      forall x: nat | x < |s.place|
        ensures s.place[x] != Queued
      {
        assert x in s.queue <==> In(s.place, x, Queued);
      }
    } else {
      assert In(s.place, s.queue[0], Queued) by { assert s.queue[0] in s.queue; }
      DiscardKeepsNodes(s);
      DiscardAllEmpties(Discard(s));
    }
  }

  lemma ResetKeeps(s: State)
    requires Inv(s)
    ensures Inv(Reset(s)) && Messages(Reset(s)) == []
    ensures |Reset(s).place| == |s.place|
    ensures forall x: nat :: x < |s.place| ==>
      Reset(s).place[x] == if s.place[x] == Queued then Free else s.place[x]
  {
    DiscardAllEmpties(s.(recvWait := [], sendWait := [], timed := {}));
  }

  // Nodes are conserved: every node is free, queued or held by a thread.
  lemma NodeCount(s: State)
    requires NodesOk(s)
    ensures |s.free| + |s.queue| + |HeldNodes(s)| == |s.place|
  {
    MembersCount(s.free);
    MembersCount(s.queue);
    NodesParted(s);
    hide Holds, Members, HeldNodes;
  }

  // Every node is in exactly one of the three places.
  lemma NodesParted(s: State)
    requires NodesOk(s)
    ensures Members(s.free) !! Members(s.queue) && Members(s.free) + Members(s.queue) !! HeldNodes(s)
    ensures Below(|s.place|) == Members(s.free) + Members(s.queue) + HeldNodes(s)
  {
    var f, q, h := Members(s.free), Members(s.queue), HeldNodes(s);
    forall x: nat
      ensures x in f <==> In(s.place, x, Free)
      ensures x in q <==> In(s.place, x, Queued)
      ensures x in h <==> x < |s.place| && Held(s.place[x])
    {
    }
    hide Holds, Members, HeldNodes;
  }

  ghost predicate Held(p: Place) { p != Free && p != Queued }

  ghost function HeldNodes(s: State): set<nat> {
    set x: nat | x < |s.place| && Held(s.place[x])
  }

  // ---- what each step comes to ----

  // A sender gets the first free node; else it gives up at once, as an urgent one always does, or
  // waits in the senders' line.
  lemma GrabOutcome(s: State, prio: seq<nat>, flag: Flag, t: nat, urgent: bool, time: int)
    requires Inv(s) && Running(s, t) && t !in s.recvWoken
    ensures s.free != [] ==> s.free[0] < |s.place|
    ensures var (s', r) := Grab(s, prio, flag, t, urgent, time);
      && (r == Ok <==> s.free != []) && (r == Full <==> s.free == [] && (urgent || time == 0))
      && (r == Suspended <==> s.free == [] && !urgent && time != 0)
      && (r == Ok ==> s.free == [s.free[0]] + s'.free && s'.place == s.place[s.free[0] := Grabbed(t, urgent)])
      && (r != Ok ==> s'.free == s.free && s'.place == s.place)
      && s'.recvWait == s.recvWait && s'.recvWoken == s.recvWoken && s'.data == s.data && s'.queue == s.queue
      && (forall x :: x in s'.sendWoken <==> x in s.sendWoken && x != t)
      && (if r == Suspended then t in s'.sendWait && Joined(s.sendWait, s.timed, prio, flag, t, time, s'.sendWait, s'.timed)
          else s'.sendWait == s.sendWait && s'.timed == s.timed)
  {
    SuspendJoins(s.sendWait, s.timed, prio, flag, t, time);
    HeadsInRange(s);
    HeadOnce(s.free);
  }

  // A message has been linked, and the first waiting receiver is resumed.
  lemma LinkOutcome(s: State, node: nat)
    requires Inv(s) && node < |s.place| && s.place[node].Filled?
    ensures var s' := Link(s, node);
      && s'.place == s.place[node := Queued]
      && FirstResumed(s.recvWait, s.timed, s'.recvWait, s'.timed)
      && (forall x :: x in s'.recvWoken <==> x in s.recvWoken || (x in s.recvWait && x !in s'.recvWait))
      && s' == s.(place := s'.place, queue := s'.queue, recvWait := s'.recvWait, recvWoken := s'.recvWoken, timed := s'.timed)
  {
    HeadOnce(s.recvWait);
  }

  // A receiver gets the node at the head of the queue; else it gives up at once or waits in the
  // receivers' line.
  lemma PopOutcome(s: State, prio: seq<nat>, flag: Flag, t: nat, time: int)
    requires Inv(s) && Running(s, t) && t !in s.sendWoken
    ensures s.queue != [] ==> s.queue[0] < |s.place|
    ensures var (s', r) := Pop(s, prio, flag, t, time);
      && (r == Ok <==> s.queue != []) && (r == TimedOut <==> s.queue == [] && time == 0)
      && (r == Suspended <==> s.queue == [] && time != 0)
      && (r == Ok ==> s.queue == [s.queue[0]] + s'.queue && s'.place == s.place[s.queue[0] := Receiving(t)])
      && (r != Ok ==> s'.queue == s.queue && s'.place == s.place)
      && s'.sendWait == s.sendWait && s'.sendWoken == s.sendWoken && s'.data == s.data && s'.free == s.free
      && (forall x :: x in s'.recvWoken <==> x in s.recvWoken && x != t)
      && (if r == Suspended then t in s'.recvWait && Joined(s.recvWait, s.timed, prio, flag, t, time, s'.recvWait, s'.timed)
          else s'.recvWait == s.recvWait && s'.timed == s.timed)
  {
    SuspendJoins(s.recvWait, s.timed, prio, flag, t, time);
    HeadsInRange(s);
    HeadOnce(s.queue);
  }

  // A node is free again, and the first waiting sender is resumed.
  lemma ReturnOutcome(s: State, node: nat)
    requires Inv(s) && node < |s.place| && s.place[node].Receiving?
    ensures var s' := Return(s, node);
      && s'.place == s.place[node := Free]
      && FirstResumed(s.sendWait, s.timed, s'.sendWait, s'.timed)
      && (forall x :: x in s'.sendWoken <==> x in s.sendWoken || (x in s.sendWait && x !in s'.sendWait))
      && s' == s.(place := s'.place, free := s'.free, sendWait := s'.sendWait, sendWoken := s'.sendWoken, timed := s'.timed)
  {
    HeadOnce(s.sendWait);
  }

  lemma TimeoutOutcome(s: State, t: nat)
    requires Inv(s) && t in s.timed
    ensures var s' := Timeout(s, t);
      && LeftAlone(s.recvWait, t, s'.recvWait) && LeftAlone(s.sendWait, t, s'.sendWait) && Running(s', t)
      && (forall x :: x in s'.timed <==> x in s.timed && x != t)
      && s' == s.(recvWait := s'.recvWait, sendWait := s'.sendWait, timed := s'.timed)
  {
    WithoutLeaves(s.recvWait, t);
    WithoutLeaves(s.sendWait, t);
  }

  // ---- runs ----

  datatype Event =
    | DoGrab(t: nat, urgent: bool, time: int)
    | DoFill(t: nat, node: nat, message: Message)
    | DoLink(t: nat, node: nat)
    | DoPop(t: nat, time: int)
    | DoReturn(t: nat, node: nat)
    | DoTimeout(t: nat)
    | DoReset

  // A thread that is not suspended may call in, one that was resumed goes on with its call,
  // and only the thread holding a node works on it.
  ghost predicate Enabled(s: State, e: Event) {
    match e
    case DoGrab(t, _, _) => Running(s, t) && t !in s.recvWoken
    case DoFill(t, node, message) =>
      node < |s.place| == |s.data| && s.place[node].Grabbed? && s.place[node].t == t && |message| <= |s.data[node]|
    case DoLink(t, node) => node < |s.place| && s.place[node].Filled? && s.place[node].t == t
    case DoPop(t, _) => Running(s, t) && t !in s.sendWoken
    case DoReturn(t, node) => node < |s.place| && s.place[node] == Receiving(t)
    case DoTimeout(t) => t in s.timed
    case DoReset => true
  }

  lemma HeadsInRange(s: State)
    requires NodesOk(s)
    ensures s.free != [] ==> In(s.place, s.free[0], Free)
    ensures s.queue != [] ==> In(s.place, s.queue[0], Queued)
  {
    assert s.free != [] ==> s.free[0] in s.free;
    assert s.queue != [] ==> s.queue[0] in s.queue;
  }

  ghost function Next(s: State, prio: seq<nat>, flag: Flag, e: Event): State
    requires NodesOk(s) && Enabled(s, e)
  {
    HeadsInRange(s);
    match e
    case DoGrab(t, urgent, time) => Grab(s, prio, flag, t, urgent, time).0
    case DoFill(_, node, message) => Fill(s, node, message)
    case DoLink(_, node) => Link(s, node)
    case DoPop(t, time) => Pop(s, prio, flag, t, time).0
    case DoReturn(_, node) => Return(s, node)
    case DoTimeout(t) => Timeout(s, t)
    case DoReset => Reset(s)
  }

  // What an event adds to the queue, and what it takes from it.
  ghost function Sent(s: State, e: Event): seq<Message> {
    if e.DoLink? && e.node < |s.data| then [s.data[e.node]] else []
  }

  ghost function Got(s: State, e: Event): seq<Message> {
    if e.DoPop? && s.queue != [] && s.queue[0] < |s.data| then [s.data[s.queue[0]]] else []
  }

  ghost predicate Urgent(s: State, e: Event) {
    e.DoLink? && e.node < |s.place| && s.place[e.node].Filled? && s.place[e.node].urgent
  }

  // Every step keeps the invariant and is an operation of a deque: an ordinary send appends,
  // an urgent send prepends, a receive takes the head, a reset empties, and everything else
  // leaves the queue as it is.
  ghost predicate IsDequeStep(s: State, e: Event, s': State) {
    if e.DoReset? then Messages(s') == []
    else if Urgent(s, e) then Messages(s') == Sent(s, e) + Messages(s)
    else Got(s, e) + Messages(s') == Messages(s) + Sent(s, e)
  }

  lemma StepIsDeque(s: State, prio: seq<nat>, flag: Flag, e: Event)
    requires Inv(s) && Enabled(s, e)
    ensures var s' := Next(s, prio, flag, e);
      Inv(s') && |s'.place| == |s.place| && IsDequeStep(s, e, s')
  {
    if e.DoPop? {
      PopStep(s, prio, flag, e);
    } else if e.DoReset? {
      ResetKeeps(s);
    } else if e.DoLink? {
      LinkStep(s, prio, flag, e);
    } else {
      QuietStep(s, prio, flag, e);
    }
  }

  lemma LinkStep(s: State, prio: seq<nat>, flag: Flag, e: Event)
    requires Inv(s) && Enabled(s, e) && e.DoLink?
    ensures var s' := Next(s, prio, flag, e);
      Inv(s') && |s'.place| == |s.place| && IsDequeStep(s, e, s')
  {
    hide Holds, TwoSided, NoLostWakeup;
    LinkKeeps(s, e.node);
    assert [] + Messages(Link(s, e.node)) == Messages(Link(s, e.node));
  }

  lemma QuietStep(s: State, prio: seq<nat>, flag: Flag, e: Event)
    requires Inv(s) && Enabled(s, e) && !e.DoReset? && !e.DoLink? && !e.DoPop?
    ensures var s' := Next(s, prio, flag, e);
      Inv(s') && |s'.place| == |s.place| && IsDequeStep(s, e, s')
  {
    HeadsInRange(s);
    match e {
      case DoGrab(t, urgent, time) => GrabKeeps(s, prio, flag, t, urgent, time);
      case DoFill(_, node, message) => FillKeeps(s, node, message);
      case DoReturn(_, node) => ReturnKeeps(s, node);
      case DoTimeout(t) => TimeoutKeeps(s, t);
    }
    Still(s, e, Next(s, prio, flag, e));
  }

  lemma Still(s: State, e: Event, s': State)
    requires Messages(s) == Messages(s') && !e.DoReset? && !e.DoLink? && !e.DoPop?
    ensures IsDequeStep(s, e, s')
  {
    assert [] + Messages(s') == Messages(s) + [];
  }

  lemma PopStep(s: State, prio: seq<nat>, flag: Flag, e: Event)
    requires Inv(s) && Enabled(s, e) && e.DoPop?
    ensures var s' := Next(s, prio, flag, e);
      Inv(s') && |s'.place| == |s.place| && IsDequeStep(s, e, s')
  {
    hide Holds, TwoSided, NoLostWakeup;
    HeadsInRange(s);
    PopKeeps(s, prio, flag, e.t, e.time);
    assert Messages(s) + [] == Messages(s);
    assert s.queue == [] ==> [] + Messages(Next(s, prio, flag, e)) == Messages(s);
  }

  ghost predicate By(e: Event, t: nat) { !e.DoReset? && e.t == t }

  // A node in the hands of a thread, and the message in it, stay as they are until that
  // thread goes on.
  lemma HeldStays(s: State, prio: seq<nat>, flag: Flag, e: Event, node: nat, t: nat)
    requires Inv(s) && Enabled(s, e) && !By(e, t)
    requires node < |s.place| && Held(s.place[node]) && s.place[node].t == t
    ensures var s' := Next(s, prio, flag, e);
      node < |s'.place| == |s'.data| && s'.place[node] == s.place[node] && s'.data[node] == s.data[node]
  {
    HeadsInRange(s);
    if e.DoReset? {
      ResetKeeps(s);
      DiscardAllEmpties(s.(recvWait := [], sendWait := [], timed := {}));
    }
  }

  // The steps are defined on states that satisfy the invariant; RunConserves shows that all do.
  ghost predicate IsStep(s: State, prio: seq<nat>, flag: Flag, e: Event, s': State) {
    Inv(s) ==> Enabled(s, e) && s' == Next(s, prio, flag, e)
  }

  // The state rt_mq_init leaves behind: the free list runs from the last node to the first.
  ghost function Init(data: seq<Message>): State {
    State(seq(|data|, _ => Free), CountDown(|data|), [], data, [], [], {}, {}, {})
  }

  function CountDown(n: nat): seq<nat> {
    seq(n, i requires 0 <= i < n => n - 1 - i)
  }

  lemma InitOk(data: seq<Message>)
    requires |data| <= ENTRY_MAX
    ensures Inv(Init(data)) && Messages(Init(data)) == []
  {
    var s := Init(data);
    forall x: nat
      ensures x in s.free <==> In(s.place, x, Free)
    {
      if x < |data| {
        assert s.free[|data| - 1 - x] == x;
      }
    }
  }

  ghost predicate IsRun(prio: seq<nat>, flag: Flag, trace: seq<State>, events: seq<Event>) {
    && |trace| == |events| + 1
    && |trace[0].data| <= ENTRY_MAX && trace[0] == Init(trace[0].data)
    && forall k: nat :: k < |events| ==> StepAt(prio, flag, trace, events, k)
  }

  ghost predicate StepAt(prio: seq<nat>, flag: Flag, trace: seq<State>, events: seq<Event>, k: nat) {
    k < |events| && k + 1 < |trace| && IsStep(trace[k], prio, flag, events[k], trace[k + 1])
  }

  // The messages sent, and those received, since the last reset before event k.
  ghost function AllSent(trace: seq<State>, events: seq<Event>, k: nat): seq<Message>
    requires k <= |events| < |trace|
  {
    if k == 0 || events[k - 1].DoReset? then []
    else AllSent(trace, events, k - 1) + Sent(trace[k - 1], events[k - 1])
  }

  ghost function AllGot(trace: seq<State>, events: seq<Event>, k: nat): seq<Message>
    requires k <= |events| < |trace|
  {
    if k == 0 || events[k - 1].DoReset? then []
    else AllGot(trace, events, k - 1) + Got(trace[k - 1], events[k - 1])
  }

  // No urgent message was sent since the last reset before event k.
  ghost predicate Calm(trace: seq<State>, events: seq<Event>, k: nat)
    requires k <= |events| < |trace|
  {
    k == 0 || events[k - 1].DoReset?
    || (Calm(trace, events, k - 1) && !Urgent(trace[k - 1], events[k - 1]))
  }

  lemma RegroupBags(sent: seq<Message>, got: seq<Message>, q: seq<Message>, q': seq<Message>,
                    a: seq<Message>, b: seq<Message>)
    requires multiset(sent) == multiset(got) + multiset(q)
    requires b + q' == q + a || (b == [] && q' == a + q)
    ensures multiset(sent + a) == multiset(got + b) + multiset(q')
  {
    assert multiset(sent + a) == multiset(sent) + multiset(a);
    assert multiset(got + b) == multiset(got) + multiset(b);
    if b + q' == q + a {
      assert multiset(b) + multiset(q') == multiset(b + q') == multiset(q + a) == multiset(q) + multiset(a);
    } else {
      assert multiset(q') == multiset(a + q) == multiset(a) + multiset(q);
    }
    Bags(multiset(sent), multiset(got), multiset(q), multiset(q'), multiset(a), multiset(b));
  }

  lemma Bags(sent: multiset<Message>, got: multiset<Message>, q: multiset<Message>, q': multiset<Message>,
             a: multiset<Message>, b: multiset<Message>)
    requires sent == got + q && b + q' == q + a
    ensures sent + a == got + b + q'
  {
    forall m
      ensures (sent + a)[m] == (got + b + q')[m]
    {
      assert (b + q')[m] == (q + a)[m];
    }
  }

  lemma Regroup(sent: seq<Message>, got: seq<Message>, q: seq<Message>, q': seq<Message>,
                a: seq<Message>, b: seq<Message>)
    requires sent == got + q && b + q' == q + a
    ensures sent + a == got + b + q'
  {
    assert got + q + a == got + (q + a);
    assert got + (b + q') == got + b + q';
  }

  ghost predicate Conserved(trace: seq<State>, events: seq<Event>, k: nat)
    requires k <= |events| < |trace|
  {
    var sent, got, q := AllSent(trace, events, k), AllGot(trace, events, k), Messages(trace[k]);
    multiset(sent) == multiset(got) + multiset(q) && (Calm(trace, events, k) ==> sent == got + q)
  }

  // In every reachable state the invariant holds, the messages sent since the last reset are
  // those received and those still queued, and without urgent ones they come out in order.
  lemma {:induction false} RunConserves(prio: seq<nat>, flag: Flag, trace: seq<State>, events: seq<Event>, k: nat)
    requires IsRun(prio, flag, trace, events) && k <= |events|
    ensures Inv(trace[k]) && |trace[k].place| == |trace[0].place|
    ensures Conserved(trace, events, k)
  {
    hide Inv, Conserved;
    if k == 0 {
      ConserveStart(prio, flag, trace, events);
    } else {
      RunConserves(prio, flag, trace, events, k - 1);
      ConserveStep(prio, flag, trace, events, k - 1);
    }
  }

  lemma ConserveStart(prio: seq<nat>, flag: Flag, trace: seq<State>, events: seq<Event>)
    requires IsRun(prio, flag, trace, events)
    ensures Inv(trace[0]) && Conserved(trace, events, 0)
  {
    InitOk(trace[0].data);
  }

  lemma ConserveStep(prio: seq<nat>, flag: Flag, trace: seq<State>, events: seq<Event>, k: nat)
    requires IsRun(prio, flag, trace, events) && k < |events|
    requires Inv(trace[k]) && Conserved(trace, events, k)
    ensures Inv(trace[k + 1]) && |trace[k + 1].place| == |trace[k].place|
    ensures Conserved(trace, events, k + 1)
  {
    var s, e, s' := trace[k], events[k], trace[k + 1];
    assert StepAt(prio, flag, trace, events, k);
    StepIsDeque(s, prio, flag, e);
    if !e.DoReset? {
      RegroupBags(AllSent(trace, events, k), AllGot(trace, events, k), Messages(s), Messages(s'), Sent(s, e), Got(s, e));
      if Calm(trace, events, k + 1) {
        Regroup(AllSent(trace, events, k), AllGot(trace, events, k), Messages(s), Messages(s'), Sent(s, e), Got(s, e));
      }
    }
  }

  lemma RunInv(prio: seq<nat>, flag: Flag, trace: seq<State>, events: seq<Event>, k: nat)
    requires IsRun(prio, flag, trace, events) && k <= |events|
    ensures Inv(trace[k])
  {
    RunConserves(prio, flag, trace, events, k);
  }

  // Over any stretch of a run in which thread t does nothing, its node keeps its message.
  lemma {:induction false} HeldThrough(prio: seq<nat>, flag: Flag, trace: seq<State>, events: seq<Event>,
                                       j: nat, k: nat, node: nat, t: nat)
    requires IsRun(prio, flag, trace, events) && j <= k <= |events|
    requires forall i :: j <= i < k ==> !By(events[i], t)
    requires node < |trace[j].place| && Held(trace[j].place[node]) && trace[j].place[node].t == t
    ensures node < |trace[k].place| == |trace[k].data| && |trace[j].data| == |trace[j].place|
    ensures trace[k].place[node] == trace[j].place[node] && trace[k].data[node] == trace[j].data[node]
  {
    RunInv(prio, flag, trace, events, j);
    if j < k {
      HeldThrough(prio, flag, trace, events, j, k - 1, node, t);
      RunInv(prio, flag, trace, events, k - 1);
      assert StepAt(prio, flag, trace, events, k - 1);
      HeldStays(trace[k - 1], prio, flag, events[k - 1], node, t);
    }
  }

  // A receiver copies out the message that was at the head of the queue when it took it,
  // whatever other threads did in between.
  lemma ReceivedIntact(prio: seq<nat>, flag: Flag, trace: seq<State>, events: seq<Event>, j: nat, k: nat)
    requires IsRun(prio, flag, trace, events) && j < k <= |events|
    requires events[j].DoPop? && trace[j].queue != []
    requires forall i :: j < i < k ==> !By(events[i], events[j].t)
    ensures var node := trace[j].queue[0];
      && node < |trace[k].place| == |trace[k].data| && trace[k].place[node] == Receiving(events[j].t)
      && Messages(trace[j]) != [] && trace[k].data[node] == Messages(trace[j])[0]
  {
    RunInv(prio, flag, trace, events, j);
    assert StepAt(prio, flag, trace, events, j);
    HeadsInRange(trace[j]);
    HeldThrough(prio, flag, trace, events, j + 1, k, trace[j].queue[0], events[j].t);
  }

  // What a sender copied in is what its second critical section puts on the queue.
  lemma SentIntact(prio: seq<nat>, flag: Flag, trace: seq<State>, events: seq<Event>, j: nat, k: nat)
    requires IsRun(prio, flag, trace, events) && j < k < |events|
    requires events[j].DoFill? && events[k] == DoLink(events[j].t, events[j].node)
    requires forall i :: j < i < k ==> !By(events[i], events[j].t)
    ensures |Sent(trace[k], events[k])| == 1 && events[j].message <= Sent(trace[k], events[k])[0]
  {
    RunInv(prio, flag, trace, events, j);
    assert StepAt(prio, flag, trace, events, j);
    HeldThrough(prio, flag, trace, events, j + 1, k, events[j].node, events[j].t);
  }

  // The time thread t gave when it last sent or received, before event k.
  ghost function LastTime(events: seq<Event>, t: nat, k: nat): int
    requires k <= |events|
  {
    if k == 0 then 0
    else match events[k - 1]
      case DoGrab(u, _, time) => if u == t then time else LastTime(events, t, k - 1)
      case DoPop(u, time) => if u == t then time else LastTime(events, t, k - 1)
      case _ => LastTime(events, t, k - 1)
  }

  ghost predicate Calls(e: Event, t: nat) { (e.DoGrab? || e.DoPop?) && e.t == t }

  // After any run a waiter can time out exactly if it did not ask to wait forever, and nobody
  // waits after a reset.
  lemma {:induction false} RunTimers(prio: seq<nat>, flag: Flag, trace: seq<State>, events: seq<Event>, k: nat, x: nat)
    requires IsRun(prio, flag, trace, events) && k <= |events| && !Running(trace[k], x)
    ensures Enabled(trace[k], DoTimeout(x)) <==> LastTime(events, x, k) > 0
    ensures k > 0 ==> !events[k - 1].DoReset?
  {
    if k > 0 {
      RunInv(prio, flag, trace, events, k - 1);
      assert StepAt(prio, flag, trace, events, k - 1);
      StillInLine(trace[k - 1], prio, flag, events[k - 1], x);
      if !Calls(events[k - 1], x) {
        RunTimers(prio, flag, trace, events, k - 1, x);
      }
    }
  }

  // Who waits after a step waited before with the same timer, or has just been suspended.
  lemma StillInLine(s: State, prio: seq<nat>, flag: Flag, e: Event, x: nat)
    requires Inv(s) && Enabled(s, e) && !Running(Next(s, prio, flag, e), x)
    ensures !e.DoReset?
    ensures if Calls(e, x) then x in Next(s, prio, flag, e).timed <==> e.time > 0
            else !Running(s, x) && (x in Next(s, prio, flag, e).timed <==> x in s.timed)
  {
    match e
    case DoGrab(t, urgent, time) =>
      GrabOutcome(s, prio, flag, t, urgent, time);
      SuspendMembers(s.sendWait, prio, t, flag);
    case DoFill(_, _, _) =>
    case DoLink(_, node) => HeadOnce(s.recvWait);
    case DoPop(t, time) =>
      PopOutcome(s, prio, flag, t, time);
      SuspendMembers(s.recvWait, prio, t, flag);
    case DoReturn(_, node) => HeadOnce(s.sendWait);
    case DoTimeout(t) =>
      WithoutMembers(s.recvWait, t);
      WithoutMembers(s.sendWait, t);
    case DoReset => DiscardAllEmpties(s.(recvWait := [], sendWait := [], timed := {}));
  }

  // ---- linked nodes ----

  const NIL := -1

  ghost function HeadOf(list: seq<nat>): int { if list == [] then NIL else list[0] }

  ghost function TailOf(list: seq<nat>): int { if list == [] then NIL else list[|list| - 1] }

  ghost predicate LinkAt(next: seq<int>, list: seq<nat>, i: nat)
    requires i < |list|
  {
    list[i] < |next| && next[list[i]] == if i + 1 < |list| then list[i + 1] else NIL
  }

  // Following `next` from `first` visits exactly `list` and ends in NIL.
  ghost predicate Linked(next: seq<int>, first: int, list: seq<nat>) {
    && first == HeadOf(list)
    && forall i: nat :: i < |list| ==> LinkAt(next, list, i)
  }

  lemma LinkedRest(next: seq<int>, first: int, list: seq<nat>)
    requires Linked(next, first, list) && list != []
    ensures first < |next| && Linked(next, next[list[0]], list[1..])
  {
    assert LinkAt(next, list, 0);
    forall i: nat | i < |list| - 1
      ensures LinkAt(next, list[1..], i)
    {
      assert LinkAt(next, list, i + 1);
    }
  }

  lemma LinkedOther(next: seq<int>, first: int, list: seq<nat>, node: nat, v: int)
    requires Linked(next, first, list) && node < |next| && node !in list
    ensures Linked(next[node := v], first, list)
  {
    var next' := next[node := v];
    forall i: nat | i < |list|
      ensures LinkAt(next', list, i)
    {
      assert LinkAt(next, list, i);
      assert list[i] in list;
    }
  }

  lemma LinkedPush(next: seq<int>, first: int, list: seq<nat>, node: nat)
    requires Linked(next, first, list) && node < |next| && node !in list
    ensures Linked(next[node := first], node, [node] + list)
  {
    LinkedOther(next, first, list, node, first);
    var next', list' := next[node := first], [node] + list;
    forall i: nat | i < |list'|
      ensures LinkAt(next', list', i)
    {
      assert i > 0 ==> LinkAt(next', list, i - 1);
    }
  }

  lemma LinkedAppend(next: seq<int>, first: int, list: seq<nat>, node: nat)
    requires Linked(next, first, list) && NoDup(list) && node < |next| && node !in list && next[node] == NIL
    ensures list == [] ==> Linked(next, node, [node])
    ensures list != [] ==> TailOf(list) < |next| && Linked(next[TailOf(list) := node], first, list + [node])
  {
    if list != [] {
      var l := |list| - 1;
      assert LinkAt(next, list, l);
      assert list[l] in list;
      var next', list' := next[list[l] := node], list + [node];
      forall i: nat | i < |list'|
        ensures LinkAt(next', list', i)
      {
        assert i <= l ==> LinkAt(next, list, i);
      }
    } else {
      assert LinkAt(next, [node], 0);
    }
  }

  // A node filled by rt_mq_send_wait has had its link cleared.
  ghost predicate ClearedAt(place: seq<Place>, next: seq<int>, x: nat) {
    x < |place| && place[x].Filled? && !place[x].urgent ==> x < |next| && next[x] == NIL
  }

  ghost predicate Cleared(place: seq<Place>, next: seq<int>) {
    forall x: nat :: ClearedAt(place, next, x)
  }

  lemma ClearedUpdate(place: seq<Place>, next: seq<int>, node: nat, p: Place, v: int)
    requires Cleared(place, next) && node < |place| == |next|
    requires p.Filled? && !p.urgent ==> v == NIL
    ensures Cleared(place[node := p], next[node := v])
  {
    var place', next' := place[node := p], next[node := v];
    forall x: nat
      ensures ClearedAt(place', next', x)
    {
      assert ClearedAt(place, next, x);
    }
  }

  // ---- the kernel code ----

  class MessageQueue {
    const msgSize: nat          // a multiple of the word size
    const data: array<Message>  // the buffers behind the node headers; a node is its index
    const next: array<int>      // rt_mq_message.next
    var head: int               // msg_queue_head
    var tail: int               // msg_queue_tail
    var freeHead: int           // msg_queue_free
    var entry: nat
    var recvWait: seq<nat>      // parent.suspend_thread
    var sendWait: seq<nat>      // suspend_sender_thread
    var timed: set<nat>         // threads whose thread_timer is active
    ghost var place: seq<Place>
    ghost var free: seq<nat>
    ghost var queue: seq<nat>
    ghost var recvWoken: set<nat>
    ghost var sendWoken: set<nat>
    const flag: Flag
    const prio: seq<nat>        // current_priority of every thread

    ghost function View(): State
      reads this, data
    {
      State(place, free, queue, data[..], recvWait, sendWait, recvWoken, sendWoken, timed)
    }

    // The two lists as linked in memory.
    ghost predicate Links()
      reads `head, `tail, `freeHead, `place, `free, `queue, data, next
    {
      && next.Length == data.Length == |place|
      && Linked(next[..], freeHead, free) && Linked(next[..], head, queue) && tail == TailOf(queue)
      && Cleared(place, next[..])
      && (forall x :: 0 <= x < data.Length ==> |data[x]| == msgSize)
    }

    ghost predicate Valid()
      reads this, data, next
    {
      Links() && Inv(View()) && entry == |queue|
    }

    // rt_mq_init
    constructor (size: nat, poolSize: nat, flag: Flag, prio: seq<nat>)
      ensures Valid() && fresh(data) && fresh(next)
      ensures msgSize == (size + 3) / 4 * 4 % 0x1_0000 && data.Length == poolSize / (msgSize + 4) % 0x1_0000
      ensures View() == Init(data[..]) && this.flag == flag && this.prio == prio
    {
      var aligned := (size + 3) / 4 * 4 % 0x1_0000;
      var maxMsgs := poolSize / (aligned + 4) % 0x1_0000;
      msgSize := aligned;
      data := new Message[maxMsgs](_ => seq(aligned, _ => 0));
      next := new int[maxMsgs](_ => NIL);
      head, tail, freeHead, entry := NIL, NIL, NIL, 0;
      recvWait, sendWait, timed, recvWoken, sendWoken := [], [], {}, {}, {};
      place, free, queue := seq(maxMsgs, _ => Free), [], [];
      this.flag, this.prio := flag, prio;
      new;
      assert data.Length == next.Length == maxMsgs;
      for temp := 0 to maxMsgs
        invariant free == CountDown(temp) && Linked(next[..], freeHead, free)
        invariant recvWait == sendWait == queue == [] && timed == recvWoken == sendWoken == {}
        invariant place == seq(maxMsgs, _ => Free)
        invariant head == tail == NIL && entry == 0
        invariant forall x :: 0 <= x < data.Length ==> |data[x]| == msgSize
      {
        PushFree(temp);
        assert CountDown(temp + 1) == [temp] + CountDown(temp);
      }
      InitOk(data[..]);
    }

    // head->next = msg_queue_free; msg_queue_free = head
    method PushFree(node: nat)
      requires node < next.Length && node !in free && Linked(next[..], freeHead, free)
      modifies next, `freeHead, `free
      ensures next[..] == old(next[..])[node := old(freeHead)]
      ensures free == [node] + old(free) && Linked(next[..], freeHead, free)
    {
      LinkedPush(next[..], freeHead, free, node);
      next[node] := freeHead;
      freeHead := node;
      free := [node] + free;
    }

    // The first critical section of rt_mq_send_wait (urgent false) and rt_mq_urgent: the node
    // taken from the free list, or NIL.
    method SendBegin(t: nat, size: nat, urgent: bool, time: int) returns (r: Err, node: int)
      requires Valid() && Running(View(), t) && t !in recvWoken
      modifies this
      ensures size > msgSize ==> r == Error && View() == old(View())
      ensures size <= msgSize ==> old(free) == [] || old(free)[0] < |old(place)|
      ensures size <= msgSize ==> (View(), r) == Grab(old(View()), prio, flag, t, urgent, time)
      ensures node == if r == Ok then HeadOf(old(free)) else NIL
      ensures Valid()
    {
      if size > msgSize {
        return Error, NIL;
      }
      r, node := TryGrab(t, urgent, time);
    }

    // One round of the wait loop, from the test of the free list on.
    method TryGrab(t: nat, urgent: bool, time: int) returns (r: Err, node: int)
      requires Valid() && Running(View(), t) && t !in recvWoken
      modifies this
      ensures old(free) == [] || old(free)[0] < |old(place)|
      ensures (View(), r) == Grab(old(View()), prio, flag, t, urgent, time)
      ensures node == if r == Ok then HeadOf(old(free)) else NIL
      ensures Valid()
    {
      HeadsInRange(View());
      GrabKeepsInv(View(), prio, flag, t, urgent, time);
      r, node := GrabNode(t, urgent, time);
    }

    method GrabNode(t: nat, urgent: bool, time: int) returns (r: Err, node: int)
      requires Links() && NodesOk(View()) && (free == [] || free[0] < |place|)
      modifies `sendWoken, `freeHead, `place, `free, `sendWait, `timed
      ensures (View(), r) == Grab(old(View()), prio, flag, t, urgent, time)
      ensures node == if r == Ok then HeadOf(old(free)) else NIL
      ensures Links()
    {
      sendWoken := sendWoken - {t};
      node := NIL;
      if freeHead != NIL {
        node := TakeFree(t, urgent);
        r := Ok;
      } else if urgent || time == 0 {
        r := Full;
      } else {
        AwaitFree(t, time);
        r := Suspended;
      }
    }

    // rt_ipc_list_suspend on the senders' list, and the start of the thread's timer
    method AwaitFree(t: nat, time: int)
      modifies `sendWait, `timed
      ensures sendWait == Suspend(old(sendWait), prio, t, flag) && timed == SetTimer(old(timed), t, time)
    {
      sendWait := Suspend(sendWait, prio, t, flag);
      timed := SetTimer(timed, t, time);
    }

    // msg_queue_free = msg->next
    method TakeFree(t: nat, urgent: bool) returns (node: int)
      requires Links() && NodesOk(View()) && free != []
      modifies `freeHead, `place, `free
      ensures old(free)[0] < |old(place)| && node == old(free)[0]
      ensures place == old(place)[node := Grabbed(t, urgent)] && free == old(free)[1..]
      ensures Links()
    {
      HeadsInRange(View());
      LinkedRest(next[..], freeHead, free);
      node := freeHead;
      ClearedUpdate(place, next[..], node, Grabbed(t, urgent), next[node]);
      assert next[..][node := next[node]] == next[..];
      freeHead := next[node];
      place := place[node := Grabbed(t, urgent)];
      free := free[1..];
    }

    // Between the critical sections of a send: the link is cleared unless urgent, and the
    // message copied.
    method SendCopy(t: nat, node: nat, urgent: bool, message: Message)
      requires Valid() && In(place, node, Grabbed(t, urgent)) && |message| <= msgSize
      modifies this, next, data
      ensures |message| <= |old(data[node])| && View() == Fill(old(View()), node, message)
      ensures Valid()
    {
      FillKeeps(View(), node, message);
      if !urgent {
        ClearLink(node, t);
      } else {
        ClearedUpdate(place, next[..], node, Filled(t, true), next[node]);
        assert next[..][node := next[node]] == next[..];
      }
      data[node] := Overwrite(data[node], message);
      place := place[node := Filled(t, urgent)];
    }

    method ClearLink(node: nat, ghost t: nat)
      requires Links() && NodesOk(View()) && In(place, node, Grabbed(t, false))
      modifies next
      ensures Linked(next[..], freeHead, free) && Linked(next[..], head, queue)
      ensures Cleared(place[node := Filled(t, false)], next[..])
    {
      ghost var next0 := next[..];
      assert !In(place, node, Free) && !In(place, node, Queued);
      LinkedOther(next0, freeHead, free, node, NIL);
      LinkedOther(next0, head, queue, node, NIL);
      ClearedUpdate(place, next0, node, Filled(t, false), NIL);
      next[node] := NIL;
      assert next[..] == next0[node := NIL];
    }

    // The second critical section of rt_mq_send_wait and rt_mq_urgent.
    method SendEnd(t: nat, node: nat, urgent: bool) returns (r: Err)
      requires Valid() && In(place, node, Filled(t, urgent))
      modifies this, next
      ensures View() == Link(old(View()), node) && r == Ok
      ensures Valid()
    {
      hide Holds, TwoSided, NoLostWakeup, Linked;
      LinkKeepsInv(View(), node);
      RoomToLink(View(), node);
      LinkNode(node, urgent);
      WakeReceiver();
      r := Ok;
    }

    method LinkNode(node: nat, urgent: bool)
      requires Links() && NodesOk(View()) && entry < ENTRY_MAX
      requires node < |place| && place[node].Filled? && place[node].urgent == urgent
      modifies next, `head, `tail, `queue, `place, `entry
      ensures queue == (if urgent then [node] + old(queue) else old(queue) + [node]) && entry == old(entry) + 1
      ensures place == old(place)[node := Queued]
      ensures Links()
    {
      if urgent {
        LinkHead(node);
      } else {
        LinkTail(node);
      }
      if entry < ENTRY_MAX {
        entry := entry + 1;
      } else {
        assert false; // the overflow returns of lines 2191-2195 and 2299-2303
      }
    }

    // rt_ipc_list_resume of the first receiver, if one is suspended
    method WakeReceiver()
      modifies `recvWait, `recvWoken, `timed
      ensures recvWait == Rest(old(recvWait)) && recvWoken == old(recvWoken) + First(old(recvWait))
      ensures timed == old(timed) - First(old(recvWait))
    {
      if recvWait != [] {
        recvWoken := recvWoken + {recvWait[0]};
        timed := timed - {recvWait[0]};
        recvWait := recvWait[1..];
      }
    }

    method LinkTail(node: nat)
      requires Links() && NodesOk(View()) && node < |place| && place[node].Filled? && !place[node].urgent
      modifies next, `head, `tail, `queue, `place
      ensures queue == old(queue) + [node] && place == old(place)[node := Queued]
      ensures Links()
    {
      ghost var next0 := next[..];
      assert ClearedAt(place, next0, node);
      assert !In(place, node, Queued);
      LinkedAppend(next[..], head, queue, node);
      ClearedUpdate(place, next0, node, Queued, NIL);
      assert next0[node := NIL] == next0;
      if tail != NIL {
        TailApart(View());
        LinkedOther(next0, freeHead, free, tail, node);
        place := place[node := Queued];
        ClearedUpdate(place, next0, tail, Queued, node);
        assert place[tail := Queued] == place;
        next[tail] := node;
        assert next[..] == next0[old(tail) := node];
      } else {
        place := place[node := Queued];
      }
      tail := node;
      if head == NIL {
        head := node;
      }
      assert old(queue) == [] ==> [node] == old(queue) + [node];
      queue := queue + [node];
    }

    method LinkHead(node: nat)
      requires Links() && NodesOk(View()) && node < |place| && place[node].Filled?
      modifies next, `head, `tail, `queue, `place
      ensures queue == [node] + old(queue) && place == old(place)[node := Queued]
      ensures Links()
    {
      ghost var next0 := next[..];
      assert !In(place, node, Free) && !In(place, node, Queued);
      LinkedPush(next0, head, queue, node);
      LinkedOther(next0, freeHead, free, node, head);
      ClearedUpdate(place, next0, node, Queued, head);
      next[node] := head;
      assert next[..] == next0[node := head];
      head := node;
      if tail == NIL {
        tail := node;
      }
      queue := [node] + queue;
      place := place[node := Queued];
    }

    // The first critical section of rt_mq_recv, from the test of the queue on: the node taken
    // from the head of the queue, or NIL.
    method RecvBegin(t: nat, time: int) returns (r: Err, node: int)
      requires Valid() && Running(View(), t) && t !in sendWoken
      modifies this
      ensures old(queue) == [] || old(queue)[0] < |old(place)|
      ensures (View(), r) == Pop(old(View()), prio, flag, t, time)
      ensures node == if r == Ok then HeadOf(old(queue)) else NIL
      ensures Valid()
    {
      HeadsInRange(View());
      PopKeepsInv(View(), prio, flag, t, time);
      r, node := PopNode(t, time);
    }

    method PopNode(t: nat, time: int) returns (r: Err, node: int)
      requires Links() && NodesOk(View()) && entry == |queue| && (queue == [] || queue[0] < |place|)
      modifies `recvWoken, `head, `tail, `place, `queue, `entry, `recvWait, `timed
      ensures (View(), r) == Pop(old(View()), prio, flag, t, time)
      ensures node == if r == Ok then HeadOf(old(queue)) else NIL
      ensures Links() && entry == |queue|
    {
      recvWoken := recvWoken - {t};
      node := NIL;
      if entry != 0 {
        node := TakeQueued(t);
        r := Ok;
      } else if time == 0 {
        r := TimedOut;
      } else {
        recvWait := Suspend(recvWait, prio, t, flag);
        timed := SetTimer(timed, t, time);
        r := Suspended;
      }
    }

    method TakeQueued(t: nat) returns (node: int)
      requires Links() && NodesOk(View()) && queue != [] && entry == |queue|
      modifies `head, `tail, `entry, `place, `queue
      ensures old(queue)[0] < |old(place)| && node == old(queue)[0]
      ensures place == old(place)[node := Receiving(t)] && queue == old(queue)[1..]
      ensures entry == |queue|
      ensures Links()
    {
      HeadsInRange(View());
      node := Unlink();
      if entry > 0 {
        entry := entry - 1;
      }
      ClearedUpdate(place, next[..], node, Receiving(t), next[node]);
      assert next[..][node := next[node]] == next[..];
      place := place[node := Receiving(t)];
    }

    // The head of the queue leaves it: shared by rt_mq_recv and the reset loop.
    method Unlink() returns (node: int)
      requires Links() && NodesOk(View()) && queue != []
      modifies `head, `tail, `queue
      ensures node == old(queue)[0] && queue == old(queue)[1..]
      ensures Links()
    {
      HeadsInRange(View());
      LinkedRest(next[..], head, queue);
      node := head;
      head := next[node];
      if tail == node {
        tail := NIL;
      }
      queue := queue[1..];
    }

    // The copy between the critical sections of rt_mq_recv.
    method RecvCopy(node: nat, size: nat) returns (message: Message)
      requires Links() && node < |place|
      ensures message <= data[node] && |message| == if size > msgSize then msgSize else size
    {
      message := data[node][..if size > msgSize then msgSize else size];
    }

    // The second critical section of rt_mq_recv.
    method RecvEnd(t: nat, node: nat)
      requires Valid() && In(place, node, Receiving(t))
      modifies this, next
      ensures View() == Return(old(View()), node)
      ensures Valid()
    {
      ReturnKeepsInv(View(), node);
      GiveBack(node);
      WakeSender();
    }

    method GiveBack(node: nat)
      requires Links() && node < |place| && node !in free && node !in queue && !place[node].Filled?
      modifies next, `freeHead, `free, `place
      ensures free == [node] + old(free) && place == old(place)[node := Free]
      ensures Links()
    {
      LinkedOther(next[..], head, queue, node, freeHead);
      ClearedUpdate(place, next[..], node, Free, freeHead);
      PushFree(node);
      place := place[node := Free];
    }

    // rt_ipc_list_resume of the first sender, if one is suspended
    method WakeSender()
      modifies `sendWait, `sendWoken, `timed
      ensures sendWait == Rest(old(sendWait)) && sendWoken == old(sendWoken) + First(old(sendWait))
      ensures timed == old(timed) - First(old(sendWait))
    {
      if sendWait != [] {
        sendWoken := sendWoken + {sendWait[0]};
        timed := timed - {sendWait[0]};
        sendWait := sendWait[1..];
      }
    }

    // rt_thread_timeout for a suspended sender or receiver
    method ThreadTimeout(t: nat)
      requires Valid() && t in timed
      modifies `recvWait, `sendWait, `timed
      ensures View() == Timeout(old(View()), t)
      ensures Valid()
    {
      TimeoutKeeps(View(), t);
      recvWait := Without(recvWait, t);
      sendWait := Without(sendWait, t);
      timed := timed - {t};
    }

    // rt_mq_control with RT_IPC_CMD_RESET
    method MqReset()
      requires Valid()
      modifies this, next
      ensures View() == Reset(old(View()))
      ensures Valid()
    {
      ResetKeeps(View());
      ResumeAll();
      ghost var s0 := View();
      while head != NIL
        invariant Links() && NodesOk(View()) && DiscardAll(View()) == DiscardAll(s0)
        decreases |queue|
      {
        DiscardOne();
      }
      entry := 0;
    }

    // rt_ipc_list_resume_all of both lists
    method ResumeAll()
      requires Apart(View())
      modifies `recvWait, `sendWait, `timed
      ensures recvWait == sendWait == [] && timed == {}
    {
      while recvWait != []
        invariant forall x :: x in timed ==> x in recvWait || x in sendWait
        decreases |recvWait|
      {
        timed := timed - {recvWait[0]};
        recvWait := recvWait[1..];
      }
      while sendWait != []
        invariant recvWait == [] && forall x :: x in timed ==> x in sendWait
        decreases |sendWait|
      {
        timed := timed - {sendWait[0]};
        sendWait := sendWait[1..];
      }
    }

    method DiscardOne()
      requires Links() && NodesOk(View()) && queue != []
      modifies next, `head, `tail, `freeHead, `place, `free, `queue
      ensures old(queue)[0] < |old(place)| && View() == Discard(old(View()))
      ensures Links() && NodesOk(View()) && DiscardAll(View()) == old(DiscardAll(View()))
      ensures |queue| < |old(queue)|
    {
      DiscardKeepsNodes(View());
      assert queue == [queue[0]] + queue[1..];
      assert !In(place, queue[0], Free) && In(place, queue[0], Queued);
      var msg := Unlink();
      GiveBack(msg);
    }
  }

  lemma TailApart(s: State)
    requires NodesOk(s) && s.queue != []
    ensures In(s.place, TailOf(s.queue), Queued) && TailOf(s.queue) !in s.free
  {
    assert s.queue[|s.queue| - 1] in s.queue;
    assert In(s.place, s.queue[|s.queue| - 1], Queued);
    assert !In(s.place, s.queue[|s.queue| - 1], Free);
  }
}
