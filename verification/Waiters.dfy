// The suspend list of an IPC object, rt-thread/src/ipc.c: threads waiting in FIFO order or
// in priority order. A thread is a number; a smaller priority value is more urgent.
module Waiters {
  import opened Lists

  datatype Flag = Fifo | Prio // RT_IPC_FLAG_FIFO, RT_IPC_FLAG_PRIO

  // Where rt_ipc_list_suspend links a thread: in front of the first waiter of strictly lower
  // urgency, or at the end.
  function Place(ws: seq<nat>, prio: seq<nat>, t: nat, flag: Flag): (p: nat)
    ensures p <= |ws|
  {
    if ws == [] then 0
    else if flag.Prio? && ws[0] < |prio| && t < |prio| && prio[t] < prio[ws[0]] then 0
    else 1 + Place(ws[1..], prio, t, flag)
  }

  function Suspend(ws: seq<nat>, prio: seq<nat>, t: nat, flag: Flag): seq<nat> {
    var p := Place(ws, prio, t, flag);
    ws[..p] + [t] + ws[p..]
  }

  // Waiter a goes before waiter b: more urgent, or equally urgent and suspended earlier.
  ghost predicate Before(prio: seq<nat>, stamp: seq<nat>, a: nat, b: nat) {
    && a < |prio| == |stamp| && b < |prio|
    && (prio[a] < prio[b] || (prio[a] == prio[b] && stamp[a] < stamp[b]))
  }

  ghost predicate Ordered(ws: seq<nat>, prio: seq<nat>, stamp: seq<nat>) {
    && |prio| == |stamp|
    && (forall i :: 0 <= i < |ws| ==> ws[i] < |prio|)
    && (forall i, j :: 0 <= i < j < |ws| ==> Before(prio, stamp, ws[i], ws[j]))
  }

  lemma {:induction false} PlaceSeparates(ws: seq<nat>, prio: seq<nat>, stamp: seq<nat>, t: nat)
    requires Ordered(ws, prio, stamp) && t < |prio|
    ensures var p := Place(ws, prio, t, Prio);
      && (forall i :: 0 <= i < p ==> prio[ws[i]] <= prio[t])
      && (forall i :: p <= i < |ws| ==> prio[t] < prio[ws[i]])
  {
    if ws != [] {
      if prio[t] < prio[ws[0]] {
        forall i | 0 <= i < |ws|
          ensures prio[t] < prio[ws[i]]
        {
          assert i > 0 ==> Before(prio, stamp, ws[0], ws[i]);
        }
      } else {
        PlaceSeparates(ws[1..], prio, stamp, t);
        var p := Place(ws[1..], prio, t, Prio);
        forall i | 0 <= i < |ws|
          ensures i < p + 1 ==> prio[ws[i]] <= prio[t]
          ensures i >= p + 1 ==> prio[t] < prio[ws[i]]
        {
          assert i > 0 ==> ws[i] == ws[1..][i - 1];
        }
      }
    }
  }

  // Suspending the newest arrival keeps the list stably sorted.
  lemma SuspendOrdered(ws: seq<nat>, prio: seq<nat>, stamp: seq<nat>, t: nat)
    requires Ordered(ws, prio, stamp) && t < |prio|
    requires forall i :: 0 <= i < |ws| ==> stamp[ws[i]] < stamp[t]
    ensures Ordered(Suspend(ws, prio, t, Prio), prio, stamp)
  {
    var p, r := Place(ws, prio, t, Prio), Suspend(ws, prio, t, Prio);
    PlaceSeparates(ws, prio, stamp, t);
    forall i, j | 0 <= i < j < |r|
      ensures Before(prio, stamp, r[i], r[j])
    {
      if i != p && j != p {
        var i0, j0 := if i < p then i else i - 1, if j < p then j else j - 1;
        assert Before(prio, stamp, ws[i0], ws[j0]);
      }
    }
  }

  lemma SuspendMembers(ws: seq<nat>, prio: seq<nat>, t: nat, flag: Flag)
    ensures forall x :: x in Suspend(ws, prio, t, flag) <==> x in ws || x == t
    ensures NoDup(ws) && t !in ws ==> NoDup(Suspend(ws, prio, t, flag))
  {
    hide NoDup;
    var p := Place(ws, prio, t, flag);
    assert ws == ws[..p] + ws[p..];
    InsertNoDup(ws, p, t);
  }

  lemma InsertNoDup(ws: seq<nat>, p: nat, t: nat)
    requires p <= |ws|
    ensures NoDup(ws) && t !in ws ==> NoDup(ws[..p] + [t] + ws[p..])
  {
    var r := ws[..p] + [t] + ws[p..];
    if NoDup(ws) && t !in ws {
      forall i, j | 0 <= i < j < |r|
        ensures r[i] != r[j]
      {
        if i != p && j != p {
          assert ws[if i < p then i else i - 1] != ws[if j < p then j else j - 1];
        }
      }
    }
  }

  // In FIFO order a thread goes to the end.
  lemma {:induction false} FifoAppends(ws: seq<nat>, prio: seq<nat>, t: nat)
    ensures Suspend(ws, prio, t, Fifo) == ws + [t]
  {
    if ws != [] {
      FifoAppends(ws[1..], prio, t);
      assert Suspend(ws, prio, t, Fifo) == [ws[0]] + Suspend(ws[1..], prio, t, Fifo);
    }
  }

  lemma {:induction false} WithoutOrdered(ws: seq<nat>, prio: seq<nat>, stamp: seq<nat>, t: nat)
    requires Ordered(ws, prio, stamp)
    ensures Ordered(Without(ws, t), prio, stamp)
    ensures forall x :: x in Without(ws, t) ==> x in ws
  {
    if ws != [] && ws[0] != t {
      var rest := ws[1..];
      assert Ordered(rest, prio, stamp);
      WithoutOrdered(rest, prio, stamp, t);
      var w := Without(rest, t);
      forall j | 0 <= j < |w|
        ensures w[j] in ws && Before(prio, stamp, ws[0], w[j])
      {
        assert w[j] in rest;
        var k :| 0 <= k < |rest| && rest[k] == w[j];
        assert ws[k + 1] == w[j];
      }
    }
  }

  lemma OrderedNoDup(ws: seq<nat>, prio: seq<nat>, stamp: seq<nat>)
    requires Ordered(ws, prio, stamp)
    ensures NoDup(ws)
  {
    forall i, j | 0 <= i < j < |ws|
      ensures ws[i] != ws[j]
    {
      assert Before(prio, stamp, ws[i], ws[j]);
    }
  }

  // The timer of a thread being suspended is stopped, and restarted if it may not wait forever.
  function SetTimer(timed: set<nat>, t: nat, time: int): set<nat> {
    if time > 0 then timed + {t} else timed - {t}
  }

  // ---- what becomes of a line ----

  // A thread that joins lets u go first, unless it is more urgent and the line is in priority
  // order.
  predicate GoesBefore(prio: seq<nat>, flag: Flag, t: nat, u: nat) {
    flag.Prio? && t < |prio| && u < |prio| && prio[t] < prio[u]
  }

  ghost predicate JoinedAt(ws: seq<nat>, prio: seq<nat>, flag: Flag, t: nat, ws': seq<nat>, p: nat) {
    && p <= |ws| && ws' == ws[..p] + [t] + ws[p..]
    && (forall i :: 0 <= i < p ==> !GoesBefore(prio, flag, t, ws[i]))
    && (p < |ws| ==> GoesBefore(prio, flag, t, ws[p]))
  }

  // t has been suspended for `time`: it is in line behind all it lets go first, the others keep
  // their order, and it can time out exactly if it may not wait forever.
  ghost predicate Joined(ws: seq<nat>, timed: set<nat>, prio: seq<nat>, flag: Flag, t: nat, time: int,
                         ws': seq<nat>, timed': set<nat>) {
    && (exists p: nat :: JoinedAt(ws, prio, flag, t, ws', p))
    && (t in timed' <==> time > 0)
    && (forall x :: x != t ==> (x in timed' <==> x in timed))
  }

  lemma SuspendJoins(ws: seq<nat>, timed: set<nat>, prio: seq<nat>, flag: Flag, t: nat, time: int)
    ensures Joined(ws, timed, prio, flag, t, time, Suspend(ws, prio, t, flag), SetTimer(timed, t, time))
    ensures t in Suspend(ws, prio, t, flag)
    ensures forall x :: x in Suspend(ws, prio, t, flag) && x != t ==> x in ws
  {
    PlaceJoins(ws, prio, flag, t);
    SuspendMembers(ws, prio, t, flag);
  }

  lemma {:induction false} PlaceJoins(ws: seq<nat>, prio: seq<nat>, flag: Flag, t: nat)
    ensures JoinedAt(ws, prio, flag, t, Suspend(ws, prio, t, flag), Place(ws, prio, t, flag))
  {
    if ws != [] {
      PlaceJoins(ws[1..], prio, flag, t);
    }
  }

  // The first of the line, if any, has been resumed; the others wait on.
  ghost predicate FirstResumed(ws: seq<nat>, timed: set<nat>, ws': seq<nat>, timed': set<nat>) {
    if ws == [] then ws' == [] && timed' == timed
    else ws == [ws[0]] + ws' && (forall x :: x in timed' <==> x in timed && x != ws[0])
  }

  lemma HeadOnce(ws: seq<nat>)
    requires NoDup(ws)
    ensures ws != [] ==> ws == [ws[0]] + Rest(ws) && forall x :: x in Rest(ws) <==> x in ws && x != ws[0]
  {
    if ws != [] {
      assert ws == [ws[0]] + ws[1..];
      assert forall i :: 0 <= i < |ws| - 1 ==> ws[1..][i] == ws[i + 1] != ws[0];
    }
  }

  // ---- wakeups ----

  // While a thread waits for a resource, every available unit is already promised to a
  // thread that was resumed and has not run again yet.
  ghost predicate NoLostWakeup(available: int, waiting: seq<nat>, woken: set<nat>) {
    waiting != [] ==> available <= |woken|
  }

  // One unit more; the first waiter, if any, is resumed.
  lemma WakeFirst(available: int, waiting: seq<nat>, woken: set<nat>)
    requires NoLostWakeup(available, waiting, woken) && (waiting != [] ==> waiting[0] !in woken)
    ensures NoLostWakeup(available + 1, Rest(waiting), woken + First(waiting))
  {
    if waiting != [] {
      assert |woken + {waiting[0]}| == |woken| + 1;
    }
  }

  // Thread t, resumed or not, takes a unit.
  lemma TakeUnit(available: int, waiting: seq<nat>, woken: set<nat>, t: nat)
    requires NoLostWakeup(available, waiting, woken)
    ensures NoLostWakeup(available - 1, waiting, woken - {t})
  {
    assert t in woken ==> woken == (woken - {t}) + {t};
    assert t in woken ==> |woken| == |woken - {t}| + 1;
    assert t !in woken ==> woken - {t} == woken;
  }

  // The first waiter, if any, leaves the list.
  function Rest(waiting: seq<nat>): seq<nat> {
    if waiting == [] then [] else waiting[1..]
  }

  function First(waiting: seq<nat>): set<nat> {
    if waiting == [] then {} else {waiting[0]}
  }

  // The two suspend lists of a mailbox or message queue: a thread waits on at most one side,
  // and a resumed thread waits on neither. Only suspended threads have their timer running.
  ghost predicate TwoSided(recvWait: seq<nat>, sendWait: seq<nat>, recvWoken: set<nat>, sendWoken: set<nat>,
                           timed: set<nat>) {
    && NoDup(recvWait) && NoDup(sendWait)
    && recvWoken !! sendWoken
    && (forall x :: x in recvWait ==> x !in sendWait && x !in recvWoken && x !in sendWoken)
    && (forall x :: x in sendWait ==> x !in recvWait && x !in recvWoken && x !in sendWoken)
    && (forall x :: x in timed ==> x in recvWait || x in sendWait)
  }

  // The first receiver is resumed by a sender, who may have been resumed itself.
  lemma FirstLeaves(recvWait: seq<nat>, sendWait: seq<nat>, recvWoken: set<nat>, sendWoken: set<nat>, timed: set<nat>,
                    gone: set<nat>)
    requires TwoSided(recvWait, sendWait, recvWoken, sendWoken, timed)
    ensures TwoSided(Rest(recvWait), sendWait, recvWoken + First(recvWait), sendWoken - gone, timed - First(recvWait))
    ensures recvWait != [] ==> recvWait[0] !in recvWoken
  {
    HeadOnce(recvWait);
    assert recvWait != [] ==> recvWait[0] in recvWait;
  }

  lemma OtherSide(recvWait: seq<nat>, sendWait: seq<nat>, recvWoken: set<nat>, sendWoken: set<nat>, timed: set<nat>)
    ensures TwoSided(recvWait, sendWait, recvWoken, sendWoken, timed) <==> TwoSided(sendWait, recvWait, sendWoken, recvWoken, timed)
  {
  }
}
