// The hard-timer list of rt-thread/src/timer.c: a skip list with a configurable number of
// rows, ordered by a tick that wraps in 32 bits.
//
// A row is the sequence of timers linked in it (the links themselves are rt_list_t, module
// RtLists). Each timer carries a ghost key: its true deadline, in ticks that never wrap, and
// the number of its last start. Interrupts are off in every operation, so each is one step.
module Timers {
  import opened Words
  import opened Lists

  const HALF := 0x7fff_ffff   // RT_TICK_MAX / 2

  // ---- wrapping comparison ----

  function Diff(a: int, b: int): nat { (a - b) % WORD_RANGE }

  lemma DiffOfWrapped(a: int, b: int)
    ensures Diff(a % WORD_RANGE, b % WORD_RANGE) == Diff(a, b)
  {
    var q := a / WORD_RANGE - b / WORD_RANGE;
    assert a - b == WORD_RANGE * q + (a % WORD_RANGE - b % WORD_RANGE);
    ModShift(a % WORD_RANGE - b % WORD_RANGE, q);
  }

  lemma WrapAdd(a: nat, b: nat)
    ensures (a % WORD_RANGE + b) % WORD_RANGE == (a + b) % WORD_RANGE
  {
    assert a + b == WORD_RANGE * (a / WORD_RANGE) + (a % WORD_RANGE + b);
    ModShift(a % WORD_RANGE + b, a / WORD_RANGE);
  }

  lemma {:induction false} ModShift(x: int, q: int)
    ensures (WORD_RANGE * q + x) % WORD_RANGE == x % WORD_RANGE
    decreases if q < 0 then -q else q
  {
    if q > 0 {
      assert WORD_RANGE * q + x == WORD_RANGE * (q - 1) + x + WORD_RANGE;
      ModShift(x, q - 1);
    } else if q < 0 {
      assert WORD_RANGE * q + x + WORD_RANGE == WORD_RANGE * (q + 1) + x;
      ModShift(x, q + 1);
    }
  }

  predicate Stops(tick: int, newTick: int) {
    Diff(tick, newTick) != 0 && Diff(tick, newTick) < HALF
  }

  // rt_timer_start stops its search at a timer t when t's wrapped tick differs from the new
  // one and lies less than HALF ahead. For true deadlines less than one wrap apart this
  // decides "t is later" correctly exactly when the new deadline is at most HALF + 2 ticks
  // after t's and less than HALF ticks before it.
  lemma StopsExactly(t: int, new_: int)
    requires -WORD_RANGE < t - new_ < WORD_RANGE
    ensures (Stops(t % WORD_RANGE, new_ % WORD_RANGE) <==> t > new_) <==> -(HALF + 2) <= t - new_ < HALF
  {
    DiffOfWrapped(t, new_);
  }

  // rt_timer_check takes a timer for expired when the current tick is less than HALF past
  // its wrapped tick; correct exactly in the same kind of window.
  lemma ExpiredExactly(now: int, due: int)
    requires -WORD_RANGE < now - due < WORD_RANGE
    ensures (Diff(now % WORD_RANGE, due % WORD_RANGE) < HALF <==> due <= now) <==> -(HALF + 2) <= now - due < HALF
  {
    DiffOfWrapped(now, due);
  }

  // Just outside: a deadline HALF ticks later is not seen as later, and a timer HALF ticks overdue
  // not as expired.
  lemma WindowsEnd()
    ensures !Stops(HALF % WORD_RANGE, 0 % WORD_RANGE) && HALF > 0
    ensures !(Diff(HALF % WORD_RANGE, 0 % WORD_RANGE) < HALF) && 0 <= HALF
  {
  }

  // ---- rows ----

  datatype Timer = Timer(timeoutTick: nat, initTick: nat, active: bool, periodic: bool)

  datatype Key = Key(due: nat, stamp: nat)

  ghost predicate Precedes(a: Key, b: Key) {
    a.due < b.due || (a.due == b.due && a.stamp < b.stamp)
  }

  // Sorted by true deadline, equal deadlines in the order they were started.
  ghost predicate RowOk(row: seq<nat>, keys: seq<Key>) {
    && (forall i :: 0 <= i < |row| ==> row[i] < |keys|)
    && (forall i, j :: 0 <= i < j < |row| ==> Precedes(keys[row[i]], keys[row[j]]))
  }

  lemma {:induction false} WithoutSorted(row: seq<nat>, keys: seq<Key>, t: nat)
    requires RowOk(row, keys)
    ensures RowOk(Without(row, t), keys)
    ensures forall x :: x in Without(row, t) ==> x in row
  {
    if row != [] && row[0] != t {
      var rest := row[1..];
      assert RowOk(rest, keys);
      WithoutSorted(rest, keys, t);
      FirstBefore(row, keys, Without(rest, t));
    }
  }

  // The first of a row goes before any part of the others.
  lemma FirstBefore(row: seq<nat>, keys: seq<Key>, w: seq<nat>)
    requires RowOk(row, keys) && row != [] && RowOk(w, keys) && forall x :: x in w ==> x in row[1..]
    ensures RowOk([row[0]] + w, keys) && forall x :: x in w ==> x in row
  {
    forall j | 0 <= j < |w|
      ensures w[j] in row && Precedes(keys[row[0]], keys[w[j]])
    {
      assert w[j] in row[1..];
      var k :| 0 <= k < |row| - 1 && row[1..][k] == w[j];
      assert row[k + 1] == w[j];
    }
  }

  lemma RowNoDup(row: seq<nat>, keys: seq<Key>)
    requires RowOk(row, keys)
    ensures NoDup(row)
  {
    forall i, j | 0 <= i < j < |row|
      ensures row[i] != row[j]
    {
      assert Precedes(keys[row[i]], keys[row[j]]);
    }
  }

  lemma WithoutKeeps(row: seq<nat>, keys: seq<Key>, t: nat)
    requires RowOk(row, keys)
    ensures RowOk(Without(row, t), keys)
    ensures forall x :: x in Without(row, t) <==> x in row && x != t
    ensures t !in row ==> Without(row, t) == row
  {
    RowNoDup(row, keys);
    WithoutMembers(row, t);
    WithoutSorted(row, keys, t);
  }

  // Position p separates the deadlines up to d from the later ones.
  ghost predicate IsBound(row: seq<nat>, keys: seq<Key>, d: nat, p: nat) {
    && p <= |row|
    && (forall i :: 0 <= i < p ==> row[i] < |keys| && keys[row[i]].due <= d)
    && (forall i :: p <= i < |row| ==> row[i] < |keys| && keys[row[i]].due > d)
  }

  // What a linear scan of unbounded deadlines finds.
  ghost function LinearScan(row: seq<nat>, keys: seq<Key>, d: nat): (p: nat)
    ensures p <= |row|
  {
    if row == [] || row[0] >= |keys| || keys[row[0]].due > d then 0 else 1 + LinearScan(row[1..], keys, d)
  }

  lemma {:induction false} ScanIsBound(row: seq<nat>, keys: seq<Key>, d: nat, p: nat)
    requires RowOk(row, keys)
    ensures IsBound(row, keys, d, p) <==> p == LinearScan(row, keys, d)
  {
    if row != [] && keys[row[0]].due <= d {
      assert RowOk(row[1..], keys);
      if p > 0 {
        ScanIsBound(row[1..], keys, d, p - 1);
        assert IsBound(row, keys, d, p) ==> IsBound(row[1..], keys, d, p - 1);
        if IsBound(row[1..], keys, d, p - 1) {
          forall i | 0 <= i < |row|
            ensures i < p ==> keys[row[i]].due <= d
            ensures i >= p ==> keys[row[i]].due > d
          {
            if i > 0 { assert row[i] == row[1..][i - 1]; }
          }
        }
      }
    } else if row != [] {
      forall i | 0 <= i < |row|
        ensures keys[row[i]].due > d
      {
        if i > 0 { assert Precedes(keys[row[0]], keys[row[i]]); }
      }
    }
  }

  ghost function Inserted(row: seq<nat>, p: nat, t: nat): seq<nat>
    requires p <= |row|
  {
    row[..p] + [t] + row[p..]
  }

  lemma InsertKeeps(row: seq<nat>, keys: seq<Key>, t: nat, p: nat)
    requires RowOk(row, keys) && t < |keys| && IsBound(row, keys, keys[t].due, p)
    requires forall i :: 0 <= i < |row| ==> keys[row[i]].stamp < keys[t].stamp
    ensures RowOk(Inserted(row, p, t), keys)
    ensures forall x :: x in Inserted(row, p, t) <==> x in row || x == t
  {
    var r := Inserted(row, p, t);
    forall i, j | 0 <= i < j < |r|
      ensures Precedes(keys[r[i]], keys[r[j]])
    {
      if i != p && j != p {
        var i0, j0 := if i < p then i else i - 1, if j < p then j else j - 1;
        assert Precedes(keys[row[i0]], keys[row[j0]]);
      }
    }
    assert row == row[..p] + row[p..];
  }

  // ---- the skip list ----

  const LIST_MASK: bv32 := 3 // RT_TIMER_SKIP_LIST_MASK

  // Row l is in order and every timer in it is also in the row below.
  ghost predicate LevelOk(rows: seq<seq<nat>>, keys: seq<Key>, l: nat)
    requires l < |rows|
  {
    RowOk(rows[l], keys) && (l + 1 < |rows| ==> forall x :: x in rows[l] ==> x in rows[l + 1])
  }

  ghost predicate SkipList(rows: seq<seq<nat>>, keys: seq<Key>) {
    |rows| > 0 && forall l :: 0 <= l < |rows| ==> LevelOk(rows, keys, l)
  }

  // Every timer of any row is in the bottom row.
  lemma {:induction false} InBottom(rows: seq<seq<nat>>, keys: seq<Key>, l: nat)
    requires SkipList(rows, keys) && l < |rows|
    ensures forall x :: x in rows[l] ==> x in rows[|rows| - 1]
    decreases |rows| - l
  {
    assert LevelOk(rows, keys, l);
    if l + 1 < |rows| {
      InBottom(rows, keys, l + 1);
    }
  }

  lemma AllWithout(rows: seq<seq<nat>>, rows': seq<seq<nat>>, keys: seq<Key>, t: nat, key: Key)
    requires SkipList(rows, keys) && |rows'| == |rows| && t < |keys|
    requires forall l :: 0 <= l < |rows| ==> rows'[l] == Without(rows[l], t)
    ensures SkipList(rows', keys[t := key])
    ensures forall l, x :: 0 <= l < |rows'| && x in rows'[l] ==> x in rows[l] && x != t
  {
    forall l | 0 <= l < |rows|
      ensures LevelOk(rows', keys[t := key], l)
      ensures forall x :: x in rows'[l] <==> x in rows[l] && x != t
    {
      assert LevelOk(rows, keys, l);
      WithoutKeeps(rows[l], keys, t);
      RekeyKeeps(rows'[l], keys, t, key);
      if l + 1 < |rows| {
        assert LevelOk(rows, keys, l + 1);
        WithoutKeeps(rows[l + 1], keys, t);
      }
    }
  }

  ghost predicate NoneHas(rows: seq<seq<nat>>, t: nat) {
    forall l :: 0 <= l < |rows| ==> t !in rows[l]
  }

  lemma RekeyAll(rows: seq<seq<nat>>, keys: seq<Key>, t: nat, key: Key)
    requires SkipList(rows, keys) && NoneHas(rows, t) && t < |keys|
    ensures SkipList(rows, keys[t := key])
  {
    var keys' := keys[t := key];
    forall l | 0 <= l < |rows|
      ensures LevelOk(rows, keys', l)
    {
      assert LevelOk(rows, keys, l);
      RekeyKeeps(rows[l], keys, t, key);
    }
  }

  lemma RekeyKeeps(row: seq<nat>, keys: seq<Key>, t: nat, key: Key)
    requires RowOk(row, keys) && t !in row && t < |keys|
    ensures RowOk(row, keys[t := key])
  {
    var keys' := keys[t := key];
    forall i, j | 0 <= i < j < |row|
      ensures Precedes(keys'[row[i]], keys'[row[j]])
    {
      assert Precedes(keys[row[i]], keys[row[j]]);
    }
  }

  // Where a timer goes in the queue: behind every deadline up to its own.
  ghost function Scheduled(queue: seq<nat>, keys: seq<Key>, t: nat): seq<nat>
    requires t < |keys|
  {
    Inserted(queue, LinearScan(queue, keys, keys[t].due), t)
  }

  lemma ScheduledMembers(queue: seq<nat>, keys: seq<Key>, t: nat)
    requires t < |keys|
    ensures forall x :: x in Scheduled(queue, keys, t) <==> x in queue || x == t
  {
    var p := LinearScan(queue, keys, keys[t].due);
    assert queue == queue[..p] + queue[p..];
  }

  // Row l has t linked behind its first heads[l] timers if l >= top, and is untouched above.
  ghost predicate LinkedAt(rows: seq<seq<nat>>, rows': seq<seq<nat>>, heads: seq<nat>, t: nat, top: nat, l: nat)
    requires l < |rows| && |rows'| == |rows| == |heads|
  {
    && heads[l] <= |rows[l]|
    && rows'[l] == if l < top then rows[l] else Inserted(rows[l], heads[l], t)
  }

  ghost predicate LinkedFrom(rows: seq<seq<nat>>, rows': seq<seq<nat>>, heads: seq<nat>, t: nat, top: nat) {
    && |rows'| == |rows| == |heads| && top < |rows|
    && forall l :: 0 <= l < |rows| ==> LinkedAt(rows, rows', heads, t, top, l)
  }

  ghost predicate OlderThan(row: seq<nat>, keys: seq<Key>, stamp: nat) {
    forall i :: 0 <= i < |row| ==> row[i] < |keys| && keys[row[i]].stamp < stamp
  }

  ghost predicate BoundAt(rows: seq<seq<nat>>, keys: seq<Key>, d: nat, heads: seq<nat>, l: nat)
    requires l < |heads| <= |rows|
  {
    IsBound(rows[l], keys, d, heads[l])
  }

  // heads holds, for the first |heads| rows, the place that separates deadlines up to d.
  ghost predicate BoundsIn(rows: seq<seq<nat>>, keys: seq<Key>, d: nat, heads: seq<nat>) {
    |heads| <= |rows| && forall l :: 0 <= l < |heads| ==> BoundAt(rows, keys, d, heads, l)
  }

  lemma BoundsExtend(rows: seq<seq<nat>>, keys: seq<Key>, d: nat, heads: seq<nat>, p: nat)
    requires BoundsIn(rows, keys, d, heads) && |heads| < |rows| && IsBound(rows[|heads|], keys, d, p)
    ensures BoundsIn(rows, keys, d, heads + [p])
  {
    forall l | 0 <= l < |heads| + 1
      ensures BoundAt(rows, keys, d, heads + [p], l)
    {
      assert l < |heads| ==> BoundAt(rows, keys, d, heads, l);
    }
  }

  lemma LinkLevel(rows: seq<seq<nat>>, rows': seq<seq<nat>>, keys: seq<Key>, heads: seq<nat>, t: nat, top: nat, l: nat)
    requires SkipList(rows, keys) && t < |keys| && LinkedFrom(rows, rows', heads, t, top) && l < |rows|
    requires BoundsIn(rows, keys, keys[t].due, heads) && OlderThan(rows[l], keys, keys[t].stamp)
    ensures RowOk(rows'[l], keys)
    ensures forall x :: x in rows'[l] <==> x in rows[l] || (x == t && l >= top)
    ensures l >= top ==> rows'[l] == Inserted(rows[l], LinearScan(rows[l], keys, keys[t].due), t)
  {
    assert LevelOk(rows, keys, l) && LinkedAt(rows, rows', heads, t, top, l) && BoundAt(rows, keys, keys[t].due, heads, l);
    InsertKeeps(rows[l], keys, t, heads[l]);
    ScanIsBound(rows[l], keys, keys[t].due, heads[l]);
  }

  lemma LinkKeeps(rows: seq<seq<nat>>, rows': seq<seq<nat>>, keys: seq<Key>, heads: seq<nat>, t: nat, top: nat)
    requires SkipList(rows, keys) && t < |keys| && LinkedFrom(rows, rows', heads, t, top)
    requires BoundsIn(rows, keys, keys[t].due, heads)
    requires forall l :: 0 <= l < |rows| ==> OlderThan(rows[l], keys, keys[t].stamp)
    ensures SkipList(rows', keys)
    ensures var q := rows[|rows| - 1];
      && rows'[|rows| - 1] == Scheduled(q, keys, t)
      && forall x :: x in Scheduled(q, keys, t) <==> x in q || x == t
  {
    forall l | 0 <= l < |rows|
      ensures LevelOk(rows', keys, l)
    {
      LinkLevel(rows, rows', keys, heads, t, top, l);
      assert LevelOk(rows, keys, l);
      if l + 1 < |rows| {
        LinkLevel(rows, rows', keys, heads, t, top, l + 1);
      }
    }
    LinkLevel(rows, rows', keys, heads, t, top, |rows| - 1);
  }

  lemma AllOlder(rows: seq<seq<nat>>, keys: seq<Key>, t: nat)
    requires SkipList(rows, keys) && NoneHas(rows, t) && t < |keys|
    requires forall x :: 0 <= x < |keys| && x != t ==> keys[x].stamp < keys[t].stamp
    ensures forall l :: 0 <= l < |rows| ==> OlderThan(rows[l], keys, keys[t].stamp)
  {
    forall l | 0 <= l < |rows|
      ensures OlderThan(rows[l], keys, keys[t].stamp)
    {
      assert LevelOk(rows, keys, l);
      assert forall i :: 0 <= i < |rows[l]| ==> rows[l][i] in rows[l];
    }
  }

  function PositionOf(row: seq<nat>, t: nat): (p: nat)
    requires t in row
    ensures p < |row| && row[p] == t
  {
    if row[0] == t then 0 else 1 + PositionOf(row[1..], t)
  }

  // The first p timers of the row are due no later than d.
  ghost predicate UpTo(row: seq<nat>, keys: seq<Key>, p: nat, d: nat) {
    p <= |row| && forall i :: 0 <= i < p ==> row[i] < |keys| && keys[row[i]].due <= d
  }

  ghost predicate InWindow(due: int, d: int) {
    -(HALF + 2) <= due - d < HALF
  }

  // The effect of rt_timer_start on the queue: leave it, then join it at the new deadline.
  ghost function Rescheduled(queue: seq<nat>, keys: seq<Key>, t: nat): seq<nat>
    requires t < |keys|
  {
    Scheduled(Without(queue, t), keys, t)
  }

  lemma UpToLast(row: seq<nat>, keys: seq<Key>, p: nat, d: nat)
    requires RowOk(row, keys) && 0 < p <= |row| && keys[row[p - 1]].due <= d
    ensures UpTo(row, keys, p, d)
  {
    forall i | 0 <= i < p
      ensures keys[row[i]].due <= d
    {
      if i < p - 1 { assert Precedes(keys[row[i]], keys[row[p - 1]]); }
    }
  }

  // ---- rt_timer_check ----

  // What a timeout function may do to timers; any timer, including the one that fired.
  datatype Action = StartTimer(t: nat) | StopTimer(t: nat)

  // The timer list when rt_timer_check is entered.
  datatype Snapshot = Snapshot(queue: seq<nat>, keys: seq<Key>, timers: seq<Timer>)

  ghost predicate IsDue(keys: seq<Key>, x: nat, now: nat) {
    x < |keys| && keys[x].due <= now
  }

  // If x is due now, it was already queued with this deadline and no callback touched it.
  ghost predicate DueIsOld(q: seq<nat>, keys: seq<Key>, now: nat, s: Snapshot, touched: set<nat>, x: nat) {
    x in q && IsDue(keys, x, now) ==> x in s.queue && x !in touched && x < |s.keys| && keys[x] == s.keys[x]
  }

  // If x was due, it has fired, a callback touched it, or it still waits in the queue.
  ghost predicate Accounted(q: seq<nat>, keys: seq<Key>, now: nat, s: Snapshot, log: seq<nat>, touched: set<nat>, x: nat) {
    x in s.queue && IsDue(s.keys, x, now) ==>
      x in log || x in touched || (x in q && x < |keys| && keys[x] == s.keys[x])
  }

  // Everything fired so far precedes x if x is due.
  ghost predicate AfterLog(q: seq<nat>, keys: seq<Key>, now: nat, s: Snapshot, log: seq<nat>, x: nat)
    requires RowOk(log, s.keys) && |keys| == |s.keys|
  {
    x in q && IsDue(keys, x, now) ==> forall i :: 0 <= i < |log| ==> Precedes(s.keys[log[i]], s.keys[x])
  }

  ghost predicate FiredDue(s: Snapshot, now: nat, log: seq<nat>) {
    RowOk(log, s.keys) && forall i :: 0 <= i < |log| ==> log[i] in s.queue && IsDue(s.keys, log[i], now)
  }

  ghost predicate Progress(q: seq<nat>, keys: seq<Key>, now: nat, s: Snapshot, log: seq<nat>, touched: set<nat>) {
    && |keys| == |s.keys|
    && FiredDue(s, now, log)
    && (forall x: nat :: DueIsOld(q, keys, now, s, touched, x))
    && (forall x: nat :: Accounted(q, keys, now, s, log, touched, x))
    && (forall x: nat :: AfterLog(q, keys, now, s, log, x))
  }

  // A fired timer that no callback touched: periodic ones wait a full period from now,
  // one-shot ones are inactive and out of the queue.
  ghost predicate Rearmed(q: seq<nat>, keys: seq<Key>, timers: seq<Timer>, now: nat, s: Snapshot, x: nat) {
    && x < |timers| == |s.timers| == |keys|
    && if s.timers[x].periodic
       then x in q && keys[x].due == now + s.timers[x].initTick && timers[x].active
       else x !in q && !timers[x].active
  }

  // Timer x after some callbacks did what `acts` says: as the last action that names it left it, or
  // as firing left it, or as it was when rt_timer_check was entered.
  ghost predicate Explained(q: seq<nat>, keys: seq<Key>, timers: seq<Timer>, now: nat, s: Snapshot,
                            log: seq<nat>, acts: seq<Action>, x: nat) {
    x < |timers| ==>
      if x in Targets(acts) then Obeyed(q, keys, timers, now, acts, x)
      else if x in log then Rearmed(q, keys, timers, now, s, x)
      else LeftAsWas(q, keys, timers, s, x)
  }

  // A timer started last is queued for a whole period from now, one stopped last is not queued.
  ghost predicate Obeyed(q: seq<nat>, keys: seq<Key>, timers: seq<Timer>, now: nat, acts: seq<Action>, x: nat) {
    && x < |timers| == |keys|
    && if StartedLast(acts, x) then x in q && keys[x].due == now + timers[x].initTick && timers[x].active
       else x !in q && !timers[x].active
  }

  ghost predicate StartedLast(acts: seq<Action>, x: nat) {
    acts != [] && var a := acts[|acts| - 1]; if a.t == x then a.StartTimer? else StartedLast(acts[..|acts| - 1], x)
  }

  ghost predicate LeftAsWas(q: seq<nat>, keys: seq<Key>, timers: seq<Timer>, s: Snapshot, x: nat) {
    && x < |timers| == |s.timers| == |keys| == |s.keys|
    && (x in q <==> x in s.queue) && keys[x] == s.keys[x] && timers[x] == s.timers[x]
  }

  // Every timer but those in `but` is as explained.
  ghost predicate AllExplained(q: seq<nat>, keys: seq<Key>, timers: seq<Timer>, now: nat, s: Snapshot,
                               log: seq<nat>, acts: seq<Action>, but: set<nat>) {
    forall x: nat :: x !in but ==> Explained(q, keys, timers, now, s, log, acts, x)
  }

  // Only t's place and key differ between the two states.
  ghost predicate OnlyMoved(q: seq<nat>, keys: seq<Key>, q': seq<nat>, keys': seq<Key>, t: nat) {
    && |keys'| == |keys|
    && (forall x :: x != t ==> (x in q' <==> x in q))
    && (forall x :: 0 <= x < |keys| && x != t ==> keys'[x] == keys[x])
  }

  // Moving t to a later deadline, or out of the queue, keeps the account, if t is noted as
  // touched or has already fired.
  lemma MoveKeepsProgress(q: seq<nat>, keys: seq<Key>, q': seq<nat>, keys': seq<Key>, now: nat, s: Snapshot,
                          log: seq<nat>, touched: set<nat>, touched': set<nat>, t: nat)
    requires Progress(q, keys, now, s, log, touched) && OnlyMoved(q, keys, q', keys', t)
    requires t in q' ==> !IsDue(keys', t, now)
    requires touched' == touched + {t} || (touched' == touched && t in log)
    ensures Progress(q', keys', now, s, log, touched')
  {
    forall x: nat
      ensures DueIsOld(q', keys', now, s, touched', x)
      ensures Accounted(q', keys', now, s, log, touched', x)
      ensures AfterLog(q', keys', now, s, log, x)
    {
      assert DueIsOld(q, keys, now, s, touched, x) && Accounted(q, keys, now, s, log, touched, x);
      assert AfterLog(q, keys, now, s, log, x);
    }
  }

  // What happens to t, fired or named by the new actions, concerns no other timer.
  lemma MoveKeepsExplained(q: seq<nat>, keys: seq<Key>, timers: seq<Timer>, q': seq<nat>, keys': seq<Key>, timers': seq<Timer>,
                           now: nat, s: Snapshot, log: seq<nat>, log': seq<nat>, acts: seq<Action>, acts': seq<Action>,
                           but: set<nat>, t: nat)
    requires AllExplained(q, keys, timers, now, s, log, acts, but) && OnlyMoved(q, keys, q', keys', t)
    requires |timers'| == |timers| && forall x :: 0 <= x < |timers| && x != t ==> timers'[x] == timers[x]
    requires log' == log || log' == log + [t]
    requires acts' == acts || exists a: Action :: a.t == t && acts' == acts + [a]
    ensures AllExplained(q', keys', timers', now, s, log', acts', but + {t})
  {
    forall x: nat | x !in but + {t}
      ensures Explained(q', keys', timers', now, s, log', acts', x)
    {
      assert Explained(q, keys, timers, now, s, log, acts, x);
      if acts' != acts {
        var a: Action :| a.t == t && acts' == acts + [a];
        OneMore(acts, a, x);
      }
    }
  }

  lemma OneMore(acts: seq<Action>, a: Action, x: nat)
    ensures Targets(acts + [a]) == Targets(acts) + {a.t}
    ensures StartedLast(acts + [a], x) == if a.t == x then a.StartTimer? else StartedLast(acts, x)
  {
    assert (acts + [a])[..|acts|] == acts;
  }

  // Firing the head of the queue.
  lemma FireKeepsProgress(q: seq<nat>, keys: seq<Key>, now: nat, s: Snapshot, log: seq<nat>, touched: set<nat>)
    requires Progress(q, keys, now, s, log, touched) && RowOk(q, keys)
    requires q != [] && IsDue(keys, q[0], now)
    ensures q[0] !in touched
    ensures Progress(Without(q, q[0]), keys, now, s, log + [q[0]], touched)
  {
    var t, q', log' := q[0], Without(q, q[0]), log + [q[0]];
    WithoutKeeps(q, keys, t);
    assert DueIsOld(q, keys, now, s, touched, t) && AfterLog(q, keys, now, s, log, t);
    assert FiredDue(s, now, log');
    forall x: nat
      ensures DueIsOld(q', keys, now, s, touched, x)
      ensures Accounted(q', keys, now, s, log', touched, x)
      ensures AfterLog(q', keys, now, s, log', x)
    {
      assert DueIsOld(q, keys, now, s, touched, x) && Accounted(q, keys, now, s, log, touched, x);
      assert AfterLog(q, keys, now, s, log, x);
      if x in q' && IsDue(keys, x, now) {
        var k :| 0 <= k < |q| && q[k] == x;
        assert Precedes(keys[q[0]], keys[q[k]]);
      }
    }
  }

  // Two rows in order with the same timers are equal.
  lemma {:induction false} SortedUnique(a: seq<nat>, b: seq<nat>, keys: seq<Key>)
    requires RowOk(a, keys) && RowOk(b, keys) && forall x :: x in a <==> x in b
    ensures a == b
  {
    assert (a != [] ==> a[0] in a) && (b != [] ==> b[0] in b);
    if a != [] && b != [] {
      FirstIsLeast(a, b, keys);
      RowNoDup(a, keys);
      RowNoDup(b, keys);
      WithoutMembers(a, a[0]);
      WithoutMembers(b, b[0]);
      SortedUnique(a[1..], b[1..], keys);
    }
  }

  lemma FirstIsLeast(a: seq<nat>, b: seq<nat>, keys: seq<Key>)
    requires RowOk(a, keys) && RowOk(b, keys) && a != [] && b != [] && a[0] in b && b[0] in a
    ensures a[0] == b[0]
  {
    var i :| 0 <= i < |b| && b[i] == a[0];
    var j :| 0 <= j < |a| && a[j] == b[0];
    assert i > 0 ==> Precedes(keys[b[0]], keys[b[i]]);
    assert j > 0 ==> Precedes(keys[a[0]], keys[a[j]]);
  }

  // When no callback touches a timer, exactly the due prefix of the queue fires, in order.
  lemma FiredExactly(s: Snapshot, now: nat, log: seq<nat>)
    requires RowOk(s.queue, s.keys) && FiredDue(s, now, log)
    requires forall x :: x in s.queue && IsDue(s.keys, x, now) ==> x in log
    ensures log == s.queue[..LinearScan(s.queue, s.keys, now)]
  {
    var n := LinearScan(s.queue, s.keys, now);
    ScanIsBound(s.queue, s.keys, now, n);
    var due := s.queue[..n];
    forall x
      ensures x in log <==> x in due
    {
      if x in log {
        var k :| 0 <= k < |s.queue| && s.queue[k] == x;
        assert k < n && due[k] == x;
      }
    }
    SortedUnique(log, due, s.keys);
  }

  // What the callbacks of the firings in log do, one after the other.
  ghost function Actions(callback: (nat, nat) -> seq<Action>, log: seq<nat>): seq<Action> {
    if log == [] then []
    else Actions(callback, log[..|log| - 1]) + callback(log[|log| - 1], |log| - 1)
  }

  ghost predicate TargetsExist(callback: (nat, nat) -> seq<Action>, n: nat, t: nat, k: nat) {
    forall a :: a in callback(t, k) ==> a.t < n
  }

  ghost function Targets(actions: seq<Action>): set<nat> {
    set a | a in actions :: a.t
  }

  class TimerList {
    const rows: array<seq<nat>>  // rt_timer_list
    const timers: array<Timer>
    const callback: (nat, nat) -> seq<Action> // the timeout function of a timer, at its k-th firing
    var firing: seq<nat>         // the local list of rt_timer_check
    var tick: nat                // rt_tick
    var randomNr: bv32           // random_nr
    ghost var now: nat           // the tick count without wrap-around
    ghost var keys: seq<Key>
    ghost var clock: nat         // number of starts so far

    ghost function Queue(): seq<nat>
      reads this, rows
    {
      if rows.Length > 0 then rows[rows.Length - 1] else []
    }

    // Every linked timer carries its true deadline, wrapped.
    ghost predicate TicksOk()
      reads this, timers, rows
    {
      && |keys| == timers.Length
      && (forall x :: x in Queue() ==> x < |keys| && timers[x].timeoutTick == keys[x].due % WORD_RANGE && timers[x].active)
    }

    ghost predicate Valid()
      reads this, rows, timers
    {
      && SkipList(rows[..], keys)
      && TicksOk()
      && tick == now % WORD_RANGE
      && (forall x :: 0 <= x < |keys| ==> keys[x].stamp < clock)
    }

    // Nothing is overdue. In this state any timer may be started: see StartSettled.
    ghost predicate Settled()
      reads this, rows
    {
      forall x :: x in Queue() && x < |keys| ==> now <= keys[x].due < now + HALF
    }

    // rt_system_timer_init, with `pool` the timer objects, none of them active.
    constructor (levels: nat, pool: seq<Timer>, callback: (nat, nat) -> seq<Action>)
      requires levels > 0
      ensures Valid() && Settled() && firing == [] && Queue() == [] && timers[..] == pool
      ensures rows.Length == levels && this.callback == callback && now == 0
      ensures fresh(rows) && fresh(timers)
    {
      rows := new seq<nat>[levels](_ => []);
      timers := new Timer[|pool|](i requires 0 <= i < |pool| => pool[i]);
      this.callback := callback;
      tick, randomNr, firing, now, clock := 0, 0, [], 0, 1;
      keys := seq(|pool|, _ => Key(0, 0));
      new;
      assert forall l :: 0 <= l < levels ==> LevelOk(rows[..], keys, l);
    }

    // _rt_timer_remove
    method Unlink(t: nat)
      modifies rows, `firing
      ensures firing == Without(old(firing), t)
      ensures forall l :: 0 <= l < rows.Length ==> rows[l] == Without(old(rows[l]), t)
    {
      for i := 0 to rows.Length
        invariant forall l :: 0 <= l < i ==> rows[l] == Without(old(rows[l]), t)
        invariant forall l :: i <= l < rows.Length ==> rows[l] == old(rows[l])
        invariant firing == old(firing)
      {
        rows[i] := Without(rows[i], t);
      }
      firing := Without(firing, t);
    }

    // The search of one row, from a place known not to be too far.
    method ScanRow(l: nat, from: nat, timeoutTick: nat, ghost d: nat) returns (p: nat)
      requires Valid() && l < rows.Length && timeoutTick == d % WORD_RANGE
      requires UpTo(rows[l], keys, from, d)
      requires forall x :: x in Queue() ==> InWindow(keys[x].due, d)
      ensures LevelOk(rows[..], keys, l) && IsBound(rows[l], keys, d, p)
    {
      assert LevelOk(rows[..], keys, l);
      InBottom(rows[..], keys, l);
      var row := rows[l];
      forall i | 0 <= i < |row|
        ensures Stops(timers[row[i]].timeoutTick, timeoutTick) <==> keys[row[i]].due > d
        ensures Diff(timers[row[i]].timeoutTick, timeoutTick) == 0 ==> keys[row[i]].due <= d
      {
        assert row[i] in row && row[i] in Queue();
        StopsExactly(keys[row[i]].due, d);
      }
      p := from;
      while p < |row|
        invariant UpTo(row, keys, p, d)
      {
        var delta := Diff(timers[row[p]].timeoutTick, timeoutTick);
        if delta == 0 {
        } else if delta < HALF {
          break;
        }
        p := p + 1;
      }
      forall i | p <= i < |row|
        ensures keys[row[i]].due > d
      {
        if i > p { assert Precedes(keys[row[p]], keys[row[i]]); }
      }
    }

    // The search through all rows: each goes on from the place found in the row above.
    method FindHeads(t: nat) returns (heads: seq<nat>)
      requires Valid() && t < timers.Length && timers[t].timeoutTick == keys[t].due % WORD_RANGE
      requires forall x :: x in Queue() ==> InWindow(keys[x].due, keys[t].due)
      ensures |heads| == rows.Length && BoundsIn(rows[..], keys, keys[t].due, heads)
    {
      heads := [];
      var from: nat := 0;
      for l := 0 to rows.Length
        invariant |heads| == l && BoundsIn(rows[..], keys, keys[t].due, heads)
        invariant l < rows.Length ==> UpTo(rows[l], keys, from, keys[t].due)
      {
        var p := ScanRow(l, from, timers[t].timeoutTick, keys[t].due);
        BoundsExtend(rows[..], keys, keys[t].due, heads, p);
        heads := heads + [p];
        if l != rows.Length - 1 {
          from := 0;
          if p > 0 {
            assert LevelOk(rows[..], keys, l) && LevelOk(rows[..], keys, l + 1);
            assert rows[l][p - 1] in rows[l];
            from := PositionOf(rows[l + 1], rows[l][p - 1]) + 1;
            UpToLast(rows[l + 1], keys, from, keys[t].due);
          }
        }
      }
    }

    // Linking into the bottom row and, while the counter's low bits are zero, the rows above.
    method Link(t: nat, heads: seq<nat>) returns (ghost top: nat)
      requires rows.Length > 0 && |heads| == rows.Length
      requires forall l :: 0 <= l < rows.Length ==> heads[l] <= |rows[l]|
      modifies rows
      ensures LinkedFrom(old(rows[..]), rows[..], heads, t, top)
    {
      ghost var rows0 := rows[..];
      var tst := randomNr;
      var lvl := 2;
      var last := rows.Length - 1;
      rows[last] := rows[last][..heads[last]] + [t] + rows[last][heads[last]..];
      top := last;
      assert forall j :: 0 <= j < rows.Length ==> LinkedAt(rows0, rows[..], heads, t, top, j);
      while lvl <= rows.Length
        invariant 2 <= lvl <= rows.Length + 1 && top == rows.Length + 1 - lvl
        invariant LinkedFrom(rows0, rows[..], heads, t, top)
      {
        if tst & LIST_MASK == 0 {
          ghost var rows1 := rows[..];
          var l := rows.Length - lvl;
          assert LinkedAt(rows0, rows1, heads, t, top, l);
          rows[l] := rows[l][..heads[l]] + [t] + rows[l][heads[l]..];
          forall j | 0 <= j < rows.Length
            ensures LinkedAt(rows0, rows[..], heads, t, l, j)
          {
            assert LinkedAt(rows0, rows1, heads, t, top, j);
          }
          top := l;
        } else {
          break;
        }
        tst := tst >> 2; // (RT_TIMER_SKIP_LIST_MASK + 1) >> 1
        lvl := lvl + 1;
      }
    }

    // Take t out of every row and clear its active flag.
    method Leave(t: nat)
      requires Valid() && t < timers.Length
      modifies rows, timers, `firing
      ensures Valid() && Queue() == Without(old(Queue()), t) && firing == Without(old(firing), t)
      ensures timers[t] == old(timers[t]).(active := false)
      ensures forall x :: 0 <= x < timers.Length && x != t ==> timers[x] == old(timers[x])
      ensures NoneHas(rows[..], t)
    {
      Drop(t);
      timers[t] := timers[t].(active := false);
    }

    method Drop(t: nat)
      requires Valid() && t < timers.Length
      modifies rows, `firing
      ensures Valid() && Queue() == Without(old(Queue()), t) && firing == Without(old(firing), t)
      ensures NoneHas(rows[..], t)
    {
      Unlink(t);
      AllWithout(old(rows[..]), rows[..], keys, t, keys[t]);
      assert keys[t := keys[t]] == keys;
    }

    // Put t, which is in no row, into the rows behind every deadline up to its own.
    method Join(t: nat)
      requires Valid() && t < timers.Length && NoneHas(rows[..], t)
      requires timers[t].timeoutTick == keys[t].due % WORD_RANGE
      requires forall x :: 0 <= x < |keys| && x != t ==> keys[x].stamp < keys[t].stamp
      requires forall x :: x in Queue() ==> InWindow(keys[x].due, keys[t].due)
      modifies rows, timers, `randomNr
      ensures Valid() && Queue() == Scheduled(old(Queue()), keys, t)
      ensures timers[t] == old(timers[t]).(active := true)
      ensures forall x :: 0 <= x < timers.Length && x != t ==> timers[x] == old(timers[x])
    {
      timers[t] := timers[t].(active := true);
      FindAndLink(t);
    }

    method FindAndLink(t: nat)
      requires Valid() && t < timers.Length && NoneHas(rows[..], t)
      requires timers[t].timeoutTick == keys[t].due % WORD_RANGE && timers[t].active
      requires forall x :: 0 <= x < |keys| && x != t ==> keys[x].stamp < keys[t].stamp
      requires forall x :: x in Queue() ==> InWindow(keys[x].due, keys[t].due)
      modifies rows, `randomNr
      ensures Valid() && Queue() == Scheduled(old(Queue()), keys, t)
    {
      ghost var rows0 := rows[..];
      AllOlder(rows0, keys, t);
      var heads := FindHeads(t);
      forall l | 0 <= l < rows.Length
        ensures heads[l] <= |rows[l]|
      {
        assert BoundAt(rows[..], keys, keys[t].due, heads, l);
      }
      randomNr := randomNr + 1;
      ghost var top := Link(t, heads);
      LinkKeeps(rows0, rows[..], keys, heads, t, top);
    }

    // rt_timer_start
    method Start(t: nat)
      requires Valid() && t < timers.Length && timers[t].initTick < HALF
      requires forall x :: x in Queue() && x != t ==> InWindow(keys[x].due, now + timers[t].initTick)
      modifies this, rows, timers
      ensures Valid()
      ensures tick == old(tick) && now == old(now) && clock == old(clock) + 1
      ensures keys == old(keys)[t := Key(now + timers[t].initTick, old(clock))]
      ensures timers[t] == old(timers[t]).(timeoutTick := keys[t].due % WORD_RANGE, active := true)
      ensures forall x :: 0 <= x < timers.Length && x != t ==> timers[x] == old(timers[x])
      ensures firing == Without(old(firing), t)
      ensures Queue() == Rescheduled(old(Queue()), keys, t)
    {
      QueueWithout(t);
      Leave(t);
      SetTimeout(t);
      Join(t);
    }

    // timer->timeout_tick = rt_tick_get() + timer->init_tick
    method SetTimeout(t: nat)
      requires Valid() && t < timers.Length && NoneHas(rows[..], t)
      modifies timers, `keys, `clock
      ensures Valid() && Queue() == old(Queue()) && clock == old(clock) + 1
      ensures keys == old(keys)[t := Key(now + timers[t].initTick, old(clock))]
      ensures timers[t] == old(timers[t]).(timeoutTick := keys[t].due % WORD_RANGE)
      ensures forall x :: 0 <= x < timers.Length && x != t ==> timers[x] == old(timers[x])
    {
      assert Queue() == rows[..][rows.Length - 1];
      timers[t] := timers[t].(timeoutTick := (tick + timers[t].initTick) % WORD_RANGE);
      WrapAdd(now, timers[t].initTick);
      ghost var key := Key(now + timers[t].initTick, clock);
      RekeyAll(rows[..], keys, t, key);
      keys := keys[t := key];
      clock := clock + 1;
    }

    // rt_timer_stop
    method Stop(t: nat) returns (ok: bool)
      requires Valid() && t < timers.Length
      modifies this, rows, timers
      ensures Valid()
      ensures old(Settled()) ==> Settled()
      ensures ok == old(timers[t].active)
      ensures tick == old(tick) && now == old(now) && clock == old(clock) && keys == old(keys)
      ensures timers[t] == old(timers[t]).(active := false)
      ensures forall x :: 0 <= x < timers.Length && x != t ==> timers[x] == old(timers[x])
      ensures firing == if ok then Without(old(firing), t) else old(firing)
      ensures Queue() == Without(old(Queue()), t)
    {
      QueueWithout(t);
      if !timers[t].active {
        return false;
      }
      Leave(t);
      return true;
    }

    lemma QueueWithout(t: nat)
      requires Valid()
      ensures RowOk(Queue(), keys) && RowOk(Without(Queue(), t), keys)
      ensures forall x :: x in Without(Queue(), t) <==> x in Queue() && x != t
      ensures t !in Queue() ==> Without(Queue(), t) == Queue()
    {
      assert LevelOk(rows[..], keys, rows.Length - 1);
      WithoutKeeps(Queue(), keys, t);
    }

    ghost predicate Armable()
      reads timers
    {
      forall x :: 0 <= x < timers.Length ==> 1 <= timers[x].initTick < HALF
    }

    // No linked timer is overdue by more than three ticks: then any timer can be started.
    ghost predicate OnTime()
      reads this, rows
    {
      forall x :: x in Queue() && x < |keys| ==> keys[x].due < now + HALF && now <= keys[x].due + 3
    }

    ghost predicate SameSettings(s: Snapshot)
      reads timers
    {
      && timers.Length == |s.timers|
      && forall x :: 0 <= x < timers.Length ==>
           timers[x].periodic == s.timers[x].periodic && timers[x].initTick == s.timers[x].initTick
    }

    // What holds between two callback actions inside rt_timer_check.
    ghost predicate Checking(s: Snapshot, log: seq<nat>, touched: set<nat>)
      reads this, rows, timers
    {
      && Valid() && Armable() && OnTime() && SameSettings(s)
      && Progress(Queue(), keys, now, s, log, touched)
    }

    method StartInCheck(t: nat, ghost s: Snapshot, ghost log: seq<nat>, ghost touched: set<nat>, ghost touched': set<nat>)
      requires Checking(s, log, touched) && t < timers.Length
      requires touched' == touched + {t} || (touched' == touched && t in log)
      modifies this, rows, timers
      ensures Checking(s, log, touched') && now == old(now)
      ensures firing == Without(old(firing), t)
      ensures OnlyMoved(old(Queue()), old(keys), Queue(), keys, t)
      ensures t in Queue() && keys[t].due == now + timers[t].initTick && timers[t].active
      ensures forall x :: 0 <= x < timers.Length && x != t ==> timers[x] == old(timers[x])
    {
      ghost var q0, k0 := Queue(), keys;
      QueueWithout(t);
      Start(t);
      ScheduledMembers(Without(q0, t), keys, t);
      MoveKeepsProgress(q0, k0, Queue(), keys, now, s, log, touched, touched', t);
    }

    method StopInCheck(t: nat, ghost s: Snapshot, ghost log: seq<nat>, ghost touched: set<nat>)
      requires Checking(s, log, touched) && t < timers.Length
      modifies this, rows, timers
      ensures Checking(s, log, touched + {t}) && now == old(now)
      ensures firing == old(firing) || firing == Without(old(firing), t)
      ensures OnlyMoved(old(Queue()), old(keys), Queue(), keys, t)
      ensures t !in Queue() && !timers[t].active
      ensures forall x :: 0 <= x < timers.Length && x != t ==> timers[x] == old(timers[x])
    {
      ghost var q0, k0 := Queue(), keys;
      QueueWithout(t);
      var ok := Stop(t);
      MoveKeepsProgress(q0, k0, Queue(), keys, now, s, log, touched, touched + {t}, t);
    }

    // What holds while the callback of t runs: t has left the queue; as long as no action
    // names t it sits on the local list, still active exactly if it is periodic.
    ghost predicate InCallback(s: Snapshot, log: seq<nat>, acts: seq<Action>, t: nat)
      reads this, rows, timers
    {
      && Checking(s, log + [t], Targets(acts)) && t < timers.Length
      && AllExplained(Queue(), keys, timers[..], now, s, log + [t], acts, {t})
      && OnItsOwn(acts, t)
      && (firing == [t] || firing == [])
    }

    ghost predicate OnItsOwn(acts: seq<Action>, t: nat)
      reads this, rows, timers
    {
      && t < timers.Length
      && if t !in Targets(acts) then t !in Queue() && firing == [t] && timers[t].active == timers[t].periodic
         else Obeyed(Queue(), keys, timers[..], now, acts, t) && (firing == [t] ==> !timers[t].active)
    }

    // t->timeout_func(t->parameter)
    method RunCallback(t: nat, actions: seq<Action>, ghost s: Snapshot, ghost log: seq<nat>, ghost acts: seq<Action>)
      requires InCallback(s, log, acts, t)
      requires forall a :: a in actions ==> a.t < timers.Length
      modifies this, rows, timers
      ensures InCallback(s, log, acts + actions, t) && now == old(now)
    {
      hide InCallback;
      assert acts + actions[..0] == acts;
      for i := 0 to |actions|
        invariant InCallback(s, log, acts + actions[..i], t) && now == old(now)
      {
        DoAction(t, actions[i], s, log, acts + actions[..i]);
        assert acts + actions[..i + 1] == acts + actions[..i] + [actions[i]];
      }
      assert actions[..|actions|] == actions;
    }

    method DoAction(t: nat, a: Action, ghost s: Snapshot, ghost log: seq<nat>, ghost acts: seq<Action>)
      requires InCallback(s, log, acts, t) && a.t < timers.Length
      modifies this, rows, timers
      ensures InCallback(s, log, acts + [a], t) && now == old(now)
    {
      ghost var q0, k0, t0 := Queue(), keys, timers[..];
      OneMore(acts, a, a.t);
      OneMore(acts, a, t);
      if a.StartTimer? {
        StartInCheck(a.t, s, log + [t], Targets(acts), Targets(acts + [a]));
      } else {
        StopInCheck(a.t, s, log + [t], Targets(acts));
      }
      assert Obeyed(Queue(), keys, timers[..], now, acts + [a], a.t);
      ActionExplained(q0, k0, t0, s, log + [t], acts, a, t);
    }

    lemma ActionExplained(q0: seq<nat>, k0: seq<Key>, t0: seq<Timer>, s: Snapshot, log: seq<nat>, acts: seq<Action>,
                          a: Action, t: nat)
      requires AllExplained(q0, k0, t0, now, s, log, acts, {t}) && OnlyMoved(q0, k0, Queue(), keys, a.t)
      requires |t0| == timers.Length && forall x :: 0 <= x < |t0| && x != a.t ==> timers[x] == t0[x]
      requires Obeyed(Queue(), keys, timers[..], now, acts + [a], a.t)
      ensures AllExplained(Queue(), keys, timers[..], now, s, log, acts + [a], {t})
    {
      MoveKeepsExplained(q0, k0, t0, Queue(), keys, timers[..], now, s, log, log, acts, acts + [a], {t}, a.t);
      OneMore(acts, a, a.t);
      forall x: nat | x != t
        ensures Explained(Queue(), keys, timers[..], now, s, log, acts + [a], x)
      {
        assert x != a.t ==> x !in {t} + {a.t};
      }
    }

    // Between two rounds of rt_timer_check.
    ghost predicate BetweenRounds(s: Snapshot, log: seq<nat>, acts: seq<Action>)
      reads this, rows, timers
    {
      && Checking(s, log, Targets(acts)) && firing == []
      && AllExplained(Queue(), keys, timers[..], now, s, log, acts, {})
      && (forall t, k :: TargetsExist(callback, timers.Length, t, k))
    }

    // Take the expired head t out of the rows and put it on the local list.
    method Expire(t: nat, ghost s: Snapshot, ghost log: seq<nat>, ghost acts: seq<Action>)
      requires BetweenRounds(s, log, acts) && Queue() != [] && t == Queue()[0] && IsDue(keys, t, now)
      modifies this, rows, timers
      ensures InCallback(s, log, acts, t) && t !in Targets(acts) && now == old(now)
    {
      ghost var q0, t0 := Queue(), timers[..];
      QueueWithout(t);
      FireKeepsProgress(q0, keys, now, s, log, Targets(acts));
      Drop(t);
      if !timers[t].periodic {
        timers[t] := timers[t].(active := false);
      }
      firing := [t] + firing;
      MoveKeepsExplained(q0, keys, t0, Queue(), keys, timers[..], now, s, log, log + [t], acts, acts, {}, t);
      assert {} + {t} == {t};
    }

    // After the callback: re-arm t if it is periodic and was left alone.
    method Finish(t: nat, ghost s: Snapshot, ghost log: seq<nat>, ghost acts: seq<Action>)
      requires InCallback(s, log, acts, t)
      modifies this, rows, timers
      ensures Checking(s, log + [t], Targets(acts)) && firing == [] && now == old(now)
      ensures AllExplained(Queue(), keys, timers[..], now, s, log + [t], acts, {})
    {
      ghost var q0, k0, t0 := Queue(), keys, timers[..];
      if firing != [] {
        firing := Without(firing, t);
        if timers[t].periodic && timers[t].active {
          StartInCheck(t, s, log + [t], Targets(acts), Targets(acts));
        }
      }
      FiredExplained(q0, k0, t0, s, log + [t], acts, t);
    }

    lemma FiredExplained(q0: seq<nat>, k0: seq<Key>, t0: seq<Timer>, s: Snapshot, log: seq<nat>, acts: seq<Action>, t: nat)
      requires AllExplained(q0, k0, t0, now, s, log, acts, {t}) && OnlyMoved(q0, k0, Queue(), keys, t)
      requires |t0| == timers.Length && forall x :: 0 <= x < |t0| && x != t ==> timers[x] == t0[x]
      requires Explained(Queue(), keys, timers[..], now, s, log, acts, t)
      ensures AllExplained(Queue(), keys, timers[..], now, s, log, acts, {})
    {
      MoveKeepsExplained(q0, k0, t0, Queue(), keys, timers[..], now, s, log, log, acts, acts, {t}, t);
      forall x: nat
        ensures Explained(Queue(), keys, timers[..], now, s, log, acts, x)
      {
        assert x != t ==> x !in {t} + {t};
      }
    }

    lemma QueueSorted()
      requires Valid()
      ensures RowOk(Queue(), keys)
    {
      assert LevelOk(rows[..], keys, rows.Length - 1);
    }

    // The wrapped test on the head is right, and speaks for the whole queue.
    lemma HeadDecides()
      requires Valid() && OnTime() && Queue() != []
      ensures var t := Queue()[0];
        && t < timers.Length
        && (Diff(tick, timers[t].timeoutTick) < HALF <==> IsDue(keys, t, now))
        && (!IsDue(keys, t, now) ==> forall x :: x in Queue() ==> keys[x].due > now)
    {
      QueueSorted();
      var q := Queue();
      assert q[0] in q;
      ExpiredExactly(now, keys[q[0]].due);
      forall x | x in q && !IsDue(keys, q[0], now)
        ensures keys[x].due > now
      {
        var k :| 0 <= k < |q| && q[k] == x;
        assert k > 0 ==> Precedes(keys[q[0]], keys[q[k]]);
      }
    }

    // rt_timer_check. It fires, in deadline order and never early, only timers that were due
    // when it was entered; each of those fires unless a callback stopped or restarted it
    // first; afterwards nothing is due, and every timer is as the last action that names it, or
    // else its firing, left it, or else as it was.
    method Check() returns (ghost log: seq<nat>, ghost acts: seq<Action>)
      requires Valid() && Armable() && OnTime() && firing == []
      requires forall t, k :: TargetsExist(callback, timers.Length, t, k)
      modifies this, rows, timers
      ensures Valid() && Armable() && OnTime() && firing == [] && now == old(now) && tick == old(tick)
      ensures Checked(old(Snapshot(Queue(), keys, timers[..])), log, acts)
      ensures forall x :: x in Queue() ==> keys[x].due > now
    {
      ghost var s := Snapshot(Queue(), keys, timers[..]);
      log, acts := [], [];
      QueueSorted();
      assert forall x: nat :: Explained(Queue(), keys, timers[..], now, s, [], [], x);
      var fired := 0;
      while rows[rows.Length - 1] != []
        invariant BetweenRounds(s, log, acts) && now == old(now) && RowOk(s.queue, s.keys)
        invariant acts == Actions(callback, log) && fired == |log|
        decreases |s.queue| - |log|
      {
        var t := rows[rows.Length - 1][0];
        HeadDecides();
        if Diff(tick, timers[t].timeoutTick) < HALF {
          acts := Fire(t, fired, s, log, acts);
          log := log + [t];
          fired := fired + 1;
        } else {
          break;
        }
      }
      AllSettled(s, log, Targets(acts));
    }

    // What rt_timer_check did to the timers.
    ghost predicate Checked(s: Snapshot, log: seq<nat>, acts: seq<Action>)
      reads this, rows, timers
    {
      && SameSettings(s) && FiredDue(s, now, log)
      && acts == Actions(callback, log)
      && (forall x :: x in s.queue && IsDue(s.keys, x, now) ==> x in log || x in Targets(acts))
      && AllExplained(Queue(), keys, timers[..], now, s, log, acts, {})
    }

    // One round of rt_timer_check.
    method Fire(t: nat, k: nat, ghost s: Snapshot, ghost log: seq<nat>, ghost acts: seq<Action>) returns (ghost acts': seq<Action>)
      requires BetweenRounds(s, log, acts) && Queue() != [] && t == Queue()[0] && IsDue(keys, t, now)
      modifies this, rows, timers
      ensures acts' == acts + callback(t, k)
      ensures BetweenRounds(s, log + [t], acts') && now == old(now)
      ensures |log| < |s.queue|
    {
      Expire(t, s, log, acts);
      assert TargetsExist(callback, timers.Length, t, k);
      RunCallback(t, callback(t, k), s, log, acts);
      acts' := acts + callback(t, k);
      Finish(t, s, log, acts');
      RowNoDup(log + [t], s.keys);
      NoDupShorter(log + [t], s.queue);
    }

    // When nothing is due any more, every timer that was due has fired or was touched.
    lemma AllSettled(s: Snapshot, log: seq<nat>, touched: set<nat>)
      requires Valid() && Progress(Queue(), keys, now, s, log, touched)
      requires forall x :: x in Queue() ==> keys[x].due > now
      ensures forall x :: x in s.queue && IsDue(s.keys, x, now) ==> x in log || x in touched
    {
      forall x | x in s.queue && IsDue(s.keys, x, now)
        ensures x in log || x in touched
      {
        assert Accounted(Queue(), keys, now, s, log, touched, x);
      }
    }

    // The timer part of rt_tick_increase. As long as every timer is armed for at least one
    // tick and less than half the tick range, no run of starts, stops and ticks ever leaves
    // the window in which wrapped comparisons are right.
    method TickIncrease() returns (ghost log: seq<nat>, ghost acts: seq<Action>)
      requires Valid() && Armable() && Settled() && firing == []
      requires forall t, k :: TargetsExist(callback, timers.Length, t, k)
      modifies this, rows, timers
      ensures Valid() && Armable() && Settled() && firing == [] && now == old(now) + 1
      ensures forall x :: x in Queue() ==> keys[x].due > now
      ensures Checked(old(Snapshot(Queue(), keys, timers[..])), log, acts)
    {
      WrapAdd(now, 1);
      tick := (tick + 1) % WORD_RANGE;
      now := now + 1;
      log, acts := Check();
    }

    // rt_timer_start outside of callbacks needs no window assumption.
    method StartSettled(t: nat)
      requires Valid() && Settled() && t < timers.Length && timers[t].initTick < HALF
      modifies this, rows, timers
      ensures Valid() && Settled() && now == old(now)
      ensures Queue() == Rescheduled(old(Queue()), keys, t) && keys[t].due == now + timers[t].initTick
    {
      QueueWithout(t);
      ghost var q0 := Queue();
      Start(t);
      ScheduledMembers(Without(q0, t), keys, t);
    }
  }
}
