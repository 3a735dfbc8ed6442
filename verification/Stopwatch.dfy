// The time base and the stopwatch of applications/timebase.c and applications/stopwatch.c.
module Stopwatches {
  import opened Words

  const U64 := 0x1_0000_0000_0000_0000
  const MAX_LAPS := 20     // STOPWATCH_MAX_LAPS
  const CPU_HZ := 72000000 // cpu_hz

  // ---- timebase_get_us: a 32-bit cycle counter extended to 64 bits ----

  // last_cyc and total_cyc
  datatype Clock = Clock(last: nat, total: nat)

  // One read when the hardware counter has counted `cycles` since it was cleared.
  function Advance(k: Clock, cycles: nat): Clock {
    var cur := cycles % WORD_RANGE;
    Clock(cur, (k.total + (cur - k.last) % WORD_RANGE) % U64)
  }

  function Micros(k: Clock, hz: nat): nat
    requires hz > 0
  {
    (k.total * 1000000) % U64 / hz
  }

  // The clock has followed the counter up to `cycles`.
  ghost predicate Follows(k: Clock, cycles: nat) {
    k.last == cycles % WORD_RANGE && k.total == cycles
  }

  // A read follows the counter exactly when less than 2^32 cycles went by since the last one.
  lemma AdvanceFollows(k: Clock, before: nat, cycles: nat)
    requires Follows(k, before) && before <= cycles < U64
    ensures Follows(Advance(k, cycles), cycles) <==> cycles - before < WORD_RANGE
  {
    assert (cycles % WORD_RANGE - before % WORD_RANGE) % WORD_RANGE == (cycles - before) % WORD_RANGE;
  }

  // The result is the cycle count scaled to microseconds exactly while the product fits 64 bits.
  lemma MicrosExact(k: Clock, cycles: nat, hz: nat)
    requires Follows(k, cycles) && 0 < hz < WORD_RANGE
    ensures Micros(k, hz) == cycles * 1000000 / hz <==> cycles * 1000000 < U64
  {
    var x := cycles * 1000000;
    if x >= U64 {
      DivDiffers(x, x % U64, hz);
    }
  }

  lemma DivDiffers(x: nat, y: nat, d: nat)
    requires 0 < d < WORD_RANGE && y + U64 <= x
    ensures y / d < x / d
  {
    var p, q := x / d, y / d;
    assert x == p * d + x % d && y == q * d + y % d;
    if p < q {
      MulLess(p, q, d);
    }
  }

  lemma DivMono(x: nat, y: nat, d: nat)
    requires d > 0 && x <= y
    ensures x / d <= y / d
  {
    var p, q := x / d, y / d;
    assert x == p * d + x % d && y == q * d + y % d;
    if q < p {
      MulLess(q, p, d);
    }
  }

  // samples[k] is the true cycle count at read k; a clock that is read often enough is exact and
  // never goes back.
  ghost function ClockAfter(samples: seq<nat>): Clock {
    if samples == [] then Clock(0, 0) else Advance(ClockAfter(samples[..|samples| - 1]), samples[|samples| - 1])
  }

  ghost function PrevRead(samples: seq<nat>, k: nat): nat
    requires k < |samples|
  {
    if k == 0 then 0 else samples[k - 1]
  }

  ghost predicate OftenEnough(samples: seq<nat>) {
    forall k :: 0 <= k < |samples| ==> PrevRead(samples, k) <= samples[k] < PrevRead(samples, k) + WORD_RANGE && samples[k] * 1000000 < U64
  }

  lemma {:induction false} ClockIsExact(samples: seq<nat>, hz: nat)
    requires OftenEnough(samples) && 0 < hz < WORD_RANGE
    ensures Follows(ClockAfter(samples), if samples == [] then 0 else samples[|samples| - 1])
    ensures samples != [] ==> Micros(ClockAfter(samples), hz) == samples[|samples| - 1] * 1000000 / hz
    ensures |samples| > 1 ==> Micros(ClockAfter(samples[..|samples| - 1]), hz) <= Micros(ClockAfter(samples), hz)
    decreases |samples|
  {
    if samples != [] {
      var l := |samples| - 1;
      var rest := samples[..l];
      assert forall k :: 0 <= k < l ==> PrevRead(rest, k) == PrevRead(samples, k) && rest[k] == samples[k];
      ClockIsExact(rest, hz);
      assert PrevRead(samples, l) <= samples[l];
      AdvanceFollows(ClockAfter(rest), PrevRead(samples, l), samples[l]);
      MicrosExact(ClockAfter(samples), samples[l], hz);
      if l > 0 {
        assert rest[l - 1] * 1000000 <= samples[l] * 1000000;
        DivMono(rest[l - 1] * 1000000, samples[l] * 1000000, hz);
      }
    }
  }

  // ---- the stopwatch ----

  datatype Mode = Idle | Running | Paused

  // `start` is state_start_us, `acc` accumulated_ms, `lastLap` last_lap_total_ms, `kept` the
  // first lap_count entries of lap_durations_ms. `now` below is what timebase_get_us returned.
  datatype State = State(mode: Mode, start: nat, acc: nat, lastLap: nat, kept: seq<nat>)

  // get_now_total_ms_unsafe
  function Total(s: State, now: nat): nat {
    if s.mode == Running && s.start != 0 then (s.acc + (now - s.start) % U64 / 1000 % WORD_RANGE) % WORD_RANGE else s.acc
  }

  function Start(s: State, now: nat): State {
    if s.mode == Running then s else s.(start := now, mode := Running)
  }

  function Stop(s: State, now: nat): State {
    if s.mode != Running then s
    else if s.start != 0 then s.(acc := (s.acc + (now - s.start) % U64 / 1000 % WORD_RANGE) % WORD_RANGE, start := 0, mode := Paused)
    else s.(mode := Paused)
  }

  function Reset(s: State, now: nat): State {
    if s.mode == Running then State(Running, now, 0, 0, [])
    else State(Idle, 0, 0, 0, [])
  }

  function LapTime(s: State, now: nat): nat { (Total(s, now) - s.lastLap) % WORD_RANGE }

  // The oldest lap makes room when the buffer is full.
  function Lap(s: State, now: nat): State {
    s.(kept := (if |s.kept| < MAX_LAPS then s.kept else s.kept[1..]) + [LapTime(s, now)], lastLap := Total(s, now))
  }

  function Clear(s: State, now: nat): State {
    s.(kept := [], lastLap := Total(s, now))
  }

  function Init(): State { State(Idle, 0, 0, 0, []) }

  // ---- what the fields stand for ----

  // What happened since the last reset, without any bound: `done` is the true length in
  // microseconds of the finished running segments, `whole` what they count for in milliseconds,
  // `n` the number of segments begun; `laps` are all laps since the last reset or clearing of the
  // laps, when the total was `origin`.
  datatype History = History(done: nat, n: nat, whole: nat, laps: seq<nat>, origin: nat)

  ghost function TrueUs(s: State, g: History, now: nat): int {
    g.done + if s.mode == Running then now - s.start else 0
  }

  // The total in milliseconds, before it is cut to 32 bits.
  ghost function Whole(s: State, g: History, now: nat): nat {
    g.whole + if s.mode == Running && s.start <= now then (now - s.start) / 1000 else 0
  }

  function Sum(laps: seq<nat>): nat {
    if laps == [] then 0 else Sum(laps[..|laps| - 1]) + laps[|laps| - 1]
  }

  ghost function LastOf(laps: seq<nat>, n: nat): seq<nat> {
    if |laps| <= n then laps else laps[|laps| - n..]
  }

  // What is left of the lap times in 32 bits.
  ghost function Cut(laps: seq<nat>): seq<nat> {
    seq(|laps|, i requires 0 <= i < |laps| => laps[i] % WORD_RANGE)
  }

  // Times do not go back, and no segment starts at time 0.
  ghost predicate InRange(s: State, now: nat) {
    now < U64 && (s.mode == Running ==> 0 < s.start <= now)
  }

  ghost predicate Inv(s: State, g: History, now: nat) {
    && InRange(s, now)
    && (s.mode == Running ==> g.n > 0)
    && s.acc == g.whole % WORD_RANGE
    && 1000 * g.whole <= g.done <= 1000 * g.whole + 999 * (if s.mode == Running then g.n - 1 else g.n)
    && s.kept == Cut(LastOf(g.laps, MAX_LAPS))
    && g.origin + Sum(g.laps) <= Whole(s, g, now)
    && s.lastLap == (g.origin + Sum(g.laps)) % WORD_RANGE
  }

  // What is shown is the whole total in 32 bits.
  lemma TotalIs(s: State, g: History, now: nat)
    requires InRange(s, now) && s.acc == g.whole % WORD_RANGE
    ensures Total(s, now) == Whole(s, g, now) % WORD_RANGE
  {
  }

  // The shown total is exact to one millisecond a segment, rounded down, exactly while it fits 32
  // bits.
  lemma TotalAccurate(s: State, g: History, now: nat)
    requires Inv(s, g, now)
    ensures 1000 * Whole(s, g, now) <= TrueUs(s, g, now) <= 1000 * Whole(s, g, now) + 999 * g.n
    ensures Total(s, now) == Whole(s, g, now) <==> Whole(s, g, now) < WORD_RANGE
    ensures Whole(s, g, now) < WORD_RANGE ==> 1000 * Total(s, now) <= TrueUs(s, g, now)
    ensures Whole(s, g, now) < WORD_RANGE && g.n > 0 ==> TrueUs(s, g, now) < 1000 * (Total(s, now) + g.n)
  {
    TotalIs(s, g, now);
  }

  // The time since the last lap.
  ghost function WholeLap(s: State, g: History, now: nat): int {
    Whole(s, g, now) - (g.origin + Sum(g.laps))
  }

  // Laps are differences of totals, and telescope: never below zero, shown in 32 bits, and exact
  // with the total.
  lemma LapsTelescope(s: State, g: History, now: nat)
    requires Inv(s, g, now)
    ensures 0 <= WholeLap(s, g, now) && LapTime(s, now) == WholeLap(s, g, now) % WORD_RANGE
    ensures g.origin + Sum(g.laps) + WholeLap(s, g, now) == Whole(s, g, now)
    ensures |s.kept| == if |g.laps| < MAX_LAPS then |g.laps| else MAX_LAPS
    ensures forall i :: 0 <= i < |s.kept| ==> s.kept[i] == g.laps[|g.laps| - |s.kept| + i] % WORD_RANGE
    ensures Whole(s, g, now) < WORD_RANGE ==>
              && s.lastLap <= Total(s, now) && LapTime(s, now) == Total(s, now) - s.lastLap
              && g.origin + Sum(g.laps) + LapTime(s, now) == Total(s, now)
  {
    TotalIs(s, g, now);
    DifferenceWraps(Whole(s, g, now), g.origin + Sum(g.laps));
    hide Total, Whole, Sum;
  }

  lemma DifferenceWraps(a: nat, b: nat)
    requires b <= a
    ensures (a % WORD_RANGE - b % WORD_RANGE) % WORD_RANGE == (a - b) % WORD_RANGE
    ensures a < WORD_RANGE ==> a % WORD_RANGE == a && b % WORD_RANGE == b && (a - b) % WORD_RANGE == a - b
  {
  }

  // Stopping freezes the total at the value shown at that moment.
  lemma StopFreezes(s: State, now: nat, later: nat)
    ensures Total(Stop(s, now), later) == Total(s, now)
  {
  }

  // A start turns any stopwatch on that is not; what follows counts exactly when it does not start at
  // time 0.
  lemma StartCounts(s: State, t: nat)
    requires s.mode != Running && s.acc < WORD_RANGE - 1 && t < U64 - 1000
    ensures Start(s, t).mode == Running
    ensures (forall now: nat :: t <= now < U64 && s.acc + (now - t) / 1000 < WORD_RANGE ==>
               Total(Start(s, t), now) == s.acc + (now - t) / 1000)
       <==> t != 0
  {
    if t == 0 {
      assert Total(Start(s, t), 1000) == s.acc;
    }
  }

  // ---- runs ----

  // DoRead is any other read of the time base, such as stopwatch_get_total_ms makes while running.
  datatype Event = DoStart | DoStop | DoReset | DoLap | DoClear | DoRead

  function Next(s: State, e: Event, now: nat): State {
    match e
    case DoStart => Start(s, now)
    case DoStop => Stop(s, now)
    case DoReset => Reset(s, now)
    case DoLap => Lap(s, now)
    case DoClear => Clear(s, now)
    case DoRead => s
  }

  ghost function NextHistory(s: State, g: History, e: Event, now: nat): History {
    match e
    case DoStart => if s.mode == Running then g else g.(n := g.n + 1)
    case DoStop =>
      if s.mode != Running || now < s.start then g
      else g.(done := g.done + (now - s.start), whole := Whole(s, g, now))
    case DoReset => History(0, if s.mode == Running then 1 else 0, 0, [], 0)
    case DoLap => g.(laps := g.laps + [if WholeLap(s, g, now) < 0 then 0 else WholeLap(s, g, now)])
    case DoClear => g.(laps := [], origin := Whole(s, g, now))
    case DoRead => g
  }

  // A running segment begins, of a stopwatch that is running or not.
  predicate Begins(on: bool, e: Event) {
    (e == DoStart && !on) || (e == DoReset && on)
  }

  lemma LastOfAppend(laps: seq<nat>, x: nat)
    ensures LastOf(laps + [x], MAX_LAPS)
         == (if |LastOf(laps, MAX_LAPS)| < MAX_LAPS then LastOf(laps, MAX_LAPS) else LastOf(laps, MAX_LAPS)[1..]) + [x]
  {
  }

  lemma StepKeeps(s: State, g: History, e: Event, now: nat)
    requires Inv(s, g, now) && (Begins(s.mode == Running, e) ==> now > 0)
    ensures Inv(Next(s, e, now), NextHistory(s, g, e, now), now)
  {
    match e
    case DoStart =>
    case DoStop => StopKeeps(s, g, now);
    case DoReset => assert Cut([]) == [];
    case DoLap => LapKeeps(s, g, now);
    case DoClear =>
      TotalIs(s, g, now);
      assert Cut([]) == [];
    case DoRead =>
  }

  lemma StopKeeps(s: State, g: History, now: nat)
    requires Inv(s, g, now)
    ensures Inv(Stop(s, now), NextHistory(s, g, DoStop, now), now)
  {
    TotalIs(s, g, now);
  }

  lemma LapKeeps(s: State, g: History, now: nat)
    requires Inv(s, g, now)
    ensures Inv(Lap(s, now), NextHistory(s, g, DoLap, now), now)
  {
    LapsTelescope(s, g, now);
    TotalIs(s, g, now);
    var x := WholeLap(s, g, now);
    LastOfAppend(g.laps, x);
    CutAppend(LastOf(g.laps, MAX_LAPS), x);
    SumAppend(g.laps, x);
    hide LastOf, LapTime, Sum, Total, Cut;
  }

  lemma CutAppend(laps: seq<nat>, x: nat)
    ensures Cut(laps + [x]) == Cut(laps) + [x % WORD_RANGE]
    ensures laps != [] ==> Cut(laps[1..] + [x]) == Cut(laps)[1..] + [x % WORD_RANGE]
  {
  }

  lemma SumAppend(laps: seq<nat>, x: nat)
    ensures Sum(laps + [x]) == Sum(laps) + x
  {
    assert (laps + [x])[..|laps|] == laps;
  }

  // Time goes by between events. The shown total does not go back while it fits 32 bits.
  lemma WaitKeeps(s: State, g: History, now: nat, later: nat)
    requires Inv(s, g, now) && now <= later < U64
    ensures Inv(s, g, later) && Whole(s, g, now) <= Whole(s, g, later)
    ensures Whole(s, g, later) < WORD_RANGE ==> Total(s, now) <= Total(s, later)
  {
    if s.mode == Running {
      DivMono(now - s.start, later - s.start, 1000);
    }
    TotalIs(s, g, now);
    TotalIs(s, g, later);
    hide Total, Sum;
  }

  // What happens, and what time it is then.
  datatype Timed = Timed(e: Event, now: nat)

  ghost function StateAfter(events: seq<Timed>): State {
    if events == [] then Init()
    else Next(StateAfter(events[..|events| - 1]), events[|events| - 1].e, events[|events| - 1].now)
  }

  ghost function HistoryAfter(events: seq<Timed>): History {
    if events == [] then History(0, 0, 0, [], 0)
    else
      var rest, l := events[..|events| - 1], events[|events| - 1];
      NextHistory(StateAfter(rest), HistoryAfter(rest), l.e, l.now)
  }

  ghost function TimeOf(events: seq<Timed>): nat {
    if events == [] then 0 else events[|events| - 1].now
  }

  // ---- what the events alone say ----

  ghost function Butlast(events: seq<Timed>): seq<Timed>
    requires events != []
  {
    events[..|events| - 1]
  }

  ghost function Latest(events: seq<Timed>): Timed
    requires events != []
  {
    events[|events| - 1]
  }

  // A start turns the stopwatch on, a stop turns it off.
  ghost predicate On(events: seq<Timed>)
    decreases |events|
  {
    events != [] && (Latest(events).e == DoStart || (Latest(events).e != DoStop && On(Butlast(events))))
  }

  // It has been on since it was last reset while off.
  ghost predicate Used(events: seq<Timed>)
    decreases |events|
  {
    && events != []
    && match Latest(events).e
       case DoStart => true
       case DoReset => On(Butlast(events))
       case _ => Used(Butlast(events))
  }

  // How long it has been on since the last reset, up to the last event, in the unit of the times.
  ghost function OnTime(events: seq<Timed>): int
    decreases |events|, 0
  {
    if events == [] || Latest(events).e == DoReset then 0
    else RunTime(Butlast(events), Latest(events).now)
  }

  // The same up to `now`
  ghost function RunTime(events: seq<Timed>, now: nat): int
    decreases |events|, 1
  {
    OnTime(events) + if On(events) then now - TimeOf(events) else 0
  }

  // How often it has been turned on since the last reset, counting one that happened while on.
  ghost function Segments(events: seq<Timed>): nat
    decreases |events|
  {
    if events == [] then 0
    else match Latest(events).e
      case DoStart => Segments(Butlast(events)) + if On(Butlast(events)) then 0 else 1
      case DoReset => if On(Butlast(events)) then 1 else 0
      case _ => Segments(Butlast(events))
  }

  // The laps since the last reset or clearing, and how long it had been on at the latest of these.
  ghost function LapCount(events: seq<Timed>): nat
    decreases |events|
  {
    if events == [] || Latest(events).e == DoReset || Latest(events).e == DoClear then 0
    else LapCount(Butlast(events)) + if Latest(events).e == DoLap then 1 else 0
  }

  ghost function LapMark(events: seq<Timed>): int
    decreases |events|
  {
    if events == [] || Latest(events).e == DoReset then 0
    else if Latest(events).e == DoLap || Latest(events).e == DoClear then OnTime(events)
    else LapMark(Butlast(events))
  }

  // Times do not go back, and segments do not start at time 0.
  ghost predicate IsRun(events: seq<Timed>)
    decreases |events|
  {
    events != [] ==>
      var rest, l := Butlast(events), Latest(events);
      IsRun(rest) && TimeOf(rest) <= l.now < U64 && (Begins(On(rest), l.e) ==> l.now > 0)
  }

  // The mode is the one the starts, stops and resets say.
  lemma {:induction false} ModeIs(events: seq<Timed>)
    ensures StateAfter(events).mode == if On(events) then Running else if Used(events) then Paused else Idle
    ensures On(events) ==> Used(events)
    decreases |events|
  {
    if events != [] {
      ModeIs(Butlast(events));
    }
  }

  // After any run of start, stop, lap, clear and reset: the total is exact to a millisecond a
  // segment, the kept laps are the last twenty, and all laps telescope.
  lemma {:induction false} RunKeeps(events: seq<Timed>)
    requires IsRun(events)
    ensures Inv(StateAfter(events), HistoryAfter(events), TimeOf(events))
    decreases |events|
  {
    if events != [] {
      var rest, l := Butlast(events), Latest(events);
      RunKeeps(rest);
      ModeIs(rest);
      WaitKeeps(StateAfter(rest), HistoryAfter(rest), TimeOf(rest), l.now);
      StepKeeps(StateAfter(rest), HistoryAfter(rest), l.e, l.now);
    }
  }

  // What the invariant is about is what the events say.
  ghost predicate Told(events: seq<Timed>) {
    var s, g := StateAfter(events), HistoryAfter(events);
    && (s.mode == Running <==> On(events))
    && TrueUs(s, g, TimeOf(events)) == OnTime(events)
    && g.n == Segments(events) && |g.laps| == LapCount(events)
  }

  // The laps so far end where the latest lap was taken.
  ghost predicate MarkClose(events: seq<Timed>) {
    var g := HistoryAfter(events);
    1000 * (g.origin + Sum(g.laps)) <= LapMark(events) <= 1000 * (g.origin + Sum(g.laps)) + 999 * g.n
  }

  lemma {:induction false} HistoryIs(events: seq<Timed>)
    requires IsRun(events)
    ensures Told(events) && MarkClose(events)
    decreases |events|
  {
    if events != [] {
      var rest, l := Butlast(events), Latest(events);
      HistoryIs(rest);
      RunKeeps(rest);
      WaitKeeps(StateAfter(rest), HistoryAfter(rest), TimeOf(rest), l.now);
      ToldStep(events, rest, l);
      MarkStep(events, rest, l);
    }
  }

  lemma ToldStep(events: seq<Timed>, rest: seq<Timed>, l: Timed)
    requires events != [] && rest == Butlast(events) && l == Latest(events) && TimeOf(rest) <= l.now
    requires Told(rest) && InRange(StateAfter(rest), l.now)
    ensures Told(events)
  {
    var s, g := StateAfter(rest), HistoryAfter(rest);
    assert TrueUs(s, g, l.now) == RunTime(rest, l.now);
    hide Total, LapTime, Whole;
  }

  lemma MarkStep(events: seq<Timed>, rest: seq<Timed>, l: Timed)
    requires events != [] && rest == Butlast(events) && l == Latest(events) && TimeOf(rest) <= l.now
    requires Told(rest) && MarkClose(rest) && Told(events) && Inv(StateAfter(rest), HistoryAfter(rest), l.now)
    ensures MarkClose(events)
  {
    var s, g := StateAfter(rest), HistoryAfter(rest);
    assert TrueUs(s, g, l.now) == RunTime(rest, l.now);
    TotalAccurate(s, g, l.now);
    if l.e == DoLap {
      LapsTelescope(s, g, l.now);
      SumAppend(g.laps, WholeLap(s, g, l.now));
    }
    hide Inv, Total, LapTime, Told;
  }

  // What is shown at any time after any run, while it fits 32 bits: the time since the last reset
  // during which the stopwatch was on, less than a millisecond short for each time it was turned on.
  lemma RunShows(events: seq<Timed>, now: nat)
    requires IsRun(events) && TimeOf(events) <= now < U64 && RunTime(events, now) < 1000 * WORD_RANGE
    ensures var total, n := Total(StateAfter(events), now), Segments(events);
      1000 * total <= RunTime(events, now) <= 1000 * total + 999 * n
    ensures |StateAfter(events).kept| == if LapCount(events) < 20 then LapCount(events) else 20
  {
    var s, g := StateAfter(events), HistoryAfter(events);
    RunKeeps(events);
    HistoryIs(events);
    WaitKeeps(s, g, TimeOf(events), now);
    TotalAccurate(s, g, now);
    LapsTelescope(s, g, now);
  }

  // And a lap taken then: the time it was on since the lap before, or the clearing of the laps, to
  // a millisecond for each time it was turned on.
  lemma LapShows(events: seq<Timed>, now: nat)
    requires IsRun(events) && TimeOf(events) <= now < U64 && RunTime(events, now) < 1000 * WORD_RANGE
    ensures var lap, n := 1000 * LapTime(StateAfter(events), now), Segments(events);
      lap - 999 * n <= RunTime(events, now) - LapMark(events) <= lap + 999 * n
  {
    var s, g := StateAfter(events), HistoryAfter(events);
    RunKeeps(events);
    HistoryIs(events);
    WaitKeeps(s, g, TimeOf(events), now);
    TotalAccurate(s, g, now);
    LapsTelescope(s, g, now);
  }

  // ---- the stopwatch on its time base ----

  // The times are true cycle counts here.

  // Whether the operation reads the time base at all.
  predicate Reads(s: State, e: Event) {
    match e
    case DoStart => s.mode != Running
    case DoReset => s.mode == Running
    case DoRead => true
    case _ => s.mode == Running && s.start != 0
  }

  // The same, of a stopwatch that is on or off.
  predicate LooksUp(on: bool, e: Event) {
    if on then e != DoStart else e == DoStart || e == DoRead
  }

  lemma UnreadTime(s: State, e: Event, now: nat, other: nat)
    requires !Reads(s, e)
    ensures Next(s, e, now) == Next(s, e, other)
  {
  }

  // The stopwatch and its time base, run together.
  ghost function MachineAfter(rs: seq<Timed>, hz: nat): (State, Clock)
    requires hz > 0
    decreases |rs|
  {
    if rs == [] then (Init(), Clock(0, 0))
    else
      var (s, k) := MachineAfter(Butlast(rs), hz);
      var l := Latest(rs);
      if Reads(s, l.e) then (Next(s, l.e, Micros(Advance(k, l.now), hz)), Advance(k, l.now))
      else (Next(s, l.e, 0), k)
  }

  // The cycle count at the last read of the time base.
  ghost function LastRead(rs: seq<Timed>): nat
    decreases |rs|
  {
    if rs == [] then 0
    else if LooksUp(On(Butlast(rs)), Latest(rs).e) then Latest(rs).now
    else LastRead(Butlast(rs))
  }

  // Since the last reset: the cycles of the finished segments, and the cycle count at which the
  // segment in progress began.
  datatype Span = Span(done: int, begun: nat)

  ghost function NextSpan(on: bool, p: Span, e: Event, cycles: nat): Span {
    match e
    case DoStart => if on then p else p.(begun := cycles)
    case DoStop => if on then p.(done := p.done + (cycles - p.begun)) else p
    case DoReset => Span(0, cycles)
    case _ => p
  }

  ghost function SpanAfter(rs: seq<Timed>): Span
    decreases |rs|
  {
    if rs == [] then Span(0, 0)
    else NextSpan(On(Butlast(rs)), SpanAfter(Butlast(rs)), Latest(rs).e, Latest(rs).now)
  }

  // The spans add up to the time the stopwatch was on.
  lemma {:induction false} SpanTime(rs: seq<Timed>)
    ensures SpanAfter(rs).done + (if On(rs) then TimeOf(rs) - SpanAfter(rs).begun else 0) == OnTime(rs)
    decreases |rs|
  {
    if rs != [] {
      SpanTime(Butlast(rs));
    }
  }

  // A cycle count in microseconds
  function Scaled(cycles: nat, hz: nat): nat
    requires hz > 0
  {
    cycles * 1000000 / hz
  }

  // What timebase_get_us made of the last read.
  ghost function Times(rs: seq<Timed>, hz: nat): seq<Timed>
    requires hz > 0
    decreases |rs|
  {
    if rs == [] then []
    else Times(Butlast(rs), hz) + [Timed(Latest(rs).e, Scaled(MachineAfter(rs, hz).1.total, hz))]
  }

  // The counter does not go back and, while the stopwatch runs, is read before it comes round;
  // what it was extended to scales within 64 bits; segments do not start in its first microsecond.
  ghost predicate CycleRun(rs: seq<Timed>, hz: nat)
    requires hz > 0
    decreases |rs|
  {
    rs != [] ==>
      var rest, l := Butlast(rs), Latest(rs);
      && CycleRun(rest, hz) && LastRead(rest) <= l.now
      && (LooksUp(On(rest), l.e) && On(rest) ==> l.now < LastRead(rest) + WORD_RANGE)
      && MachineAfter(rs, hz).1.total * 1000000 < U64
      && (Begins(On(rest), l.e) ==> Scaled(MachineAfter(rs, hz).1.total, hz) > 0)
  }

  // The clock is behind the counter by what was not counted before the segment, and no more.
  ghost predicate Synced(s: State, k: Clock, p: Span, read: nat, hz: nat)
    requires hz > 0
  {
    && k.last == read % WORD_RANGE && k.total * 1000000 < U64
    && (s.mode == Running ==>
          && p.begun <= read && read - p.begun <= k.total
          && s.start == Scaled(k.total - (read - p.begun), hz))
  }

  // A read: the clock advances by the cycles that went by, if they were few enough.
  lemma AdvanceBy(k: Clock, read: nat, cycles: nat)
    requires k.last == read % WORD_RANGE && read <= cycles && k.total * 1000000 < U64
    ensures var k' := Advance(k, cycles);
      && k'.last == cycles % WORD_RANGE && k.total <= k'.total
      && (cycles < read + WORD_RANGE ==> k'.total == k.total + (cycles - read))
  {
    var d := (cycles % WORD_RANGE - k.last) % WORD_RANGE;
    assert d == (cycles - read) % WORD_RANGE;
  }

  lemma StepSynced(s: State, k: Clock, p: Span, read: nat, l: Timed, hz: nat)
    requires hz > 0 && Synced(s, k, p, read, hz) && read <= l.now
    requires Reads(s, l.e) && s.mode == Running ==> l.now < read + WORD_RANGE
    requires Advance(k, l.now).total * 1000000 < U64
    ensures var k' := Advance(k, l.now);
      Reads(s, l.e) ==>
        && Micros(k', hz) == Scaled(k'.total, hz) && k.total <= k'.total
        && Synced(Next(s, l.e, Micros(k', hz)), k', NextSpan(s.mode == Running, p, l.e, l.now), l.now, hz)
    ensures !Reads(s, l.e) && (s.mode == Running ==> s.start != 0) ==>
      Synced(Next(s, l.e, 0), k, NextSpan(s.mode == Running, p, l.e, l.now), read, hz)
  {
    AdvanceBy(k, read, l.now);
    MicrosFit(Advance(k, l.now), hz);
    hide Advance, Micros, Scaled, Total, LapTime;
  }

  lemma MicrosFit(k: Clock, hz: nat)
    requires hz > 0 && k.total * 1000000 < U64
    ensures Micros(k, hz) == Scaled(k.total, hz)
  {
  }

  // One segment of d cycles, on a clock that shows b when it begins: off by less than a
  // microsecond.
  lemma SegmentClose(b: nat, d: nat, hz: nat)
    requires hz > 0
    ensures var us := Scaled(b + d, hz) - Scaled(b, hz);
      0 <= us && -(hz - 1) <= us * hz - d * 1000000 <= hz - 1
  {
    var x, y := b * 1000000, (b + d) * 1000000;
    assert y == x + d * 1000000;
    assert x == x / hz * hz + x % hz && y == y / hz * hz + y % hz;
    assert (y / hz - x / hz) * hz == y / hz * hz - x / hz * hz;
    DivMono(x, y, hz);
  }

  // The finished segments are off by less than a microsecond each.
  ghost predicate Close(us: int, cycles: int, segments: nat, hz: nat) {
    -(segments * (hz - 1)) <= us * hz - cycles * 1000000 <= segments * (hz - 1)
  }

  lemma CloseAdds(us: int, cycles: int, segments: nat, us': int, cycles': int, hz: nat)
    requires hz > 0 && Close(us, cycles, segments, hz) && Close(us', cycles', 1, hz)
    ensures Close(us + us', cycles + cycles', segments + 1, hz)
  {
    assert (us + us') * hz == us * hz + us' * hz;
    assert (segments + 1) * (hz - 1) == segments * (hz - 1) + (hz - 1);
  }

  ghost function Finished(s: State, g: History): int { if s.mode == Running then g.n - 1 else g.n }

  ghost predicate DoneClose(s: State, g: History, p: Span, hz: nat) {
    0 <= Finished(s, g) && Close(g.done, p.done, Finished(s, g), hz)
  }

  lemma StepClose(s: State, g: History, k: Clock, p: Span, read: nat, l: Timed, now: nat, hz: nat)
    requires hz > 0 && Synced(s, k, p, read, hz) && DoneClose(s, g, p, hz) && read <= l.now
    requires s.mode == Running ==> 0 < s.start
    requires Reads(s, l.e) ==> now == Scaled(Advance(k, l.now).total, hz)
    requires Reads(s, l.e) && s.mode == Running ==> l.now < read + WORD_RANGE
    ensures DoneClose(Next(s, l.e, now), NextHistory(s, g, l.e, now), NextSpan(s.mode == Running, p, l.e, l.now), hz)
  {
    if l.e == DoStop && s.mode == Running {
      AdvanceBy(k, read, l.now);
      var b, d := k.total - (read - p.begun), l.now - p.begun;
      assert Advance(k, l.now).total == b + d;
      SegmentClose(b, d, hz);
      CloseAdds(g.done, p.done, Finished(s, g), now - s.start, d, hz);
    } else {
      assert 0 * hz == 0 && 0 * (hz - 1) == 0;
    }
  }

  // The stopwatch has not been running for longer than the clock.
  ghost predicate Elapsed(s: State, g: History, now: nat) {
    (s.mode == Running ==> s.start <= now) && TrueUs(s, g, now) <= now
  }

  lemma ElapsedStep(s: State, g: History, e: Event, before: nat, now: nat)
    requires Elapsed(s, g, before) && before <= now
    ensures Elapsed(s, g, now) && Elapsed(Next(s, e, now), NextHistory(s, g, e, now), now)
  {
  }

  lemma ScaledBounds(cycles: nat, hz: nat)
    requires hz > 0 && cycles * 1000000 < U64
    ensures Scaled(cycles, hz) < U64
    ensures U64 <= 1000 * WORD_RANGE * hz ==> Scaled(cycles, hz) < 1000 * WORD_RANGE
  {
    var q := Scaled(cycles, hz);
    assert cycles * 1000000 == q * hz + cycles * 1000000 % hz;
    if q > 1000 * WORD_RANGE {
      MulLess(1000 * WORD_RANGE, q, hz);
    }
    if q > 0 {
      MulLess(0, hz, q);
    }
  }

  // What the run of machine and clock comes to.
  ghost predicate CycleInv(rs: seq<Timed>, hz: nat)
    requires hz > 0
  {
    var (s, k) := MachineAfter(rs, hz);
    var events := Times(rs, hz);
    && Synced(s, k, SpanAfter(rs), LastRead(rs), hz)
    && IsRun(events) && s == StateAfter(events) && TimeOf(events) == Scaled(k.total, hz)
    && DoneClose(s, HistoryAfter(events), SpanAfter(rs), hz)
    && Elapsed(s, HistoryAfter(events), TimeOf(events))
  }

  // The times shown belong to the same events.
  lemma {:induction false} TimesSame(rs: seq<Timed>, hz: nat)
    requires hz > 0
    ensures On(Times(rs, hz)) == On(rs) && Segments(Times(rs, hz)) == Segments(rs) && LapCount(Times(rs, hz)) == LapCount(rs)
    decreases |rs|
  {
    if rs != [] {
      TimesSame(Butlast(rs), hz);
      assert Butlast(Times(rs, hz)) == Times(Butlast(rs), hz);
    }
  }

  // The code reads the time base when it should.
  lemma ReadsRight(rs: seq<Timed>, hz: nat, e: Event)
    requires hz > 0 && CycleInv(rs, hz)
    ensures MachineAfter(rs, hz).0.mode == Running <==> On(rs)
    ensures Reads(MachineAfter(rs, hz).0, e) <==> LooksUp(On(rs), e)
  {
    TimesSame(rs, hz);
    ModeIs(Times(rs, hz));
    RunKeeps(Times(rs, hz));
  }

  // A stopwatch driven by the cycle counter behaves as one that is told the times the clock shows,
  // which may lose whole rounds of the counter between segments but not within one.
  lemma {:induction false} CycleRunIsRun(rs: seq<Timed>, hz: nat)
    requires 0 < hz && CycleRun(rs, hz)
    ensures CycleInv(rs, hz)
    decreases |rs|
  {
    if rs != [] {
      CycleRunIsRun(Butlast(rs), hz);
      CycleStep(rs, hz);
    }
  }

  lemma CycleStep(rs: seq<Timed>, hz: nat)
    requires rs != [] && 0 < hz && CycleRun(rs, hz) && CycleInv(Butlast(rs), hz)
    ensures CycleInv(rs, hz)
  {
    var rest, l := Butlast(rs), Latest(rs);
    var (s, k) := MachineAfter(rest, hz);
    var (_, k') := MachineAfter(rs, hz);
    var p, events, now := SpanAfter(rest), Times(rest, hz), Scaled(k'.total, hz);
    RunKeeps(events);
    ReadsRight(rest, hz, l.e);
    TimesSame(rest, hz);
    if Reads(s, l.e) {
      AdvanceBy(k, LastRead(rest), l.now);
      StepSynced(s, k, p, LastRead(rest), l, hz);
    } else {
      UnreadSynced(s, k, p, LastRead(rest), l, hz);
      UnreadTime(s, l.e, 0, now);
    }
    StepClose(s, HistoryAfter(events), k, p, LastRead(rest), l, now, hz);
    DivMono(k.total * 1000000, k'.total * 1000000, hz);
    ScaledBounds(k'.total, hz);
    RunExtends(events, Timed(l.e, now));
  }

  lemma UnreadSynced(s: State, k: Clock, p: Span, read: nat, l: Timed, hz: nat)
    requires hz > 0 && Synced(s, k, p, read, hz) && !Reads(s, l.e) && (s.mode == Running ==> s.start != 0)
    ensures Synced(Next(s, l.e, 0), k, NextSpan(s.mode == Running, p, l.e, l.now), read, hz)
  {
  }

  lemma RunExtends(events: seq<Timed>, l: Timed)
    requires IsRun(events) && TimeOf(events) <= l.now < U64 && (Begins(On(events), l.e) ==> l.now > 0)
    requires Elapsed(StateAfter(events), HistoryAfter(events), TimeOf(events))
    ensures var r := events + [l];
      && IsRun(r) && TimeOf(r) == l.now
      && StateAfter(r) == Next(StateAfter(events), l.e, l.now)
      && HistoryAfter(r) == NextHistory(StateAfter(events), HistoryAfter(events), l.e, l.now)
      && Elapsed(StateAfter(r), HistoryAfter(r), l.now)
  {
    var r := events + [l];
    assert r[..|r| - 1] == events;
    ElapsedStep(StateAfter(events), HistoryAfter(events), l.e, TimeOf(events), l.now);
  }

  // The running time the clock shows against the time the stopwatch was on in true cycles, up to
  // the last read.
  lemma RunningClose(rs: seq<Timed>, hz: nat)
    requires 0 < hz && CycleRun(rs, hz)
    ensures Close(OnTime(Times(rs, hz)), RunTime(rs, LastRead(rs)), Segments(rs), hz)
  {
    CycleRunIsRun(rs, hz);
    ReadsRight(rs, hz, DoRead);
    SpanTime(rs);
    var (s, k) := MachineAfter(rs, hz);
    HistoryIs(Times(rs, hz));
    TimesSame(rs, hz);
    CloseNow(s, HistoryAfter(Times(rs, hz)), k, SpanAfter(rs), LastRead(rs), hz);
  }

  lemma CloseNow(s: State, g: History, k: Clock, p: Span, read: nat, hz: nat)
    requires hz > 0 && Synced(s, k, p, read, hz) && DoneClose(s, g, p, hz)
    ensures Close(TrueUs(s, g, Scaled(k.total, hz)), p.done + (if s.mode == Running then read - p.begun else 0), g.n, hz)
  {
    if s.mode == Running {
      var d := read - p.begun;
      SegmentClose(k.total - d, d, hz);
      assert k.total - d + d == k.total;
      CloseAdds(g.done, p.done, Finished(s, g), Scaled(k.total, hz) - s.start, d, hz);
    }
  }

  // The whole stopwatch at the 72 MHz of this board, from cycle counts to what is shown: the total
  // is the time the stopwatch was on in true cycles, to a millisecond for each time it was turned
  // on, and all laps add up to it. The scaled count fits 64 bits, so the total fits 32.
  lemma StopwatchExact(rs: seq<Timed>)
    requires CycleRun(rs, CPU_HZ)
    ensures var s, g, now := MachineAfter(rs, CPU_HZ).0, HistoryAfter(Times(rs, CPU_HZ)), TimeOf(Times(rs, CPU_HZ));
      var cycles, n := RunTime(rs, LastRead(rs)), Segments(rs);
      && 1000 * CPU_HZ * Total(s, now) <= 1000000 * cycles + CPU_HZ * n
      && (n > 0 ==> 1000000 * cycles < 1000 * CPU_HZ * (Total(s, now) + n))
      && |s.kept| == (if LapCount(rs) < 20 then LapCount(rs) else 20)
      && g.origin + Sum(g.laps) + LapTime(s, now) == Total(s, now)
      && s.kept == LastOf(g.laps, MAX_LAPS)
  {
    var (s, k) := MachineAfter(rs, CPU_HZ);
    var events := Times(rs, CPU_HZ);
    var g, now := HistoryAfter(events), TimeOf(events);
    CycleRunIsRun(rs, CPU_HZ);
    RunningClose(rs, CPU_HZ);
    RunKeeps(events);
    HistoryIs(events);
    TimesSame(rs, CPU_HZ);
    ScaledBounds(k.total, CPU_HZ);
    TotalAccurate(s, g, now);
    LapsTelescope(s, g, now);
    assert 1000 * Whole(s, g, now) <= now;
    LapsFit(s, g, now);
    CloseBounds(TrueUs(s, g, now), RunTime(rs, LastRead(rs)), g.n, Total(s, now));
    hide MachineAfter, Times, HistoryAfter, RunTime, Total, LapTime, LastOf, Sum, TrueUs, Whole;
  }

  lemma CloseBounds(us: int, cycles: int, n: nat, total: nat)
    requires Close(us, cycles, n, CPU_HZ) && 1000 * total <= us <= 1000 * total + 999 * n
    ensures 1000 * CPU_HZ * total <= 1000000 * cycles + CPU_HZ * n
    ensures n > 0 ==> 1000000 * cycles < 1000 * CPU_HZ * (total + n)
  {
  }

  // With the total, all laps fit 32 bits.
  lemma LapsFit(s: State, g: History, now: nat)
    requires Inv(s, g, now) && Whole(s, g, now) < WORD_RANGE
    ensures s.kept == LastOf(g.laps, MAX_LAPS)
  {
    forall i | 0 <= i < |g.laps|
      ensures g.laps[i] < WORD_RANGE
    {
      PartOfSum(g.laps, i);
    }
  }

  lemma {:induction false} PartOfSum(laps: seq<nat>, i: nat)
    requires i < |laps|
    ensures laps[i] <= Sum(laps)
    decreases |laps|
  {
    if i < |laps| - 1 {
      PartOfSum(laps[..|laps| - 1], i);
    }
  }

  // ---- the code ----

  class TimeBase {
    var lastCyc: nat
    var totalCyc: nat
    const hz: nat // cpu_hz

    // timebase_init, which clears the cycle counter
    constructor (hz: nat)
      requires 0 < hz < WORD_RANGE
      ensures View() == Clock(0, 0) && this.hz == hz
    {
      lastCyc, totalCyc := 0, 0;
      this.hz := hz;
    }

    ghost function View(): Clock
      reads this
    {
      Clock(lastCyc, totalCyc)
    }

    // timebase_get_us when the cycle counter reads `cur`
    method GetUs(cur: nat) returns (us: nat)
      requires cur < WORD_RANGE && hz > 0 && lastCyc < WORD_RANGE
      modifies this
      ensures forall cycles: nat :: cycles % WORD_RANGE == cur ==> View() == Advance(old(View()), cycles)
      ensures us == Micros(View(), hz) && lastCyc < WORD_RANGE
    {
      var delta := (cur - lastCyc) % WORD_RANGE;
      lastCyc := cur;
      totalCyc := (totalCyc + delta) % U64;
      us := (totalCyc * 1000000) % U64 / hz;
    }
  }

  class Stopwatch {
    var mode: Mode
    var startUs: nat
    var accumulated: nat
    var lastLapTotal: nat
    const durations: array<nat> // lap_durations_ms
    var lapCount: nat

    ghost predicate Valid()
      reads this
    {
      durations.Length == MAX_LAPS && lapCount <= MAX_LAPS
    }

    ghost function View(): State
      reads this, durations
      requires Valid()
    {
      State(mode, startUs, accumulated, lastLapTotal, durations[..lapCount])
    }

    // stopwatch_init
    constructor ()
      ensures Valid() && View() == Init() && fresh(durations)
    {
      mode, startUs, accumulated, lastLapTotal, lapCount := Idle, 0, 0, 0, 0;
      durations := new nat[MAX_LAPS](_ => 0);
    }

    method NowTotal(now: nat) returns (total: nat)
      requires Valid()
      ensures total == Total(View(), now)
    {
      if mode == Running && startUs != 0 {
        var delta := (now - startUs) % U64;
        return (accumulated + delta / 1000 % WORD_RANGE) % WORD_RANGE;
      }
      return accumulated;
    }

    method StopwatchStart(now: nat)
      requires Valid()
      modifies this
      ensures Valid() && View() == Start(old(View()), now)
    {
      if mode == Running {
        return;
      }
      startUs := now;
      mode := Running;
    }

    method StopwatchStop(now: nat)
      requires Valid()
      modifies this
      ensures Valid() && View() == Stop(old(View()), now)
    {
      if mode == Running {
        if startUs != 0 {
          accumulated := (accumulated + (now - startUs) % U64 / 1000 % WORD_RANGE) % WORD_RANGE;
          startUs := 0;
        }
        mode := Paused;
      }
    }

    method StopwatchReset(now: nat)
      requires Valid()
      modifies this, durations
      ensures Valid() && View() == Reset(old(View()), now)
    {
      accumulated := 0;
      lastLapTotal := 0;
      lapCount := 0;
      ZeroDurations();
      if mode == Running {
        startUs := now;
      } else {
        mode := Idle;
        startUs := 0;
      }
    }

    method ZeroDurations()
      requires durations.Length == MAX_LAPS
      modifies durations
      ensures forall i :: 0 <= i < MAX_LAPS ==> durations[i] == 0
    {
      for i := 0 to MAX_LAPS
        invariant forall j :: 0 <= j < i ==> durations[j] == 0
      {
        durations[i] := 0;
      }
    }

    method StopwatchLap(now: nat) returns (lap: nat)
      requires Valid()
      modifies this, durations
      ensures Valid() && View() == Lap(old(View()), now) && lap == LapTime(old(View()), now)
    {
      var total := NowTotal(now);
      lap := (total - lastLapTotal) % WORD_RANGE;
      if lapCount < MAX_LAPS {
        durations[lapCount] := lap;
        lapCount := lapCount + 1;
        assert durations[..lapCount] == old(durations[..lapCount]) + [lap];
      } else {
        ShiftDurations();
        durations[MAX_LAPS - 1] := lap;
        assert durations[..lapCount] == old(durations[..lapCount])[1..] + [lap];
      }
      lastLapTotal := total;
    }

    // memmove of all but the first entry to the front
    method ShiftDurations()
      requires durations.Length == MAX_LAPS
      modifies durations
      ensures forall i :: 0 <= i < MAX_LAPS - 1 ==> durations[i] == old(durations[i + 1])
    {
      for i := 0 to MAX_LAPS - 1
        invariant forall j :: 0 <= j < i ==> durations[j] == old(durations[j + 1])
        invariant forall j :: i <= j < MAX_LAPS ==> durations[j] == old(durations[j])
      {
        durations[i] := durations[i + 1];
      }
    }

    method StopwatchClearLaps(now: nat)
      requires Valid()
      modifies this, durations
      ensures Valid() && View() == Clear(old(View()), now)
    {
      lapCount := 0;
      lastLapTotal := NowTotal(now);
      ZeroDurations();
    }

    // stopwatch_get_lap_ms and stopwatch_get_latest_lap_ms
    method GetLap(index: nat) returns (v: nat)
      requires Valid()
      ensures v == if index < |View().kept| then View().kept[index] else 0
    {
      v := 0;
      if index < lapCount {
        v := durations[index];
      }
    }
  }
}
