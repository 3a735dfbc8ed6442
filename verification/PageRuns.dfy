// The page allocator of rt-thread/src/slab.c: a list of runs of free pages, in address order.
// Pages are numbered from the start of the heap; the head of a run sits in its first page.
module PageRuns {

  datatype Run = Run(start: nat, len: nat)

  datatype Addr = Null | Page(n: nat)

  function End(r: Run): nat { r.start + r.len }

  predicate Holds(r: Run, x: nat) { r.start <= x < End(r) }

  // Page x is free.
  ghost predicate FreeAt(runs: seq<Run>, x: nat) {
    runs != [] && (Holds(runs[0], x) || FreeAt(runs[1..], x))
  }

  // Canonical form: non-empty runs in address order, with a gap between neighbours.
  ghost predicate Canonical(runs: seq<Run>) {
    runs != [] ==>
      && runs[0].len > 0
      && (|runs| > 1 ==> End(runs[0]) < runs[1].start)
      && Canonical(runs[1..])
  }

  // ---- the specifications ----

  datatype Outcome = Outcome(addr: Addr, runs: seq<Run>)

  ghost function Behind(r: Run, o: Outcome): Outcome { Outcome(o.addr, [r] + o.runs) }

  // The loop of rt_page_alloc for n > 0 pages: cut the first run that is large enough.
  ghost function AllocSpec(runs: seq<Run>, n: nat): Outcome {
    if runs == [] then Outcome(Null, [])
    else if runs[0].len > n then
      Outcome(Page(runs[0].start), [Run(runs[0].start + n, runs[0].len - n)] + runs[1..])
    else if runs[0].len == n then Outcome(Page(runs[0].start), runs[1..])
    else Behind(runs[0], AllocSpec(runs[1..], n))
  }

  ghost function PageAllocSpec(runs: seq<Run>, n: nat): Outcome {
    if n == 0 then Outcome(Null, runs) else AllocSpec(runs, n)
  }

  // rt_page_free of n > 0 pages from p on.
  ghost function FreeSpec(runs: seq<Run>, p: nat, n: nat): seq<Run> {
    if runs == [] then [Run(p, n)]
    else
      var b := runs[0];
      if End(b) == p then
        if |runs| > 1 && p + n == runs[1].start
        then [Run(b.start, b.len + n + runs[1].len)] + runs[2..]
        else [Run(b.start, b.len + n)] + runs[1..]
      else if b.start == p + n then [Run(p, b.len + n)] + runs[1..]
      else if b.start > p + n then [Run(p, n)] + runs
      else [b] + FreeSpec(runs[1..], p, n)
  }

  // ---- the list is the free set ----

  lemma {:induction false} FreeBehind(runs: seq<Run>, x: nat)
    requires Canonical(runs) && runs != [] && FreeAt(runs[1..], x)
    ensures End(runs[0]) < x
    decreases |runs|
  {
    if !Holds(runs[1], x) {
      FreeBehind(runs[1..], x);
    }
  }

  // The list is determined by the set of free pages.
  lemma {:induction false} CanonicalUnique(a: seq<Run>, b: seq<Run>)
    requires Canonical(a) && Canonical(b)
    requires forall x: nat :: FreeAt(a, x) <==> FreeAt(b, x)
    ensures a == b
    decreases |a|
  {
    if a == [] {
      assert b != [] ==> FreeAt(b, b[0].start);
    } else {
      assert FreeAt(a, a[0].start);
      SameFirst(a, b);
      forall x: nat
        ensures FreeAt(a[1..], x) <==> FreeAt(b[1..], x)
      {
        assert FreeAt(a, x) <==> FreeAt(b, x);
        if FreeAt(a[1..], x) { FreeBehind(a, x); }
        if FreeAt(b[1..], x) { FreeBehind(b, x); }
      }
      CanonicalUnique(a[1..], b[1..]);
      assert a == [a[0]] + a[1..] && b == [b[0]] + b[1..];
    }
  }

  lemma FirstIsLowest(a: seq<Run>, x: nat)
    requires Canonical(a) && a != [] && FreeAt(a, x)
    ensures a[0].start <= x && (x <= End(a[0]) ==> x < End(a[0]))
  {
    if !Holds(a[0], x) {
      FreeBehind(a, x);
    }
  }

  lemma SameFirst(a: seq<Run>, b: seq<Run>)
    requires Canonical(a) && Canonical(b) && a != [] && b != []
    requires forall x: nat :: FreeAt(a, x) <==> FreeAt(b, x)
    ensures a[0] == b[0]
  {
    assert FreeAt(a, a[0].start) && FreeAt(b, b[0].start);
    FirstIsLowest(a, b[0].start);
    FirstIsLowest(b, a[0].start);
    var ea, eb := End(a[0]), End(b[0]);
    assert FreeAt(a, ea - 1) && FreeAt(b, eb - 1);
    if ea < eb {
      assert FreeAt(b, ea);
      FirstIsLowest(a, ea);
    } else if eb < ea {
      assert FreeAt(a, eb);
      FirstIsLowest(b, eb);
    }
  }

  // ---- rt_page_alloc ----

  // Pages p, ..., p + n - 1 are all free.
  ghost predicate AllFree(runs: seq<Run>, p: nat, n: nat) {
    forall x: nat :: p <= x < p + n ==> FreeAt(runs, x)
  }

  lemma {:induction false} AllocKeeps(runs: seq<Run>, n: nat)
    requires Canonical(runs) && n > 0
    ensures var o := AllocSpec(runs, n);
      && Canonical(o.runs)
      && (o.runs != [] ==> runs != [] && runs[0].start <= o.runs[0].start)
      && (o.addr.Null? ==> o.runs == runs)
      && (o.addr.Page? ==> AllFree(runs, o.addr.n, n))
      && (o.addr.Page? ==> forall x: nat :: FreeAt(o.runs, x) <==> FreeAt(runs, x) && !(o.addr.n <= x < o.addr.n + n))
    decreases |runs|
  {
    if runs != [] {
      var rest, o := runs[1..], AllocSpec(runs, n);
      if runs[0].len < n {
        AllocKeeps(rest, n);
        var o1 := AllocSpec(rest, n);
        assert runs == [runs[0]] + rest && o.runs == [runs[0]] + o1.runs && o.runs[1..] == o1.runs;
        if o1.addr.Page? {
          assert FreeAt(rest, o1.addr.n);
          FreeBehind(runs, o1.addr.n);
          forall x: nat
            ensures FreeAt(o.runs, x) <==> FreeAt(runs, x) && !(o.addr.n <= x < o.addr.n + n)
          {
            assert FreeAt(o1.runs, x) <==> FreeAt(rest, x) && !(o1.addr.n <= x < o1.addr.n + n);
          }
        }
      } else {
        AllocHere(runs, n);
      }
    }
  }

  lemma AllocHere(runs: seq<Run>, n: nat)
    requires Canonical(runs) && n > 0 && runs != [] && runs[0].len >= n
    ensures var o := AllocSpec(runs, n);
      && Canonical(o.runs)
      && (o.runs != [] ==> runs[0].start <= o.runs[0].start)
      && AllFree(runs, o.addr.n, n)
      && (forall x: nat :: FreeAt(o.runs, x) <==> FreeAt(runs, x) && !(o.addr.n <= x < o.addr.n + n))
  {
    var rest, o := runs[1..], AllocSpec(runs, n);
    assert runs[0].len > n ==> o.runs[1..] == rest;
    forall x: nat
      ensures FreeAt(o.runs, x) <==> FreeAt(runs, x) && !(o.addr.n <= x < o.addr.n + n)
    {
      if FreeAt(rest, x) { FreeBehind(runs, x); }
    }
  }

  // A stretch of free pages lies within one run.
  lemma {:induction false} StretchInRun(runs: seq<Run>, p: nat, n: nat)
    requires Canonical(runs) && n > 0 && AllFree(runs, p, n)
    ensures exists r :: r in runs && r.start <= p && p + n <= End(r)
    decreases |runs|
  {
    assert FreeAt(runs, p);
    if Holds(runs[0], p) {
      if p + n > End(runs[0]) {
        assert FreeAt(runs, End(runs[0]));
        FirstIsLowest(runs, End(runs[0]));
      }
      assert runs[0] in runs;
    } else {
      FreeBehind(runs, p);
      forall x: nat | p <= x < p + n
        ensures FreeAt(runs[1..], x)
      {
        assert FreeAt(runs, x);
      }
      StretchInRun(runs[1..], p, n);
      var r :| r in runs[1..] && r.start <= p && p + n <= End(r);
      assert r in runs;
    }
  }

  lemma {:induction false} AllocFailsIfSmall(runs: seq<Run>, n: nat)
    requires n > 0
    ensures AllocSpec(runs, n).addr.Null? <==> forall r :: r in runs ==> r.len < n
    decreases |runs|
  {
    if runs != [] {
      AllocFailsIfSmall(runs[1..], n);
      assert runs == [runs[0]] + runs[1..];
    }
  }

  // rt_page_alloc fails exactly when there is no contiguous stretch of that many free pages.
  lemma AllocFailsExactlyWhen(runs: seq<Run>, n: nat)
    requires Canonical(runs)
    ensures PageAllocSpec(runs, n).addr.Null? <==> n == 0 || !exists p: nat :: AllFree(runs, p, n)
  {
    if n > 0 {
      AllocFailsIfSmall(runs, n);
      AllocKeeps(runs, n);
      forall p: nat | AllFree(runs, p, n)
        ensures PageAllocSpec(runs, n).addr.Page?
      {
        StretchInRun(runs, p, n);
      }
    }
  }

  // The pages handed out are the lowest that many in a row.
  lemma {:induction false} AllocLowest(runs: seq<Run>, n: nat, p: nat)
    requires Canonical(runs) && n > 0 && AllFree(runs, p, n)
    ensures PageAllocSpec(runs, n).addr.Page? && PageAllocSpec(runs, n).addr.n <= p
    decreases |runs|
  {
    assert FreeAt(runs, p);
    FirstIsLowest(runs, p);
    if runs[0].len < n {
      StretchBehind(runs, p, n);
      AllocLowest(runs[1..], n, p);
    }
  }

  lemma StretchBehind(runs: seq<Run>, p: nat, n: nat)
    requires Canonical(runs) && runs != [] && runs[0].len < n && AllFree(runs, p, n)
    ensures AllFree(runs[1..], p, n)
  {
    assert FreeAt(runs, p);
    FirstIsLowest(runs, p);
    if Holds(runs[0], p) {
      assert FreeAt(runs, End(runs[0]));
      FirstIsLowest(runs, End(runs[0]));
    } else {
      FreeBehind(runs, p);
      forall x: nat | p <= x < p + n
        ensures FreeAt(runs[1..], x)
      {
        assert FreeAt(runs, x);
      }
    }
  }

  // ---- rt_page_free ----

  ghost predicate NoneFree(runs: seq<Run>, p: nat, n: nat) {
    forall x: nat :: p <= x < p + n ==> !FreeAt(runs, x)
  }

  lemma FirstMeets(runs: seq<Run>, p: nat, n: nat)
    requires Canonical(runs) && runs != [] && n > 0
    ensures End(runs[0]) <= p || p + n <= runs[0].start || !NoneFree(runs, p, n)
  {
    var x := if runs[0].start < p then p else runs[0].start;
    assert Holds(runs[0], x) ==> FreeAt(runs, x);
  }

  // A run that meets none of the pages being freed lies before or behind them.
  lemma RunApart(runs: seq<Run>, p: nat, n: nat)
    requires Canonical(runs) && runs != [] && n > 0 && NoneFree(runs, p, n)
    ensures End(runs[0]) <= p || p + n <= runs[0].start
    ensures NoneFree(runs[1..], p, n)
  {
    FirstMeets(runs, p, n);
    forall x: nat | p <= x < p + n
      ensures !FreeAt(runs[1..], x)
    {
      assert !FreeAt(runs, x);
    }
  }

  lemma FreeHere(runs: seq<Run>, p: nat, n: nat)
    requires Canonical(runs) && runs != [] && n > 0 && NoneFree(runs, p, n)
    requires p <= End(runs[0])
    ensures var r := FreeSpec(runs, p, n);
      && Canonical(r) && r[0].start == (if p < runs[0].start then p else runs[0].start)
      && (forall x: nat :: FreeAt(r, x) <==> FreeAt(runs, x) || p <= x < p + n)
  {
    var b, r := runs[0], FreeSpec(runs, p, n);
    RunApart(runs, p, n);
    if |runs| > 1 {
      RunApart(runs[1..], p, n);
      assert runs[1..][1..] == runs[2..];
    }
    if b.start > p + n {
      assert r[1..] == runs;
    } else if End(b) == p && |runs| > 1 && p + n == runs[1].start {
      assert r[1..] == runs[2..];
    } else {
      assert r[1..] == runs[1..];
    }
  }

  // Freeing pages that are not free adds exactly them and keeps the canonical form.
  lemma {:induction false} FreeKeeps(runs: seq<Run>, p: nat, n: nat)
    requires Canonical(runs) && n > 0 && NoneFree(runs, p, n)
    ensures var r := FreeSpec(runs, p, n);
      && Canonical(r) && r != [] && r[0].start == (if runs == [] || p < runs[0].start then p else runs[0].start)
      && (forall x: nat :: FreeAt(r, x) <==> FreeAt(runs, x) || p <= x < p + n)
    decreases |runs|
  {
    var r := FreeSpec(runs, p, n);
    if runs == [] {
      assert r[1..] == [];
    } else if p <= End(runs[0]) {
      FreeHere(runs, p, n);
    } else {
      RunApart(runs, p, n);
      FreeKeeps(runs[1..], p, n);
      var r1 := FreeSpec(runs[1..], p, n);
      assert r == [runs[0]] + r1 && r[1..] == r1;
      forall x: nat
        ensures FreeAt(r, x) <==> FreeAt(runs, x) || p <= x < p + n
      {
        assert FreeAt(r1, x) <==> FreeAt(runs[1..], x) || p <= x < p + n;
      }
    }
  }

  // Freeing what was just allocated restores the identical list.
  lemma AllocThenFree(runs: seq<Run>, n: nat)
    requires Canonical(runs) && n > 0 && AllocSpec(runs, n).addr.Page?
    ensures FreeSpec(AllocSpec(runs, n).runs, AllocSpec(runs, n).addr.n, n) == runs
  {
    var o := AllocSpec(runs, n);
    AllocKeeps(runs, n);
    FreeKeeps(o.runs, o.addr.n, n);
    forall x: nat
      ensures FreeAt(FreeSpec(o.runs, o.addr.n, n), x) <==> FreeAt(runs, x)
    {
      assert FreeAt(o.runs, x) <==> FreeAt(runs, x) && !(o.addr.n <= x < o.addr.n + n);
      if o.addr.n <= x < o.addr.n + n { assert FreeAt(runs, x); }
    }
    CanonicalUnique(FreeSpec(o.runs, o.addr.n, n), runs);
  }

  // Frees commute: the list only depends on which pages are free.
  lemma FreesCommute(runs: seq<Run>, p: nat, n: nat, q: nat, m: nat)
    requires Canonical(runs) && n > 0 && m > 0 && NoneFree(runs, p, n) && NoneFree(runs, q, m)
    requires p + n <= q || q + m <= p
    ensures FreeSpec(FreeSpec(runs, p, n), q, m) == FreeSpec(FreeSpec(runs, q, m), p, n)
  {
    var a, b := FreeSpec(runs, p, n), FreeSpec(runs, q, m);
    FreeKeeps(runs, p, n);
    FreeKeeps(runs, q, m);
    FreeKeeps(a, q, m);
    FreeKeeps(b, p, n);
    forall x: nat
      ensures FreeAt(FreeSpec(a, q, m), x) <==> FreeAt(FreeSpec(b, p, n), x)
    {
      assert FreeAt(a, x) <==> FreeAt(runs, x) || p <= x < p + n;
      assert FreeAt(b, x) <==> FreeAt(runs, x) || q <= x < q + m;
    }
    CanonicalUnique(FreeSpec(a, q, m), FreeSpec(b, p, n));
  }

  // ---- runs of calls ----

  datatype Event = DoAlloc(n: nat) | DoFree(p: nat, n: nat)

  ghost predicate Enabled(runs: seq<Run>, pages: nat, e: Event) {
    e.DoFree? ==> e.n > 0 && e.p + e.n <= pages && NoneFree(runs, e.p, e.n)
  }

  ghost function Next(runs: seq<Run>, e: Event): seq<Run> {
    match e
    case DoAlloc(n) => PageAllocSpec(runs, n).runs
    case DoFree(p, n) => FreeSpec(runs, p, n)
  }

  ghost predicate StepAt(trace: seq<seq<Run>>, events: seq<Event>, k: nat, pages: nat) {
    && k < |events| && k + 1 < |trace|
    && Enabled(trace[k], pages, events[k]) && trace[k + 1] == Next(trace[k], events[k])
  }

  // A run from rt_page_init of `pages` pages.
  ghost predicate IsRun(trace: seq<seq<Run>>, events: seq<Event>, pages: nat) {
    && pages > 0 && |trace| == |events| + 1 && trace[0] == FreeSpec([], 0, pages)
    && forall k: nat :: k < |events| ==> StepAt(trace, events, k, pages)
  }

  ghost function Stretch(p: nat, n: nat): (r: set<nat>)
    ensures forall x: nat :: x in r <==> p <= x < p + n
  {
    if n == 0 then {} else Stretch(p, n - 1) + {p + n - 1}
  }

  // The pages that are free before event k, counted from the calls and their results alone.
  ghost function FreePages(trace: seq<seq<Run>>, events: seq<Event>, k: nat, pages: nat): set<nat>
    requires k <= |events| < |trace|
  {
    if k == 0 then Stretch(0, pages)
    else
      var before := FreePages(trace, events, k - 1, pages);
      match events[k - 1]
      case DoFree(p, n) => before + Stretch(p, n)
      case DoAlloc(n) =>
        var o := PageAllocSpec(trace[k - 1], n);
        if o.addr.Null? then before else before - Stretch(o.addr.n, n)
  }

  // The list is always the canonical form of the set of free pages.
  lemma {:induction false} RunIsFreeSet(trace: seq<seq<Run>>, events: seq<Event>, k: nat, pages: nat)
    requires IsRun(trace, events, pages) && k <= |events|
    ensures Canonical(trace[k])
    ensures forall x: nat :: FreeAt(trace[k], x) <==> x in FreePages(trace, events, k, pages)
  {
    if k == 0 {
      FreeKeeps([], 0, pages);
    } else {
      RunIsFreeSet(trace, events, k - 1, pages);
      assert StepAt(trace, events, k - 1, pages);
      match events[k - 1] {
        case DoAlloc(n) =>
          if n > 0 { AllocKeeps(trace[k - 1], n); }
        case DoFree(p, n) =>
          FreeKeeps(trace[k - 1], p, n);
      }
    }
  }

  // Whatever was allocated and freed in between, with all pages back the list is the initial one.
  lemma AllBackRestores(trace: seq<seq<Run>>, events: seq<Event>, k: nat, pages: nat)
    requires IsRun(trace, events, pages) && k <= |events|
    requires FreePages(trace, events, k, pages) == Stretch(0, pages)
    ensures trace[k] == [Run(0, pages)]
  {
    RunIsFreeSet(trace, events, k, pages);
    RunIsFreeSet(trace, events, 0, pages);
    forall x: nat
      ensures FreeAt(trace[k], x) <==> FreeAt(trace[0], x)
    {
    }
    CanonicalUnique(trace[k], trace[0]);
  }

  // ---- the list in memory ----

  const NIL := -1

  ghost function NodeAt(runs: seq<Run>, i: nat): int {
    if i < |runs| then runs[i].start else NIL
  }

  ghost predicate RunAt(next: seq<int>, size: seq<nat>, runs: seq<Run>, i: nat)
    requires i < |runs|
  {
    var s := runs[i].start;
    s < |next| == |size| && size[s] == runs[i].len && next[s] == NodeAt(runs, i + 1)
  }

  ghost predicate Linked(next: seq<int>, size: seq<nat>, head: int, runs: seq<Run>) {
    && |next| == |size| && head == NodeAt(runs, 0)
    && forall i: nat :: i < |runs| ==> RunAt(next, size, runs, i)
  }

  lemma {:induction false} RunOrder(runs: seq<Run>, i: nat, j: nat)
    requires Canonical(runs) && i <= j < |runs|
    ensures runs[i].len > 0 && (i < j ==> End(runs[i]) < runs[j].start)
    decreases j
  {
    if i > 0 {
      RunOrder(runs[1..], i - 1, j - 1);
    } else if j > 0 {
      RunOrder(runs[1..], 0, j - 1);
    }
  }

  lemma {:induction false} RunsAreFree(runs: seq<Run>, i: nat, x: nat)
    requires i < |runs| && Holds(runs[i], x)
    ensures FreeAt(runs, x)
    decreases i
  {
    if i > 0 {
      RunsAreFree(runs[1..], i - 1, x);
    }
  }

  // Runs i, ..., j - 1 are replaced by at most one run, and the link in front of them redirected.
  ghost predicate Spliced(next: seq<int>, size: seq<nat>, head: int, next': seq<int>, size': seq<nat>, head': int,
                          runs: seq<Run>, i: nat, j: nat, mid: seq<Run>)
    requires i <= j <= |runs|
  {
    var first := if mid == [] then NodeAt(runs, j) else mid[0].start;
    && |mid| <= 1 && |next'| == |size'| == |next|
    && (if i == 0 then head' == first
        else head' == head && runs[i - 1].start < |next'| && next'[runs[i - 1].start] == first)
    && (mid != [] ==> mid[0].start < |next'| && size'[mid[0].start] == mid[0].len && next'[mid[0].start] == NodeAt(runs, j))
    && (forall k: nat :: (k < i || j <= k < |runs|) ==> Untouched(next, size, next', size', runs[k].start, k + 1 == i))
  }

  ghost predicate Untouched(next: seq<int>, size: seq<nat>, next': seq<int>, size': seq<nat>, s: nat, redirected: bool) {
    s < |next| && s < |size| && s < |next'| && s < |size'| && size'[s] == size[s] && (!redirected ==> next'[s] == next[s])
  }

  lemma SpliceLinked(next: seq<int>, size: seq<nat>, head: int, next': seq<int>, size': seq<nat>, head': int,
                     runs: seq<Run>, i: nat, j: nat, mid: seq<Run>)
    requires i <= j <= |runs| && Linked(next, size, head, runs)
    requires Spliced(next, size, head, next', size', head', runs, i, j, mid)
    ensures Linked(next', size', head', runs[..i] + mid + runs[j..])
  {
    var r := runs[..i] + mid + runs[j..];
    forall k: nat | k < |r|
      ensures RunAt(next', size', r, k)
    {
      var k0 := if k < i then k else if k < i + |mid| then j else k - i - |mid| + j;
      if k < i || k >= i + |mid| {
        assert RunAt(next, size, runs, k0);
        assert Untouched(next, size, next', size', runs[k0].start, k0 + 1 == i);
      }
    }
  }

  lemma WalkSlices(runs: seq<Run>, i: nat)
    requires 0 < i <= |runs|
    ensures runs[1..][i - 1..] == runs[i..]
    ensures forall tail :: [runs[0]] + (runs[1..][..i - 1] + tail) == runs[..i] + tail
    ensures forall k :: 0 <= k < i - 1 ==> runs[1..][k] == runs[k + 1]
  {
    assert runs[..i] == [runs[0]] + runs[1..][..i - 1];
    forall tail: seq<Run>
      ensures [runs[0]] + (runs[1..][..i - 1] + tail) == runs[..i] + tail
    {
    }
  }

  // The rest of the walk decides what rt_page_alloc and rt_page_free do.
  lemma {:induction false} AllocWalk(runs: seq<Run>, n: nat, i: nat)
    requires i <= |runs| && forall k :: 0 <= k < i ==> runs[k].len < n
    ensures var o := AllocSpec(runs[i..], n);
      AllocSpec(runs, n) == Outcome(o.addr, runs[..i] + o.runs)
    decreases i
  {
    if i > 0 {
      WalkSlices(runs, i);
      AllocWalk(runs[1..], n, i - 1);
    } else {
      assert runs[0..] == runs;
    }
  }

  lemma {:induction false} FreeWalk(runs: seq<Run>, p: nat, n: nat, i: nat)
    requires i <= |runs| && forall k :: 0 <= k < i ==> 0 < runs[k].len && End(runs[k]) < p
    ensures FreeSpec(runs, p, n) == runs[..i] + FreeSpec(runs[i..], p, n)
    decreases i
  {
    if i > 0 {
      WalkSlices(runs, i);
      FreeWalk(runs[1..], p, n, i - 1);
    } else {
      assert runs[0..] == runs;
    }
  }

  ghost predicate Under(runs: seq<Run>, pages: nat) {
    forall x: nat :: FreeAt(runs, x) ==> x < pages
  }

  lemma AllocValid(runs: seq<Run>, n: nat, pages: nat)
    requires Canonical(runs) && Under(runs, pages) && n > 0
    ensures Canonical(AllocSpec(runs, n).runs) && Under(AllocSpec(runs, n).runs, pages)
    ensures AllocSpec(runs, n).addr.Null? ==> AllocSpec(runs, n).runs == runs
  {
    AllocKeeps(runs, n);
    forall x: nat | FreeAt(AllocSpec(runs, n).runs, x)
      ensures x < pages
    {
      assert FreeAt(runs, x);
    }
  }

  lemma CutIs(runs: seq<Run>, n: nat, i: nat)
    requires i < |runs| && 0 < n <= runs[i].len
    requires AllocSpec(runs, n).runs == runs[..i] + AllocSpec(runs[i..], n).runs
    ensures AllocSpec(runs, n).runs == runs[..i] + CutOff(runs[i], n) + runs[i + 1..]
  {
    assert runs[i..][1..] == runs[i + 1..];
  }

  ghost function CutOff(r: Run, n: nat): seq<Run> {
    if r.len > n then [Run(r.start + n, r.len - n)] else []
  }

  // When p, ..., p + n - 1 meet the list in front of run i: up to which run they join, ...
  ghost function Joined(runs: seq<Run>, p: nat, n: nat, i: nat): (j: nat)
    requires i <= |runs|
    ensures i <= j <= |runs|
  {
    if i == |runs| then i
    else if End(runs[i]) == p then if i + 1 < |runs| && p + n == runs[i + 1].start then i + 2 else i + 1
    else if runs[i].start == p + n then i + 1
    else i
  }

  // ... and into which run.
  ghost function JoinedRun(runs: seq<Run>, p: nat, n: nat, i: nat): Run
    requires i <= |runs|
  {
    if i == |runs| then Run(p, n)
    else if End(runs[i]) == p then
      Run(runs[i].start, runs[i].len + n + (if i + 1 < |runs| && p + n == runs[i + 1].start then runs[i + 1].len else 0))
    else if runs[i].start == p + n then Run(p, runs[i].len + n)
    else Run(p, n)
  }

  lemma FreeIs(runs: seq<Run>, p: nat, n: nat, i: nat)
    requires i <= |runs| && (i < |runs| ==> p <= End(runs[i]) && (End(runs[i]) == p || p + n <= runs[i].start))
    requires FreeSpec(runs, p, n) == runs[..i] + FreeSpec(runs[i..], p, n)
    ensures FreeSpec(runs, p, n) == runs[..i] + [JoinedRun(runs, p, n, i)] + runs[Joined(runs, p, n, i)..]
  {
    var rest := runs[i..];
    if i < |runs| {
      assert rest[1..] == runs[i + 1..];
      assert i + 1 < |runs| ==> rest[2..] == runs[i + 2..];
    }
  }

  ghost predicate ApartAt(runs: seq<Run>, p: nat, n: nat, i: nat)
    requires i < |runs|
  {
    runs[i].len > 0 && (End(runs[i]) <= p || p + n <= runs[i].start)
  }

  lemma {:induction false} AllApart(runs: seq<Run>, p: nat, n: nat)
    requires Canonical(runs) && n > 0 && NoneFree(runs, p, n)
    ensures forall i: nat :: i < |runs| ==> ApartAt(runs, p, n, i)
    decreases |runs|
  {
    if runs != [] {
      RunApart(runs, p, n);
      AllApart(runs[1..], p, n);
      forall i: nat | i < |runs|
        ensures ApartAt(runs, p, n, i)
      {
        assert i > 0 ==> ApartAt(runs[1..], p, n, i - 1);
      }
    }
  }

  lemma FreeValid(runs: seq<Run>, p: nat, n: nat, pages: nat)
    requires Canonical(runs) && Under(runs, pages) && n > 0 && p + n <= pages && NoneFree(runs, p, n)
    ensures Canonical(FreeSpec(runs, p, n)) && Under(FreeSpec(runs, p, n), pages)
  {
    FreeKeeps(runs, p, n);
    forall x: nat | FreeAt(FreeSpec(runs, p, n), x)
      ensures x < pages
    {
      assert FreeAt(runs, x) || p <= x < p + n;
    }
  }

  class PageAllocator {
    const next: array<int>  // rt_page_head.next, in the first page of a run
    const size: array<nat>  // rt_page_head.page
    var head: int           // rt_page_list
    ghost var runs: seq<Run>

    ghost predicate Valid()
      reads this, next, size
    {
      && next.Length == size.Length && Linked(next[..], size[..], head, runs) && Canonical(runs)
      && Under(runs, size.Length)
    }

    // rt_page_init
    constructor (pages: nat)
      requires pages > 0
      ensures Valid() && runs == [Run(0, pages)] && size.Length == pages && fresh(next) && fresh(size)
    {
      next := new int[pages](_ => NIL);
      size := new nat[pages](_ => pages);
      head := 0;
      runs := [Run(0, pages)];
      new;
      assert RunAt(next[..], size[..], runs, 0);
    }

    // rt_page_alloc
    method PageAlloc(n: nat) returns (r: Addr)
      requires Valid()
      modifies this, next, size
      ensures Valid() && Outcome(r, runs) == PageAllocSpec(old(runs), n)
    {
      if n == 0 {
        return Null;
      }
      var prev, b; ghost var i;
      prev, b, i := Find(n);
      AllocWalk(runs, n, i);
      if b == NIL {
        assert runs[..i] + [] == runs;
        return Null;
      }
      CutRun(prev, b, n, i);
      return Page(b);
    }

    // The walk of rt_page_alloc to the first run that is large enough.
    method Find(n: nat) returns (prev: int, b: int, ghost i: nat)
      requires Valid()
      ensures i <= |runs| && b == NodeAt(runs, i) && prev == (if i == 0 then NIL else runs[i - 1].start)
      ensures i < |runs| ==> b < size.Length && size[b] == runs[i].len >= n
      ensures forall k :: 0 <= k < i ==> runs[k].len < n
    {
      prev, b, i := NIL, head, 0;
      assert runs != [] ==> RunAt(next[..], size[..], runs, 0);
      while b != NIL && size[b] < n
        invariant i <= |runs| && b == NodeAt(runs, i) && prev == (if i == 0 then NIL else runs[i - 1].start)
        invariant i < |runs| ==> b < size.Length && size[b] == runs[i].len && next[b] == NodeAt(runs, i + 1)
        invariant forall k :: 0 <= k < i ==> runs[k].len < n
        decreases |runs| - i
      {
        assert i + 1 < |runs| ==> RunAt(next[..], size[..], runs, i + 1);
        prev := b;
        b := next[b];
        i := i + 1;
      }
    }

    // The run found at b gives up its first n pages, or leaves the list.
    method CutRun(prev: int, b: nat, n: nat, ghost i: nat)
      requires Valid() && i < |runs| && b == runs[i].start && 0 < n <= runs[i].len && b < size.Length
      requires prev == (if i == 0 then NIL else runs[i - 1].start) && size[b] == runs[i].len
      requires AllocSpec(runs, n) == Outcome(Page(b), runs[..i] + AllocSpec(runs[i..], n).runs)
      modifies this, next, size
      ensures Valid() && runs == AllocSpec(old(runs), n).runs
    {
      AllocValid(runs, n, size.Length);
      ghost var next0, size0, head0, r := next[..], size[..], head, AllocSpec(runs, n).runs;
      ghost var mid := WriteCut(prev, b, n, i);
      SpliceLinked(next0, size0, head0, next[..], size[..], head, runs, i, i + 1, mid);
      CutIs(runs, n, i);
      runs := r;
    }

    method WriteCut(prev: int, b: nat, n: nat, ghost i: nat) returns (ghost mid: seq<Run>)
      requires Valid() && i < |runs| && b == runs[i].start && 0 < n <= runs[i].len && b < size.Length
      requires prev == (if i == 0 then NIL else runs[i - 1].start) && size[b] == runs[i].len
      modifies `head, next, size
      ensures mid == CutOff(runs[i], n)
      ensures Spliced(old(next[..]), old(size[..]), old(head), next[..], size[..], head, runs, i, i + 1, mid)
    {
      ghost var next0, size0 := next[..], size[..];
      mid := CutOff(runs[i], n);
      assert RunAt(next0, size0, runs, i);
      StartsApart(runs, i);
      RunsAreFree(runs, i, End(runs[i]) - 1);
      if size[b] > n {
        next[b + n] := next[b];
        size[b + n] := size[b] - n;
        SetLink(prev, b + n);
      } else {
        SetLink(prev, next[b]);
      }
      forall k: nat | k < i || i + 1 <= k < |runs|
        ensures Untouched(next0, size0, next[..], size[..], runs[k].start, k + 1 == i)
      {
        assert RunAt(next0, size0, runs, k);
        StartApart(runs, i, k);
        if i > 0 && k + 1 != i { StartApart(runs, i - 1, k); }
      }
    }

    // rt_page_free
    method PageFree(p: nat, n: nat)
      requires Valid() && n > 0 && p + n <= size.Length && NoneFree(runs, p, n)
      modifies this, next, size
      ensures Valid() && runs == FreeSpec(old(runs), p, n)
    {
      FreeValid(runs, p, n, size.Length);
      var prev, b; ghost var i;
      prev, b, i := FindPlace(p, n);
      FreeWalk(runs, p, n, i);
      ghost var next0, size0, head0, r := next[..], size[..], head, FreeSpec(runs, p, n);
      ghost var j, mid := Joined(runs, p, n, i), [JoinedRun(runs, p, n, i)];
      FreeIs(runs, p, n, i);
      if b != NIL && b + size[b] == p {
        Extend(b, n, p, i);
      } else {
        Place(prev, b, p, n, i);
      }
      SpliceLinked(next0, size0, head0, next[..], size[..], head, runs, i, j, mid);
      runs := r;
    }

    // The walk of rt_page_free to the run the pages touch, or the first one behind them.
    method FindPlace(p: nat, n: nat) returns (prev: int, b: int, ghost i: nat)
      requires Valid() && n > 0 && NoneFree(runs, p, n)
      ensures i <= |runs| && b == NodeAt(runs, i) && prev == (if i == 0 then NIL else runs[i - 1].start)
      ensures i < |runs| ==> b < size.Length && size[b] == runs[i].len && next[b] == NodeAt(runs, i + 1)
      ensures i < |runs| ==> p <= End(runs[i]) && (End(runs[i]) == p || p + n <= runs[i].start)
      ensures forall k :: 0 <= k < i ==> 0 < runs[k].len && End(runs[k]) < p
    {
      prev, b, i := NIL, head, 0;
      assert runs != [] ==> RunAt(next[..], size[..], runs, 0);
      AllApart(runs, p, n);
      while b != NIL && b + size[b] != p && b != p + n && b <= p + n
        invariant i <= |runs| && b == NodeAt(runs, i) && prev == (if i == 0 then NIL else runs[i - 1].start)
        invariant i < |runs| ==> b < size.Length && size[b] == runs[i].len && next[b] == NodeAt(runs, i + 1)
        invariant forall k :: 0 <= k < i ==> 0 < runs[k].len && End(runs[k]) < p
        decreases |runs| - i
      {
        assert i + 1 < |runs| ==> RunAt(next[..], size[..], runs, i + 1);
        assert ApartAt(runs, p, n, i);
        prev := b;
        b := next[b];
        i := i + 1;
      }
      assert i < |runs| ==> ApartAt(runs, p, n, i);
    }

    // b->page += npages, and the run behind is swallowed if they now touch.
    method Extend(b: nat, n: nat, p: nat, ghost i: nat)
      requires Valid() && i < |runs| && b == runs[i].start && b < size.Length && size[b] == runs[i].len
      requires next[b] == NodeAt(runs, i + 1) && End(runs[i]) == p && n > 0
      modifies next, size
      ensures Spliced(old(next[..]), old(size[..]), head, next[..], size[..], head,
                      runs, i, Joined(runs, p, n, i), [JoinedRun(runs, p, n, i)])
    {
      ghost var next0, size0 := next[..], size[..];
      assert i > 0 ==> RunAt(next0, size0, runs, i - 1);
      assert i + 1 < |runs| ==> RunAt(next0, size0, runs, i + 1);
      StartsApart(runs, i);
      if i + 1 < |runs| { StartsApart(runs, i + 1); }
      size[b] := size[b] + n;
      if b + size[b] == next[b] {
        size[b] := size[b] + size[next[b]];
        next[b] := next[next[b]];
      }
      forall k: nat | k < i || i + 1 <= k < |runs|
        ensures Untouched(next0, size0, next[..], size[..], runs[k].start, k + 1 == i)
      {
        assert RunAt(next0, size0, runs, k);
        StartApart(runs, i, k);
      }
    }

    // n becomes a run of its own in front of b, or takes over b.
    method Place(prev: int, b: int, p: nat, n: nat, ghost i: nat)
      requires Valid() && i <= |runs| && b == NodeAt(runs, i) && prev == (if i == 0 then NIL else runs[i - 1].start)
      requires i < |runs| ==> b < size.Length && size[b] == runs[i].len && next[b] == NodeAt(runs, i + 1)
      requires i < |runs| ==> p + n <= runs[i].start
      requires forall k :: 0 <= k < i ==> 0 < runs[k].len && End(runs[k]) < p
      requires n > 0 && p + n <= size.Length
      modifies `head, next, size
      ensures Spliced(old(next[..]), old(size[..]), old(head), next[..], size[..], head,
                      runs, i, Joined(runs, p, n, i), [JoinedRun(runs, p, n, i)])
    {
      ghost var next0, size0 := next[..], size[..];
      assert i > 0 ==> RunAt(next0, size0, runs, i - 1);
      if b == p + n {
        size[p] := size[b] + n;
        next[p] := next[b];
      } else {
        size[p] := n;
        next[p] := b;
      }
      SetLink(prev, p);
      forall k: nat | k < i || i <= k < |runs|
        ensures Untouched(next0, size0, next[..], size[..], runs[k].start, k + 1 == i)
      {
        assert RunAt(next0, size0, runs, k);
        if k >= i { RunOrder(runs, i, k); }
        if i > 0 && k + 1 != i { StartApart(runs, i - 1, k); }
      }
    }

    // *prev = b
    method SetLink(prev: int, b: int)
      requires NIL <= prev < next.Length
      modifies `head, next
      ensures prev == NIL ==> head == b && next[..] == old(next[..])
      ensures prev != NIL ==> head == old(head) && next[..] == old(next[..])[prev := b]
    {
      if prev == NIL {
        head := b;
      } else {
        next[prev] := b;
      }
    }
  }

  // A page of run i, or any page that is not free, is not the start of another run.
  lemma StartApart(runs: seq<Run>, i: nat, k: nat)
    requires Canonical(runs) && i < |runs| && k < |runs| && k != i
    ensures runs[k].start < runs[i].start || End(runs[i]) < runs[k].start
  {
    RunOrder(runs, i, i);
    RunOrder(runs, k, k);
    if k < i { RunOrder(runs, k, i); } else { RunOrder(runs, i, k); }
  }

  lemma StartsApart(runs: seq<Run>, i: nat)
    requires Canonical(runs) && i < |runs|
    ensures runs[i].len > 0
    ensures i > 0 ==> runs[i - 1].start < runs[i].start
  {
    RunOrder(runs, i, i);
    if i > 0 { RunOrder(runs, i - 1, i); RunOrder(runs, i - 1, i - 1); }
  }
}
