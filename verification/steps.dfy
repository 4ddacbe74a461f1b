/** The step driver of summon.go.

    A `Step` pairs a forward action `Do` with an optional cleanup `Defer`. The
    driver `run` walks the steps in order, stops at the first `Do` that fails,
    and defers `LoggedDefer` for every step whose `Do` succeeded; Go runs the
    deferred calls when the closure returns, last registered first, and
    `LoggedDefer` prints a cleanup error instead of returning it.

    The external commands behind each `Do` and `Defer` are not modelled: each
    call is an `Action` that carries the outcome it returns. `run` is then a
    pure function from steps to the trace of calls it makes and the error it
    returns. It is written twice: once the way the Go code computes it (a loop
    that pushes onto a defer stack, then the unwinding of that stack), once
    declaratively (the first failing step, the registered cleanups), and the two
    are proved equal.
 */
module Steps {
  import opened Outcomes

  /** The two channels `run` creates: `kill` goes to every `Do`, `deferKill` to
      every cleanup. Only `kill` is ever closed. */
  datatype Channel = Kill | DeferKill

  /** One `Do` or `Defer` func: a name for it and the error it returns. */
  datatype Action = Action(name: string, outcome: Outcome)

  /** Every step the program builds sets `Do`; `Defer` may be nil. */
  datatype Step = Step(do: Action, defer: Option<Action>)

  /** What can be observed of a run: which funcs were called, with which
      channel, and which cleanup errors were printed. */
  datatype Event =
    | DoRan(index: nat, signal: Channel)
    | DeferRan(index: nat, signal: Channel)
    | Logged(index: nat, error: Error)

  datatype Run = Run(trace: seq<Event>, result: Outcome)

  /** `Step.LoggedDefer` for the step at `index`: nothing for a nil `Defer`,
      otherwise the call, followed by the printed error when it fails. It
      returns no error to its caller in any case. */
  function LoggedDefer(s: Step, index: nat, signal: Channel): (r: seq<Event>)
    ensures |r| <= 2
    ensures forall e :: e in r ==> !e.DoRan?
    ensures DeferRan(index, signal) in r <==> s.defer.Some?
    ensures forall e :: e in r && e.DeferRan? ==> e == DeferRan(index, signal)
    ensures forall err :: Logged(index, err) in r <==> s.defer.Some? && s.defer.value.outcome == Fail(err)
    ensures forall e :: e in r && e.Logged? ==> e.index == index
    ensures s.defer.Some? ==>
      && |r| == (if s.defer.value.outcome.Ok? then 1 else 2)
      && r[0] == DeferRan(index, signal)
  {
    match s.defer
    case None => []
    case Some(cleanup) =>
      match cleanup.outcome
      case Ok => [DeferRan(index, signal)]
      case Fail(err) => [DeferRan(index, signal), Logged(index, err)]
  }

  // ---------------------------------------------------------------------------
  // run, as the Go code computes it
  // ---------------------------------------------------------------------------

  /** The state of the closure's loop when it returns: the `Do` calls made, the
      error it returns, and the stack of deferred `LoggedDefer` calls (by step
      index, oldest first). */
  datatype Forward = Forward(events: seq<Event>, result: Outcome, deferred: seq<nat>)

  predicate Indexes(deferred: seq<nat>, n: nat) {
    forall k :: 0 <= k < |deferred| ==> deferred[k] < n
  }

  /** The `for` loop from step `i` on, with `deferred` already on the stack.
      Go defers `LoggedDefer` after every `Do` that succeeded, whether or not
      that step has a `Defer`; the nil check happens when it runs. */
  function Loop(steps: seq<Step>, i: nat, deferred: seq<nat>): (f: Forward)
    requires i <= |steps|
    requires Indexes(deferred, |steps|)
    ensures Indexes(f.deferred, |steps|)
    ensures |deferred| <= |f.deferred| && f.deferred[..|deferred|] == deferred
    decreases |steps| - i
  {
    if i == |steps| then Forward([], Ok, deferred)
    else
      match steps[i].do.outcome
      case Fail(err) => Forward([DoRan(i, Kill)], Fail(err), deferred)
      case Ok =>
        var rest := Loop(steps, i + 1, deferred + [i]);
        assert rest.deferred[..|deferred|] == (deferred + [i])[..|deferred|];
        Forward([DoRan(i, Kill)] + rest.events, rest.result, rest.deferred)
  }

  /** Go's unwinding of the defer stack when the closure returns: the most
      recently deferred call runs first, and each gets `deferKill`. */
  function Unwind(steps: seq<Step>, deferred: seq<nat>): seq<Event>
    requires Indexes(deferred, |steps|)
    decreases |deferred|
  {
    if |deferred| == 0 then []
    else
      var j := deferred[|deferred| - 1];
      LoggedDefer(steps[j], j, DeferKill) + Unwind(steps, deferred[..|deferred| - 1])
  }

  /** The closure inside `run` (summon.go:127-135): the loop, then the deferred
      cleanups, and the loop's error as the result. */
  function RunSteps(steps: seq<Step>): Run
  {
    var f := Loop(steps, 0, []);
    Run(f.events + Unwind(steps, f.deferred), f.result)
  }

  // ---------------------------------------------------------------------------
  // run, stated declaratively
  // ---------------------------------------------------------------------------

  function FirstFailureFrom(steps: seq<Step>, i: nat): (k: nat)
    requires i <= |steps|
    ensures i <= k <= |steps|
    ensures forall j :: i <= j < k ==> steps[j].do.outcome.Ok?
    ensures k < |steps| ==> steps[k].do.outcome.Fail?
    decreases |steps| - i
  {
    if i == |steps| || steps[i].do.outcome.Fail? then i else FirstFailureFrom(steps, i + 1)
  }

  /** The index of the first step whose `Do` fails, or the number of steps
      when none does. */
  function FirstFailure(steps: seq<Step>): (k: nat)
    ensures k <= |steps|
    ensures forall j :: 0 <= j < k ==> steps[j].do.outcome.Ok?
    ensures k < |steps| ==> steps[k].do.outcome.Fail?
  {
    FirstFailureFrom(steps, 0)
  }

  /** How many `Do`s are called: all up to and including the first failing one. */
  function Attempted(steps: seq<Step>): nat
  {
    var k := FirstFailure(steps);
    if k < |steps| then k + 1 else k
  }

  /** The error the driver is expected to return: the first `Do` error, or nil. */
  function FirstError(steps: seq<Step>): Outcome
  {
    var k := FirstFailure(steps);
    if k < |steps| then steps[k].do.outcome else Ok
  }

  function Range(a: nat, b: nat): (r: seq<nat>)
    requires a <= b
    ensures |r| == b - a
    ensures forall j :: 0 <= j < |r| ==> r[j] == a + j
  {
    seq(b - a, j requires 0 <= j < b - a => a + j)
  }

  function DoEvents(a: nat, b: nat): (r: seq<Event>)
    requires a <= b
    ensures |r| == b - a
    ensures forall j :: 0 <= j < |r| ==> r[j] == DoRan(a + j, Kill)
    ensures forall e :: e in r ==> e.DoRan? && e.signal == Kill
  {
    seq(b - a, j requires 0 <= j < b - a => DoRan(a + j, Kill))
  }

  /** The steps among the first `k` that have a cleanup, in list order. */
  function Registered(steps: seq<Step>, k: nat): seq<nat>
    requires k <= |steps|
  {
    if k == 0 then []
    else Registered(steps, k - 1) + (if steps[k - 1].defer.Some? then [k - 1] else [])
  }

  /** Exactly the steps below `k` with a cleanup are registered, each once, in
      increasing order. */
  lemma {:induction false} RegisteredSteps(steps: seq<Step>, k: nat)
    requires k <= |steps|
    ensures forall j: nat :: j in Registered(steps, k) <==> j < k && steps[j].defer.Some?
    ensures forall a, b :: 0 <= a < b < |Registered(steps, k)| ==> Registered(steps, k)[a] < Registered(steps, k)[b]
  {
    if k > 0 {
      RegisteredSteps(steps, k - 1);
      var before := Registered(steps, k - 1);
      var r := before + (if steps[k - 1].defer.Some? then [k - 1] else []);
      assert Registered(steps, k) == r;
      forall a, b | 0 <= a < b < |r|
        ensures r[a] < r[b]
      {
        if b >= |before| {
          assert r[b] == k - 1;
          assert r[a] == before[a] && before[a] in before;
          assert before[a] < k - 1;
        } else {
          assert r[a] == before[a] && r[b] == before[b];
        }
      }
    }
  }

  /** The cleanups of the first `k` steps, the step before `k` first. */
  function Cleanups(steps: seq<Step>, k: nat): seq<Event>
    requires k <= |steps|
  {
    if k == 0 then [] else LoggedDefer(steps[k - 1], k - 1, DeferKill) + Cleanups(steps, k - 1)
  }

  /** The cleanup phase calls no `Do`, hands every cleanup `deferKill`, and
      prints exactly the errors of the failing registered cleanups. */
  lemma {:induction false} CleanupsEvents(steps: seq<Step>, k: nat)
    requires k <= |steps|
    ensures forall e :: e in Cleanups(steps, k) ==> !e.DoRan?
    ensures forall e :: e in Cleanups(steps, k) && e.DeferRan? ==> e.signal == DeferKill
    ensures forall j: nat, err :: Logged(j, err) in Cleanups(steps, k) <==>
      j < k && steps[j].defer.Some? && steps[j].defer.value.outcome == Fail(err)
  {
    if k > 0 {
      CleanupsEvents(steps, k - 1);
      var here := LoggedDefer(steps[k - 1], k - 1, DeferKill);
      var rest := Cleanups(steps, k - 1);
      assert forall e :: e in here + rest <==> e in here || e in rest;
    }
  }

  /** The whole observable behaviour of `run`, stated without a defer stack. */
  function SpecRun(steps: seq<Step>): Run
  {
    Run(DoEvents(0, Attempted(steps)) + Cleanups(steps, FirstFailure(steps)), FirstError(steps))
  }

  lemma {:induction false} LoopMatchesSpec(steps: seq<Step>, i: nat, deferred: seq<nat>)
    requires i <= FirstFailure(steps)
    requires Indexes(deferred, |steps|)
    ensures Loop(steps, i, deferred) ==
      Forward(DoEvents(i, Attempted(steps)), FirstError(steps), deferred + Range(i, FirstFailure(steps)))
    decreases |steps| - i
  {
    var k := FirstFailure(steps);
    if i == |steps| {
      assert deferred + Range(i, k) == deferred;
    } else if steps[i].do.outcome.Fail? {
      assert i == k;
      assert deferred + Range(i, k) == deferred;
      assert DoEvents(i, Attempted(steps)) == [DoRan(i, Kill)];
    } else {
      assert i < k;
      LoopMatchesSpec(steps, i + 1, deferred + [i]);
      assert [DoRan(i, Kill)] + DoEvents(i + 1, Attempted(steps)) == DoEvents(i, Attempted(steps));
      assert deferred + [i] + Range(i + 1, k) == deferred + Range(i, k);
    }
  }

  lemma {:induction false} UnwindMatchesCleanups(steps: seq<Step>, k: nat)
    requires k <= |steps|
    ensures Unwind(steps, Range(0, k)) == Cleanups(steps, k)
  {
    if k > 0 {
      assert Range(0, k)[..k - 1] == Range(0, k - 1);
      UnwindMatchesCleanups(steps, k - 1);
    }
  }

  /** The defer-stack implementation of `run` has exactly the declarative
      behaviour. */
  lemma RunStepsMatchesSpec(steps: seq<Step>)
    ensures RunSteps(steps) == SpecRun(steps)
  {
    LoopMatchesSpec(steps, 0, []);
    assert [] + Range(0, FirstFailure(steps)) == Range(0, FirstFailure(steps));
    UnwindMatchesCleanups(steps, FirstFailure(steps));
  }

  // ---------------------------------------------------------------------------
  // Projections of a trace
  // ---------------------------------------------------------------------------

  /** The step indices of the `Do` calls, in the order they were made. */
  function DoIndices(t: seq<Event>): seq<nat>
  {
    if |t| == 0 then [] else (if t[0].DoRan? then [t[0].index] else []) + DoIndices(t[1..])
  }

  /** The step indices of the `Defer` calls, in the order they were made. */
  function DeferIndices(t: seq<Event>): seq<nat>
  {
    if |t| == 0 then [] else (if t[0].DeferRan? then [t[0].index] else []) + DeferIndices(t[1..])
  }

  function Reverse<T>(s: seq<T>): (r: seq<T>)
    ensures |r| == |s|
    ensures forall i :: 0 <= i < |s| ==> r[i] == s[|s| - 1 - i]
  {
    if |s| == 0 then [] else Reverse(s[1..]) + [s[0]]
  }

  lemma {:induction false} DoIndicesDistribute(a: seq<Event>, b: seq<Event>)
    ensures DoIndices(a + b) == DoIndices(a) + DoIndices(b)
  {
    if |a| == 0 {
      assert a + b == b;
    } else {
      assert (a + b)[0] == a[0];
      assert (a + b)[1..] == a[1..] + b;
      DoIndicesDistribute(a[1..], b);
    }
  }

  lemma {:induction false} DeferIndicesDistribute(a: seq<Event>, b: seq<Event>)
    ensures DeferIndices(a + b) == DeferIndices(a) + DeferIndices(b)
  {
    if |a| == 0 {
      assert a + b == b;
    } else {
      assert (a + b)[0] == a[0];
      assert (a + b)[1..] == a[1..] + b;
      DeferIndicesDistribute(a[1..], b);
    }
  }

  lemma {:induction false} DoEventsProjection(a: nat, b: nat)
    requires a <= b
    ensures DoIndices(DoEvents(a, b)) == Range(a, b)
    ensures DeferIndices(DoEvents(a, b)) == []
    decreases b - a
  {
    if a < b {
      assert DoEvents(a, b)[1..] == DoEvents(a + 1, b);
      DoEventsProjection(a + 1, b);
    }
  }

  lemma LoggedDeferProjection(s: Step, index: nat, signal: Channel)
    ensures DoIndices(LoggedDefer(s, index, signal)) == []
    ensures DeferIndices(LoggedDefer(s, index, signal)) == if s.defer.Some? then [index] else []
  {
    match s.defer
    case None =>
    case Some(cleanup) =>
      var r := LoggedDefer(s, index, signal);
      if cleanup.outcome.Ok? {
        assert r == [DeferRan(index, signal)];
        assert r[1..] == [];
      } else {
        var tail := [Logged(index, cleanup.outcome.error)];
        assert r == [DeferRan(index, signal)] + tail;
        assert r[1..] == tail;
        assert tail[1..] == [];
        assert DoIndices(tail) == [] + DoIndices(tail[1..]);
        assert DeferIndices(tail) == [] + DeferIndices(tail[1..]);
      }
  }

  lemma ReverseSnoc<T>(s: seq<T>, x: T)
    ensures Reverse(s + [x]) == [x] + Reverse(s)
  {
  }

  lemma ReverseAppendShort<T>(s: seq<T>, x: seq<T>)
    requires |x| <= 1
    ensures Reverse(s + x) == x + Reverse(s)
  {
    if |x| == 0 {
      assert s + x == s;
      assert x + Reverse(s) == Reverse(s);
    } else {
      assert x == [x[0]];
      ReverseSnoc(s, x[0]);
    }
  }

  lemma CleanupsCallNoDo(steps: seq<Step>, k: nat)
    requires k <= |steps|
    ensures DoIndices(Cleanups(steps, k)) == []
  {
    CleanupsEvents(steps, k);
    NoDoRanNoIndices(Cleanups(steps, k));
  }

  /** A trace without `Do` events projects to no `Do` indices. */
  lemma {:induction false} NoDoRanNoIndices(t: seq<Event>)
    requires forall e :: e in t ==> !e.DoRan?
    ensures DoIndices(t) == []
  {
    if |t| > 0 {
      assert t[0] in t;
      assert forall e :: e in t[1..] ==> e in t;
      NoDoRanNoIndices(t[1..]);
    }
  }

  lemma {:induction false} CleanupsProjection(steps: seq<Step>, k: nat)
    requires k <= |steps|
    ensures DeferIndices(Cleanups(steps, k)) == Reverse(Registered(steps, k))
  {
    if k > 0 {
      var before := Registered(steps, k - 1);
      var x := if steps[k - 1].defer.Some? then [k - 1] else [];
      CleanupsProjection(steps, k - 1);
      CleanupsProjectionStep(steps, k);
      PrependReversed(DeferIndices(Cleanups(steps, k)), DeferIndices(Cleanups(steps, k - 1)), before, x);
      assert Registered(steps, k) == before + x;
    }
  }

  /** Putting the newest registration in front of the reversed older ones
      reverses the whole registration list. */
  lemma PrependReversed(a: seq<nat>, b: seq<nat>, before: seq<nat>, x: seq<nat>)
    requires |x| <= 1 && a == x + b && b == Reverse(before)
    ensures a == Reverse(before + x)
  {
    ReverseAppendShort(before, x);
  }

  /** Unwinding one more step puts its cleanup, if it has one, in front. */
  lemma CleanupsProjectionStep(steps: seq<Step>, k: nat)
    requires 0 < k <= |steps|
    ensures DeferIndices(Cleanups(steps, k)) ==
      (if steps[k - 1].defer.Some? then [k - 1] else []) + DeferIndices(Cleanups(steps, k - 1))
  {
    var here := LoggedDefer(steps[k - 1], k - 1, DeferKill);
    var rest := Cleanups(steps, k - 1);
    assert Cleanups(steps, k) == here + rest;
    LoggedDeferProjection(steps[k - 1], k - 1, DeferKill);
    ProjectConcat(Cleanups(steps, k), here, rest, if steps[k - 1].defer.Some? then [k - 1] else []);
  }

  /** The `Defer` projection of a concatenation, with the head's projection known. */
  lemma ProjectConcat(t: seq<Event>, here: seq<Event>, rest: seq<Event>, x: seq<nat>)
    requires t == here + rest && DeferIndices(here) == x
    ensures DeferIndices(t) == x + DeferIndices(rest)
  {
    DeferIndicesDistribute(here, rest);
  }

  lemma TraceProjections(steps: seq<Step>)
    ensures DoIndices(RunSteps(steps).trace) == Range(0, Attempted(steps))
    ensures DeferIndices(RunSteps(steps).trace) == Reverse(Registered(steps, FirstFailure(steps)))
  {
    RunStepsMatchesSpec(steps);
    var k := FirstFailure(steps);
    DoIndicesDistribute(DoEvents(0, Attempted(steps)), Cleanups(steps, k));
    DeferIndicesDistribute(DoEvents(0, Attempted(steps)), Cleanups(steps, k));
    DoEventsProjection(0, Attempted(steps));
    CleanupsCallNoDo(steps, k);
    CleanupsProjection(steps, k);
  }

  // ---------------------------------------------------------------------------
  // Properties of run
  // ---------------------------------------------------------------------------

  /** `Do`s are called in list order, each at most once, up to and including the
      first that fails; no later step's `Do` is called. */
  lemma DosRunInOrderUntilFirstFailure(steps: seq<Step>)
    ensures DoIndices(RunSteps(steps).trace) == Range(0, Attempted(steps))
    ensures forall j: nat :: j in DoIndices(RunSteps(steps).trace) <==>
      j < |steps| && forall i :: 0 <= i < j ==> steps[i].do.outcome.Ok?
  {
    TraceProjections(steps);
    var d := DoIndices(RunSteps(steps).trace);
    var k := FirstFailure(steps);
    forall j: nat
      ensures j in d <==> j < |steps| && forall i :: 0 <= i < j ==> steps[i].do.outcome.Ok?
    {
      if j in d {
        var p :| 0 <= p < |d| && d[p] == j;
        assert j < Attempted(steps);
      }
      if j < |steps| && forall i :: 0 <= i < j ==> steps[i].do.outcome.Ok? {
        assert k < |steps| ==> steps[k].do.outcome.Fail?;
        assert j <= k;
        assert j < Attempted(steps);
        assert d[j] == j;
      }
    }
  }

  /** The driver returns exactly the first `Do` error, or nil when every `Do`
      succeeded; no cleanup error can replace or hide it. */
  lemma ResultIsFirstDoError(steps: seq<Step>)
    ensures RunSteps(steps).result.Ok? <==> forall j :: 0 <= j < |steps| ==> steps[j].do.outcome.Ok?
    ensures RunSteps(steps).result.Fail? ==>
      exists k :: 0 <= k < |steps| && steps[k].do.outcome == RunSteps(steps).result
        && forall j :: 0 <= j < k ==> steps[j].do.outcome.Ok?
  {
    RunStepsMatchesSpec(steps);
  }

  /** A cleanup runs exactly for the steps whose own `Do` succeeded before the
      first failure and that have a `Defer` (never for the failing step), each
      exactly once, newest first, all of them with `deferKill`. */
  lemma CleanupsRunOnceInReverse(steps: seq<Step>)
    ensures forall j: nat :: j in DeferIndices(RunSteps(steps).trace) <==>
      j < FirstFailure(steps) && steps[j].defer.Some?
    ensures FirstFailure(steps) < |steps| ==> FirstFailure(steps) !in DeferIndices(RunSteps(steps).trace)
    ensures var d := DeferIndices(RunSteps(steps).trace);
      forall a, b :: 0 <= a < b < |d| ==> d[a] > d[b]
    ensures forall e :: e in RunSteps(steps).trace && e.DeferRan? ==> e.signal == DeferKill
  {
    var k := FirstFailure(steps);
    TraceProjections(steps);
    RegisteredSteps(steps, k);
    ReverseMembers(Registered(steps, k));
    ReverseDecreasing(Registered(steps, k));
    CleanupsGetDeferKill(steps);
  }

  lemma ReverseMembers<T>(r: seq<T>)
    ensures forall x :: x in Reverse(r) <==> x in r
  {
    var d := Reverse(r);
    forall x
      ensures x in d <==> x in r
    {
      if x in d {
        var p :| 0 <= p < |d| && d[p] == x;
        assert r[|r| - 1 - p] == x;
      }
      if x in r {
        var p :| 0 <= p < |r| && r[p] == x;
        assert d[|r| - 1 - p] == x;
      }
    }
  }

  lemma ReverseDecreasing(r: seq<nat>)
    requires forall a, b :: 0 <= a < b < |r| ==> r[a] < r[b]
    ensures var d := Reverse(r); forall a, b :: 0 <= a < b < |d| ==> d[a] > d[b]
  {
    var d := Reverse(r);
    forall a, b | 0 <= a < b < |d|
      ensures d[a] > d[b]
    {
      assert d[a] == r[|r| - 1 - a] && d[b] == r[|r| - 1 - b];
    }
  }

  lemma CleanupsGetDeferKill(steps: seq<Step>)
    ensures forall e :: e in RunSteps(steps).trace && e.DeferRan? ==> e.signal == DeferKill
  {
    RunStepsMatchesSpec(steps);
    CleanupsEvents(steps, FirstFailure(steps));
    var t := RunSteps(steps).trace;
    assert t == DoEvents(0, Attempted(steps)) + Cleanups(steps, FirstFailure(steps));
  }


  /** The trace is the forward phase followed by the cleanup phase: every `Do`
      call (with `kill`) comes before every cleanup call. */
  lemma ForwardPhaseThenCleanup(steps: seq<Step>)
    ensures var t := RunSteps(steps).trace;
      forall i :: 0 <= i < |t| ==> (t[i].DoRan? <==> i < Attempted(steps))
    ensures var t := RunSteps(steps).trace;
      forall i :: 0 <= i < |t| && t[i].DoRan? ==> t[i].signal == Kill
  {
    RunStepsMatchesSpec(steps);
    var doPart := DoEvents(0, Attempted(steps));
    var t := RunSteps(steps).trace;
    var rest := Cleanups(steps, FirstFailure(steps));
    CleanupsEvents(steps, FirstFailure(steps));
    assert t == doPart + rest;
    forall i | 0 <= i < |t|
      ensures t[i].DoRan? <==> i < Attempted(steps)
    {
      if i >= |doPart| {
        assert t[i] == rest[i - |doPart|];
        assert t[i] in rest;
      }
    }
  }

  /** A cleanup error is printed, never returned: exactly the failing cleanups
      of registered steps are logged. */
  lemma CleanupErrorsAreOnlyLogged(steps: seq<Step>)
    ensures forall j: nat, err :: Logged(j, err) in RunSteps(steps).trace <==>
      j < FirstFailure(steps) && steps[j].defer.Some? && steps[j].defer.value.outcome == Fail(err)
  {
    RunStepsMatchesSpec(steps);
    var doPart := DoEvents(0, Attempted(steps));
    var rest := Cleanups(steps, FirstFailure(steps));
    CleanupsEvents(steps, FirstFailure(steps));
    assert RunSteps(steps).trace == doPart + rest;
  }

  /** Two step lists that agree on every `Do` outcome and on which steps have a
      cleanup behave alike whatever their cleanups return: a failing cleanup
      neither changes the error nor stops the cleanups after it. */
  lemma CleanupOutcomesNeverMatter(s1: seq<Step>, s2: seq<Step>)
    requires |s1| == |s2|
    requires forall j :: 0 <= j < |s1| ==> s1[j].do == s2[j].do && s1[j].defer.Some? == s2[j].defer.Some?
    ensures RunSteps(s1).result == RunSteps(s2).result
    ensures DoIndices(RunSteps(s1).trace) == DoIndices(RunSteps(s2).trace)
    ensures DeferIndices(RunSteps(s1).trace) == DeferIndices(RunSteps(s2).trace)
  {
    SameFirstFailure(s1, s2, 0);
    var k1 := FirstFailure(s1);
    RunStepsMatchesSpec(s1);
    RunStepsMatchesSpec(s2);
    TraceProjections(s1);
    TraceProjections(s2);
    SameRegistered(s1, s2, k1);
  }

  lemma {:induction false} SameFirstFailure(s1: seq<Step>, s2: seq<Step>, i: nat)
    requires i <= |s1| == |s2|
    requires forall j :: 0 <= j < |s1| ==> s1[j].do == s2[j].do
    ensures FirstFailureFrom(s1, i) == FirstFailureFrom(s2, i)
    decreases |s1| - i
  {
    if i < |s1| && s1[i].do.outcome.Ok? {
      SameFirstFailure(s1, s2, i + 1);
    }
  }

  lemma {:induction false} SameRegistered(s1: seq<Step>, s2: seq<Step>, k: nat)
    requires k <= |s1| == |s2|
    requires forall j :: 0 <= j < |s1| ==> s1[j].defer.Some? == s2[j].defer.Some?
    ensures Registered(s1, k) == Registered(s2, k)
  {
    if k > 0 {
      SameRegistered(s1, s2, k - 1);
    }
  }

  // ---------------------------------------------------------------------------
  // The interrupt, and exec's prefix
  // ---------------------------------------------------------------------------

  /** What `run` returns and which channels it has closed. */
  datatype Finished = Finished(result: Outcome, closed: set<Channel>)

  /** `run`'s select (summon.go:138-146): on SIGINT it closes `kill` and still
      waits for the closure; otherwise it returns the closure's error. The
      `Do` outcomes already reflect any command the closed channel killed. */
  function RunWithSignal(steps: seq<Step>, interrupted: bool): (r: Finished)
    ensures r.result == RunSteps(steps).result
    ensures Kill in r.closed <==> interrupted
    ensures DeferKill !in r.closed
  {
    Finished(RunSteps(steps).result, if interrupted then {Kill} else {})
  }

  /** Cancellation reaches `Do`s only: no cleanup is ever handed a closed
      channel, interrupted or not. */
  lemma CancellationNeverReachesCleanup(steps: seq<Step>, interrupted: bool)
    ensures forall e :: e in RunSteps(steps).trace && e.DeferRan? ==>
      e.signal !in RunWithSignal(steps, interrupted).closed
    ensures interrupted ==> Kill in RunWithSignal(steps, interrupted).closed
  {
    CleanupsRunOnceInReverse(steps);
  }

  /** The outcomes of the six mount-related funcs `exec` wires in. */
  datatype MountOutcomes = MountOutcomes(
    luksOpen: Outcome, luksClose: Outcome,
    rootMount: Outcome, rootUmount: Outcome,
    efiMount: Outcome, efiUmount: Outcome)

  /** summon.go `exec`: open the root LUKS device, mount the root, mount the
      EFI partition, then the caller's steps. */
  function ExecSteps(o: MountOutcomes, steps: seq<Step>): (r: seq<Step>)
    ensures |r| == |steps| + 3 && r[3..] == steps
    ensures forall j :: 0 <= j < 3 ==> r[j].defer.Some?
    ensures r[0].do == Action("Root.LuksOpen", o.luksOpen) && r[0].defer == Some(Action("Root.LuksClose", o.luksClose))
    ensures r[1].do == Action("Root.Mount", o.rootMount) && r[1].defer == Some(Action("Root.Umount", o.rootUmount))
    ensures r[2].do == Action("EFI.Mount", o.efiMount) && r[2].defer == Some(Action("EFI.Umount", o.efiUmount))
  {
    [ Step(Action("Root.LuksOpen", o.luksOpen), Some(Action("Root.LuksClose", o.luksClose))),
      Step(Action("Root.Mount", o.rootMount), Some(Action("Root.Umount", o.rootUmount))),
      Step(Action("EFI.Mount", o.efiMount), Some(Action("EFI.Umount", o.efiUmount))) ] + steps
  }

  /** The labels of the cleanups a run called, in call order. */
  function CleanupLabels(steps: seq<Step>, order: seq<nat>): seq<string>
    requires forall p :: 0 <= p < |order| ==> order[p] < |steps| && steps[order[p]].defer.Some?
  {
    seq(|order|, p requires 0 <= p < |order| => steps[order[p]].defer.value.name)
  }

  lemma {:induction false} RegisteredPrefix(steps: seq<Step>, a: nat, b: nat)
    requires a <= b <= |steps|
    ensures |Registered(steps, a)| <= |Registered(steps, b)|
    ensures Registered(steps, b)[..|Registered(steps, a)|] == Registered(steps, a)
    decreases b - a
  {
    if a < b {
      RegisteredPrefix(steps, a, b - 1);
      var ra, rb := Registered(steps, a), Registered(steps, b - 1);
      var x := if steps[b - 1].defer.Some? then [b - 1] else [];
      assert Registered(steps, b) == rb + x;
      assert (rb + x)[..|ra|] == rb[..|ra|];
    }
  }

  /** When the three mounts succeed, whatever the caller's steps do, the run
      ends by unmounting EFI, then the root, then closing the LUKS device, after
      every cleanup of the caller's own steps. */
  lemma ExecUnwindsMountsLast(o: MountOutcomes, steps: seq<Step>)
    requires o.luksOpen.Ok? && o.rootMount.Ok? && o.efiMount.Ok?
    ensures var s := ExecSteps(o, steps);
      var d := DeferIndices(RunSteps(s).trace);
      |d| >= 3 && d[|d| - 3..] == [2, 1, 0]
      && (forall p :: 0 <= p < |d| - 3 ==> d[p] >= 3)
      && CleanupLabels(s, d[|d| - 3..]) == ["EFI.Umount", "Root.Umount", "Root.LuksClose"]
  {
    var s := ExecSteps(o, steps);
    var k := FirstFailure(s);
    assert s[0].do.outcome.Ok? && s[1].do.outcome.Ok? && s[2].do.outcome.Ok?;
    assert k >= 3;
    TraceProjections(s);
    MountsUnwindLast(s, k);
    assert CleanupLabels(s, [2, 1, 0]) == ["EFI.Umount", "Root.Umount", "Root.LuksClose"];
  }

  /** When the first three steps have cleanups and all three were registered,
      unwinding ends with them, last registered first. */
  lemma MountsUnwindLast(s: seq<Step>, k: nat)
    requires 3 <= k <= |s|
    requires s[0].defer.Some? && s[1].defer.Some? && s[2].defer.Some?
    ensures var d := Reverse(Registered(s, k));
      |d| >= 3 && d[|d| - 3..] == [2, 1, 0] && forall p :: 0 <= p < |d| - 3 ==> d[p] >= 3
  {
    ExecRegistersMountsFirst(s, k);
    RegisteredSteps(s, k);
    ReverseEndsWithMounts(Registered(s, k));
  }

  lemma ExecRegistersMountsFirst(s: seq<Step>, k: nat)
    requires 3 <= k <= |s|
    requires s[0].defer.Some? && s[1].defer.Some? && s[2].defer.Some?
    ensures |Registered(s, k)| >= 3 && Registered(s, k)[..3] == [0, 1, 2]
  {
    assert Registered(s, 1) == [0];
    assert Registered(s, 2) == [0, 1];
    assert Registered(s, 3) == [0, 1, 2];
    RegisteredPrefix(s, 3, k);
  }

  lemma ReverseEndsWithMounts(r: seq<nat>)
    requires |r| >= 3 && r[..3] == [0, 1, 2]
    requires forall a, b :: 0 <= a < b < |r| ==> r[a] < r[b]
    ensures var d := Reverse(r); d[|d| - 3..] == [2, 1, 0] && forall p :: 0 <= p < |d| - 3 ==> d[p] >= 3
  {
    var d := Reverse(r);
    assert r[0] == 0 && r[1] == 1 && r[2] == 2;
    assert d[|d| - 3..] == [2, 1, 0] by {
      assert d[|d| - 3] == r[2];
      assert d[|d| - 2] == r[1];
      assert d[|d| - 1] == r[0];
    }
    forall p | 0 <= p < |d| - 3
      ensures d[p] >= 3
    {
      assert d[p] == r[|r| - 1 - p];
      assert r[2] < r[|r| - 1 - p];
    }
  }

  /** When opening the LUKS device fails nothing else runs, not even a cleanup. */
  lemma ExecStopsWhenLuksOpenFails(o: MountOutcomes, steps: seq<Step>)
    requires o.luksOpen.Fail?
    ensures RunSteps(ExecSteps(o, steps)) == Run([DoRan(0, Kill)], o.luksOpen)
  {
    var s := ExecSteps(o, steps);
    RunStepsMatchesSpec(s);
    assert FirstFailure(s) == 0;
    assert DoEvents(0, 1) == [DoRan(0, Kill)];
  }
}
