/**
  The compile broker's activity switch. A shared `jint` holds one of three
  modes; callers toggle between stop and run with a compare-and-swap, counting
  each successful stop and restart, and shutdown replaces the mode for good. A
  second compare-and-swap latch lets the "compiler disabled" warning be
  printed only once. Each compare-and-swap is modelled as one atomic step on
  an immutable broker value.
 */
module CompilerActivity {
  import opened MachineInts

  /** The `CompilerActivity` enumerators. */
  const StopCompilation: int := 0
  const RunCompilation: int := 1
  const ShutdownCompilation: int := 2

  /**
    The broker's static fields that this switch touches: the activity mode,
    the `UseCompiler` and `AlwaysCompileLoopMethods` flags, the `uint`
    stop/restart counters and the warning latch.
   */
  datatype Broker = Broker(
    mode: int,
    useCompiler: bool,
    alwaysCompileLoopMethods: bool,
    stoppedCount: nat,
    restartedCount: nat,
    printWarningLatch: int)

  predicate ValidMode(m: int) {
    m == StopCompilation || m == RunCompilation || m == ShutdownCompilation
  }

  predicate Valid(b: Broker) {
    ValidMode(b.mode) && IsUint32(b.stoppedCount) && IsUint32(b.restartedCount) && IsJint(b.printWarningLatch)
  }

  /** `should_compile_new_jobs`: compilation is on and the mode is run. */
  predicate ShouldCompileNewJobs(b: Broker) {
    b.useCompiler && b.mode == RunCompilation
  }

  /** `is_compilation_disabled_forever`. */
  predicate IsCompilationDisabledForever(b: Broker) {
    b.mode == ShutdownCompilation
  }

  /** The outcome of a call that both answers and updates the broker. */
  datatype Step = Step(result: bool, broker: Broker)

  /**
    `set_should_compile_new_jobs`: swap the mode from `1 - newState` to
    `newState`. Only the caller whose swap succeeds bumps a counter: the
    restart counter when switching to run, the stop counter otherwise.
    `1 - newState` must itself be a `jint`.
   */
  function SetShouldCompileNewJobs(b: Broker, newState: int): (s: Step)
    requires Valid(b) && IsJint(newState) && IsJint(1 - newState)
    ensures s.result <==> b.mode == 1 - newState
    ensures s.result ==> s.broker.mode == newState
    ensures !s.result ==> s.broker == b
    ensures s.result && newState == RunCompilation ==>
      s.broker == b.(mode := newState, restartedCount := Uint32Inc(b.restartedCount))
    ensures s.result && newState != RunCompilation ==>
      s.broker == b.(mode := newState, stoppedCount := Uint32Inc(b.stoppedCount))
  {
    var cas := CompareAndSwapMode(b, 1 - newState, newState);
    var success := cas.0 == 1 - newState;
    var after := cas.1;
    if !success then Step(false, after)
    else if newState == RunCompilation then
      Step(true, after.(restartedCount := Uint32Inc(after.restartedCount)))
    else
      Step(true, after.(stoppedCount := Uint32Inc(after.stoppedCount)))
  }

  /** `Atomic::cmpxchg` on the mode: returns the old value, stores `desired` only if it equalled `expected`. */
  function CompareAndSwapMode(b: Broker, expected: int, desired: int): (r: (int, Broker))
    ensures r.0 == b.mode
    ensures r.1.mode == desired || r.1.mode == b.mode
    ensures r.1.mode == desired <==> b.mode == expected || b.mode == desired
    ensures r.1.(mode := b.mode) == b
  {
    (b.mode, if b.mode == expected then b.(mode := desired) else b)
  }

  /** `disable_compilation_forever`: clear both compiler flags and exchange the mode for shutdown. */
  function DisableCompilationForever(b: Broker): (r: Broker)
    requires Valid(b)
    ensures Valid(r)
    ensures IsCompilationDisabledForever(r) && !ShouldCompileNewJobs(r)
    ensures !r.useCompiler && !r.alwaysCompileLoopMethods
    ensures r.stoppedCount == b.stoppedCount && r.restartedCount == b.restartedCount
    ensures r.printWarningLatch == b.printWarningLatch
  {
    b.(useCompiler := false, alwaysCompileLoopMethods := false, mode := ShutdownCompilation)
  }

  /** `should_print_compiler_warning`: swap the latch from 0 to 1; true only for the caller that did. */
  function ShouldPrintCompilerWarning(b: Broker): (s: Step)
    ensures s.result <==> b.printWarningLatch == 0
    ensures s.broker.printWarningLatch != 0
    ensures s.result ==> s.broker.printWarningLatch == 1
    ensures !s.result ==> s.broker == b
    ensures s.broker.(printWarningLatch := b.printWarningLatch) == b
  {
    var previous := b.printWarningLatch;
    var latch := if previous == 0 then 1 else previous;
    Step(previous == 0, b.(printWarningLatch := latch))
  }

  /** Shutdown is absorbing: no stop or run request leaves it. */
  lemma ShutdownIsAbsorbing(b: Broker, newState: int)
    requires Valid(b) && IsCompilationDisabledForever(b)
    requires newState == StopCompilation || newState == RunCompilation
    ensures !SetShouldCompileNewJobs(b, newState).result
    ensures SetShouldCompileNewJobs(b, newState).broker == b
  {
  }

  // ---- Sequences of broker calls ----

  /** A call of one of the modelled broker entry points; the answering queries do not change the broker. */
  datatype Call =
    | SetShouldCompile(newState: int)
    | DisableForever
    | PrintWarning
    | QueryShouldCompile
    | QueryDisabledForever

  /** The modelling assumption for sequences: a toggle request passes a `CompilerActivity` stop or run. */
  predicate WellFormedCall(c: Call) {
    c.SetShouldCompile? ==> c.newState == StopCompilation || c.newState == RunCompilation
  }

  predicate AllWellFormed(calls: seq<Call>) {
    forall i :: 0 <= i < |calls| ==> WellFormedCall(calls[i])
  }

  /** One call: the broker afterwards and the boolean it answered (false for `DisableForever`). */
  function Perform(b: Broker, c: Call): (s: Step)
    requires Valid(b) && WellFormedCall(c)
    ensures Valid(s.broker)
  {
    match c
    case SetShouldCompile(n) => SetShouldCompileNewJobs(b, n)
    case DisableForever => Step(false, DisableCompilationForever(b))
    case PrintWarning => ShouldPrintCompilerWarning(b)
    case QueryShouldCompile => Step(ShouldCompileNewJobs(b), b)
    case QueryDisabledForever => Step(IsCompilationDisabledForever(b), b)
  }

  /** The broker after running the calls in order. */
  function Run(b: Broker, calls: seq<Call>): (r: Broker)
    requires Valid(b) && AllWellFormed(calls)
    ensures Valid(r)
    decreases |calls|
  {
    if calls == [] then b else Run(Perform(b, calls[0]).broker, calls[1..])
  }

  /** How many of the calls were `should_print_compiler_warning` calls that answered true. */
  function WarningsPrinted(b: Broker, calls: seq<Call>): nat
    requires Valid(b) && AllWellFormed(calls)
    decreases |calls|
  {
    if calls == [] then 0
    else
      var s := Perform(b, calls[0]);
      (if calls[0].PrintWarning? && s.result then 1 else 0) + WarningsPrinted(s.broker, calls[1..])
  }

  /** How many toggle requests in the calls succeeded. */
  function SuccessfulToggles(b: Broker, calls: seq<Call>): nat
    requires Valid(b) && AllWellFormed(calls)
    decreases |calls|
  {
    if calls == [] then 0
    else
      var s := Perform(b, calls[0]);
      (if calls[0].SetShouldCompile? && s.result then 1 else 0) + SuccessfulToggles(s.broker, calls[1..])
  }

  /** The warning latch fires at most once over any sequence of calls, and never if it already fired. */
  lemma {:induction false} WarningPrintedAtMostOnce(b: Broker, calls: seq<Call>)
    requires Valid(b) && AllWellFormed(calls)
    ensures WarningsPrinted(b, calls) <= 1
    ensures b.printWarningLatch != 0 ==> WarningsPrinted(b, calls) == 0
    decreases |calls|
  {
    if calls != [] {
      var s := Perform(b, calls[0]);
      assert AllWellFormed(calls[1..]);
      WarningPrintedAtMostOnce(s.broker, calls[1..]);
      if calls[0].PrintWarning? {
        assert s.broker.printWarningLatch != 0;
      } else {
        assert s.broker.printWarningLatch == b.printWarningLatch;
      }
    }
  }

  /** Once compilation is disabled forever, no later sequence of calls re-enables it or wins a toggle. */
  lemma {:induction false} DisabledForeverStaysDisabled(b: Broker, calls: seq<Call>)
    requires Valid(b) && AllWellFormed(calls) && IsCompilationDisabledForever(b)
    ensures IsCompilationDisabledForever(Run(b, calls))
    ensures SuccessfulToggles(b, calls) == 0
    ensures !ShouldCompileNewJobs(Run(b, calls))
    decreases |calls|
  {
    if calls != [] {
      var s := Perform(b, calls[0]);
      assert AllWellFormed(calls[1..]);
      assert IsCompilationDisabledForever(s.broker);
      DisabledForeverStaysDisabled(s.broker, calls[1..]);
    }
  }

  /** Disabling compilation anywhere in a sequence leaves it disabled at the end. */
  lemma DisableAnywhereIsFinal(b: Broker, before: seq<Call>, after: seq<Call>)
    requires Valid(b) && AllWellFormed(before) && AllWellFormed(after)
    ensures AllWellFormed(before + [DisableForever] + after)
    ensures IsCompilationDisabledForever(Run(b, before + [DisableForever] + after))
    ensures !ShouldCompileNewJobs(Run(b, before + [DisableForever] + after))
  {
    var calls := before + [DisableForever] + after;
    assert AllWellFormed(calls) by {
      forall i | 0 <= i < |calls| ensures WellFormedCall(calls[i]) {
        if i < |before| {
          assert calls[i] == before[i];
        } else if i > |before| {
          assert calls[i] == after[i - |before| - 1];
        }
      }
    }
    assert calls == before + ([DisableForever] + after);
    RunAppend(b, before, [DisableForever] + after);
    var mid := Run(b, before);
    var disabled := DisableCompilationForever(mid);
    assert Run(mid, [DisableForever] + after) == Run(disabled, after) by {
      assert ([DisableForever] + after)[1..] == after;
    }
    DisabledForeverStaysDisabled(disabled, after);
  }

  /** Running two sequences one after the other is running their concatenation. */
  lemma {:induction false} RunAppend(b: Broker, xs: seq<Call>, ys: seq<Call>)
    requires Valid(b) && AllWellFormed(xs) && AllWellFormed(ys) && AllWellFormed(xs + ys)
    ensures Run(b, xs + ys) == Run(Run(b, xs), ys)
    decreases |xs|
  {
    if xs != [] {
      var s := Perform(b, xs[0]);
      assert (xs + ys)[0] == xs[0];
      assert (xs + ys)[1..] == xs[1..] + ys;
      assert AllWellFormed(xs[1..]);
      RunAppend(s.broker, xs[1..], ys);
    } else {
      assert xs + ys == ys;
    }
  }

  /**
    The counters stay in step with the mode: while running, stops and restarts
    balance; while stopped, there has been one more stop than restart (modulo
    the `uint` width).
   */
  predicate CountersBalanced(b: Broker) {
    && (b.mode == RunCompilation ==> b.stoppedCount == b.restartedCount)
    && (b.mode == StopCompilation ==> b.stoppedCount == (b.restartedCount + 1) % Uint32Modulus)
  }

  /** Every well-formed call keeps the counters balanced against the mode. */
  lemma CallKeepsCountersBalanced(b: Broker, c: Call)
    requires Valid(b) && WellFormedCall(c) && CountersBalanced(b)
    ensures CountersBalanced(Perform(b, c).broker)
  {
  }

  /** Balanced counters stay balanced over any sequence of well-formed calls. */
  lemma {:induction false} RunKeepsCountersBalanced(b: Broker, calls: seq<Call>)
    requires Valid(b) && AllWellFormed(calls) && CountersBalanced(b)
    ensures CountersBalanced(Run(b, calls))
    decreases |calls|
  {
    if calls != [] {
      CallKeepsCountersBalanced(b, calls[0]);
      assert AllWellFormed(calls[1..]);
      RunKeepsCountersBalanced(Perform(b, calls[0]).broker, calls[1..]);
    }
  }

  /** The counters only move on a successful toggle: their total grows by the number of wins. */
  lemma {:induction false} CountersCountSuccesses(b: Broker, calls: seq<Call>)
    requires Valid(b) && AllWellFormed(calls)
    requires b.stoppedCount + b.restartedCount + |calls| < Uint32Modulus
    ensures Run(b, calls).stoppedCount + Run(b, calls).restartedCount
      == b.stoppedCount + b.restartedCount + SuccessfulToggles(b, calls)
    decreases |calls|
  {
    if calls != [] {
      var s := Perform(b, calls[0]);
      assert AllWellFormed(calls[1..]);
      assert s.broker.stoppedCount + s.broker.restartedCount
        <= b.stoppedCount + b.restartedCount + 1;
      CountersCountSuccesses(s.broker, calls[1..]);
    }
  }
}
