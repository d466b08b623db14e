/**
 * Shutdown by signals: the delayed close, the impatient second signal, and the watchdog, millisecond
 * by millisecond.
 */
module Shutdown {
  import opened Outcomes

  datatype Signal = SIGTERM | SIGINT | SIGHUP | SIGQUIT

  const MAX_SHUTDOWN_DELAY_MS := 60000

  /** `watchdogMs`: how long the process diagnostics wait for others to exit, if they are installed. */
  datatype Setup = Setup(delayMs: int, diagnostics: bool, watchdogMs: int)

  datatype Event =
    | Received(at: int, signal: Signal)
    | ByTimer(at: int)
    | BySignal(at: int)
    | Reraised(at: int, signal: Signal)
    | ForcedExit(at: int)
    | Killed(at: int, signal: Signal)

  datatype State = State(
    now: int,
    shuttingDown: bool,
    timer: Option<int>,
    watchdogs: seq<int>,
    exited: bool,
    log: seq<Event>)

  const INITIAL := State(0, false, None, [], false, [])

  /** The signals the graceful shutdown listens to. */
  predicate IsShutdownSignal(s: Signal) {
    s.SIGTERM? || s.SIGINT?
  }

  function EffectiveDelay(s: Setup): int {
    if s.delayMs < MAX_SHUTDOWN_DELAY_MS then s.delayMs else MAX_SHUTDOWN_DELAY_MS
  }

  /** How many handlers a signal has. */
  function Listeners(s: Setup, signal: Signal): nat {
    (if s.diagnostics then 1 else 0) + (if IsShutdownSignal(signal) then 1 else 0)
  }

  function Logged(st: State, e: Event): State {
    st.(log := st.log + [e])
  }

  /** The handler of the process diagnostics; the first to run. */
  function Diagnosed(s: Setup, st: State, signal: Signal): State {
    if Listeners(s, signal) <= 1 then Logged(st, Reraised(st.now, signal)).(exited := true)
    else if s.watchdogMs > 0 then st.(watchdogs := st.watchdogs + [st.now + s.watchdogMs])
    else st
  }

  /** The handler of the graceful shutdown. */
  function Handled(s: Setup, st: State): State {
    if st.shuttingDown then Logged(st, BySignal(st.now)).(timer := None)
    else st.(shuttingDown := true, timer := Some(st.now + EffectiveDelay(s)))
  }

  function AfterSignal(s: Setup, st: State, signal: Signal): State {
    if Listeners(s, signal) == 0 then Logged(st, Killed(st.now, signal)).(exited := true)
    else
      var arrived := Logged(st, Received(st.now, signal));
      var diagnosed := if s.diagnostics then Diagnosed(s, arrived, signal) else arrived;
      if IsShutdownSignal(signal) then Handled(s, diagnosed) else diagnosed
  }

  function FireTimer(st: State): State {
    if !st.exited && st.timer == Some(st.now) then Logged(st, ByTimer(st.now)) else st
  }

  function FireWatchdogs(st: State): State {
    if !st.exited && st.now in st.watchdogs then Logged(st, ForcedExit(st.now)).(exited := true) else st
  }

  /** A millisecond passes; timers due at the same time may fire in either order. */
  function AfterTick(st: State, watchdogFirst: bool): State {
    var later := st.(now := st.now + 1);
    if watchdogFirst then FireTimer(FireWatchdogs(later)) else FireWatchdogs(FireTimer(later))
  }

  // ---- the handlers in place ----

  class Process {
    const setup: Setup
    var now: int
    var shuttingDown: bool
    var timer: Option<int>
    var watchdogs: seq<int>
    var exited: bool
    var log: seq<Event>

    function Contents(): State
      reads this
    {
      State(now, shuttingDown, timer, watchdogs, exited, log)
    }

    method HandleShutdown()
      modifies this
      ensures Contents() == Handled(setup, old(Contents()))
    {
      if shuttingDown {
        if timer.Some? {
          timer := None;
        }
        log := log + [BySignal(now)];
        return;
      }
      shuttingDown := true;
      timer := Some(now + EffectiveDelay(setup));
    }

    method HandleDiagnostics(signal: Signal)
      modifies this
      ensures Contents() == Diagnosed(setup, old(Contents()), signal)
    {
      var alone := Listeners(setup, signal) <= 1;
      if alone {
        log := log + [Reraised(now, signal)];
        exited := true;
        return;
      }
      if setup.watchdogMs > 0 {
        watchdogs := watchdogs + [now + setup.watchdogMs];
      }
    }

    /** A signal reaches the process: its handlers run in the order they were installed. */
    method Receive(signal: Signal)
      modifies this
      ensures Contents() == AfterSignal(setup, old(Contents()), signal)
    {
      if Listeners(setup, signal) == 0 {
        log := log + [Killed(now, signal)];
        exited := true;
        return;
      }
      log := log + [Received(now, signal)];
      if setup.diagnostics {
        HandleDiagnostics(signal);
      }
      if IsShutdownSignal(signal) {
        HandleShutdown();
      }
    }
  }

  // ---- runs ----

  /** `Drained`: nothing keeps the process alive any more after a close. */
  datatype Step = Signal(signal: Signal) | Tick(watchdogFirst: bool) | Drained

  predicate IsClose(e: Event) {
    e.ByTimer? || e.BySignal?
  }

  predicate HasClose(log: seq<Event>) {
    exists i :: 0 <= i < |log| && IsClose(log[i])
  }

  function Next(s: Setup, st: State, step: Step): State {
    if st.exited then st
    else
      match step
      case Signal(signal) => AfterSignal(s, st, signal)
      case Tick(watchdogFirst) => AfterTick(st, watchdogFirst)
      case Drained => if HasClose(st.log) then st.(exited := true) else st
  }

  function Run(s: Setup, st: State, steps: seq<Step>): State
    decreases |steps|
  {
    if steps == [] then st else Run(s, Next(s, st, steps[0]), steps[1..])
  }

  // ---- what the log of a run looks like ----

  /** A signal that asks for the graceful shutdown. */
  ghost predicate IsRequest(e: Event) {
    e.Received? && (e.signal == SIGTERM || e.signal == SIGINT)
  }

  /** The configured delay, at most a minute. */
  ghost function PromisedDelay(s: Setup): int {
    if s.delayMs > 60000 then 60000 else s.delayMs
  }

  /** The position of the first shutdown signal, or the length of the log. */
  ghost function First(log: seq<Event>): (f: nat)
    ensures f <= |log| && (f < |log| ==> IsRequest(log[f]))
    ensures forall j :: 0 <= j < f ==> !IsRequest(log[j])
  {
    if log == [] || IsRequest(log[0]) then 0 else 1 + First(log[1..])
  }

  ghost predicate Requested(log: seq<Event>) {
    First(log) < |log|
  }

  /** No second shutdown signal before position `i`. */
  ghost predicate Patient(log: seq<Event>, i: int) {
    forall j :: First(log) < j < i && j < |log| ==> !IsRequest(log[j])
  }

  /** A close by timer: exactly the delay after the first signal, before any second one, and the first close of all. */
  ghost predicate TimerCloseOk(s: Setup, log: seq<Event>, i: nat)
    requires i < |log|
  {
    log[i].ByTimer? ==>
      First(log) < i && log[i].at == log[First(log)].at + PromisedDelay(s) && Patient(log, i) &&
      forall j :: 0 <= j < i ==> !IsClose(log[j])
  }

  /** A close by signal: at once, and that signal is not the first. */
  ghost predicate SignalCloseOk(log: seq<Event>, i: nat)
    requires i < |log|
  {
    log[i].BySignal? ==> First(log) < i - 1 && IsRequest(log[i - 1]) && log[i].at == log[i - 1].at
  }

  /** Only signals the graceful shutdown does not listen to end the process the default way. */
  ghost predicate DefaultEndOk(log: seq<Event>, i: nat)
    requires i < |log|
  {
    log[i].Reraised? || log[i].Killed? ==> log[i].signal == SIGHUP || log[i].signal == SIGQUIT
  }

  /** A watchdog is armed on shutdown signals, and does not run longer than the delay. */
  ghost predicate WatchdogCutsOff(s: Setup) {
    s.diagnostics && 0 < s.watchdogMs <= PromisedDelay(s)
  }

  ghost predicate FollowsClose(log: seq<Event>, i: nat)
    requires i < |log|
  {
    log[i].ForcedExit? ==> exists j :: 0 <= j < i && IsClose(log[j])
  }

  /** A forced exit comes after a close, unless the watchdog cuts the delay off. */
  ghost predicate ForcedExitOk(s: Setup, log: seq<Event>, i: nat)
    requires i < |log|
  {
    WatchdogCutsOff(s) || FollowsClose(log, i)
  }

  ghost predicate EventOk(s: Setup, log: seq<Event>, i: nat)
    requires i < |log|
  {
    TimerCloseOk(s, log, i) && SignalCloseOk(log, i) && DefaultEndOk(log, i) && ForcedExitOk(s, log, i)
  }

  ghost predicate LogOk(s: Setup, log: seq<Event>) {
    forall i :: 0 <= i < |log| ==> EventOk(s, log, i)
  }

  lemma {:induction false} FirstStays(log: seq<Event>, e: Event)
    ensures First(log + [e]) == if Requested(log) then First(log) else if IsRequest(e) then |log| else |log| + 1
  {
    if log == [] {
      assert log + [e] == [e] && [e][1..] == [];
    } else {
      assert (log + [e])[1..] == log[1..] + [e];
      FirstStays(log[1..], e);
    }
  }

  lemma Append(s: Setup, log: seq<Event>, e: Event)
    requires LogOk(s, log) && EventOk(s, log + [e], |log|)
    ensures LogOk(s, log + [e])
  {
    FirstStays(log, e);
    var more := log + [e];
    forall i | 0 <= i < |more| ensures EventOk(s, more, i) {
      if i < |log| {
        assert EventOk(s, log, i);
        if log[i].ForcedExit? && !WatchdogCutsOff(s) {
          var j :| 0 <= j < i && IsClose(log[j]);
          assert IsClose(more[j]);
        }
      }
    }
  }

  // ---- the invariant ----

  /** When the close by timer is due. */
  ghost function Due(s: Setup, log: seq<Event>): int
    requires Requested(log)
  {
    log[First(log)].at + PromisedDelay(s)
  }

  /** Every watchdog runs at least its timeout from the first signal on, and there are none without diagnostics. */
  ghost predicate WatchdogsOk(s: Setup, st: State) {
    forall w :: w in st.watchdogs ==>
      s.diagnostics && s.watchdogMs > 0 && Requested(st.log) && w >= st.log[First(st.log)].at + s.watchdogMs
  }

  /** Between the first signal and a close, the timer is armed for exactly the right moment. */
  ghost predicate Armed(s: Setup, st: State) {
    st.exited || HasClose(st.log) || !Requested(st.log) ||
    (st.timer == Some(Due(s, st.log)) && Patient(st.log, |st.log|))
  }

  ghost predicate Common(s: Setup, st: State) {
    LogOk(s, st.log) && WatchdogsOk(s, st) && Armed(s, st) && st.shuttingDown == Requested(st.log) &&
    (HasClose(st.log) ==> Requested(st.log)) && (!Requested(st.log) ==> st.timer.None?) &&
    (Requested(st.log) ==> st.log[First(st.log)].at <= st.now)
  }

  ghost predicate Inv(s: Setup, st: State) {
    Common(s, st) &&
    (HasClose(st.log) && st.timer.Some? ==> st.timer.value <= st.now) &&
    (!st.exited && Requested(st.log) && !HasClose(st.log) ==> st.now < Due(s, st.log))
  }

  /** A millisecond has passed, and the timers due now have not fired yet. */
  ghost predicate JustTicked(s: Setup, st: State) {
    Common(s, st) &&
    (HasClose(st.log) && st.timer.Some? ==> st.timer.value < st.now) &&
    (!st.exited && Requested(st.log) && !HasClose(st.log) ==> st.now <= Due(s, st.log))
  }

  lemma CloseStays(log: seq<Event>, e: Event)
    ensures HasClose(log + [e]) == (HasClose(log) || IsClose(e))
  {
    if i :| 0 <= i < |log| && IsClose(log[i]) {
      assert IsClose((log + [e])[i]);
    }
    if i :| 0 <= i < |log + [e]| && IsClose((log + [e])[i]) {
      assert i < |log| ==> IsClose(log[i]);
    }
    if IsClose(e) {
      assert IsClose((log + [e])[|log|]);
    }
  }

  /** Appending to the log keeps what the invariant says about it. */
  lemma AppendKeeps(s: Setup, st: State, e: Event)
    requires Common(s, st) && EventOk(s, st.log + [e], |st.log|)
    ensures LogOk(s, st.log + [e]) && HasClose(st.log + [e]) == (HasClose(st.log) || IsClose(e))
    ensures Requested(st.log) ==>
      First(st.log + [e]) == First(st.log) && Requested(st.log + [e]) && WatchdogsOk(s, Logged(st, e))
    ensures !Requested(st.log) ==>
      Requested(st.log + [e]) == IsRequest(e) && (IsRequest(e) ==> First(st.log + [e]) == |st.log|)
  {
    Append(s, st.log, e);
    FirstStays(st.log, e);
    CloseStays(st.log, e);
  }

  // ---- a millisecond ----

  lemma WatchdogsFire(s: Setup, st: State)
    requires JustTicked(s, st) || Inv(s, st)
    ensures JustTicked(s, st) ==> JustTicked(s, FireWatchdogs(st))
    ensures Inv(s, st) ==> Inv(s, FireWatchdogs(st))
  {
    if !st.exited && st.now in st.watchdogs {
      var e := ForcedExit(st.now);
      FirstStays(st.log, e);
      if !WatchdogCutsOff(s) {
        assert HasClose(st.log);
        var j :| 0 <= j < |st.log| && IsClose(st.log[j]);
        assert IsClose((st.log + [e])[j]);
      }
      AppendKeeps(s, st, e);
    }
  }

  lemma TimerFires(s: Setup, st: State)
    requires JustTicked(s, st)
    ensures Inv(s, FireTimer(st))
  {
    if !st.exited && st.timer == Some(st.now) {
      var e := ByTimer(st.now);
      FirstStays(st.log, e);
      assert !HasClose(st.log);
      forall j | 0 <= j < |st.log| ensures !IsClose((st.log + [e])[j]) {
        assert !IsClose(st.log[j]);
      }
      AppendKeeps(s, st, e);
    }
  }

  lemma TickKeepsInv(s: Setup, st: State, watchdogFirst: bool)
    requires Inv(s, st) && !st.exited
    ensures Inv(s, AfterTick(st, watchdogFirst))
  {
    var later := st.(now := st.now + 1);
    assert JustTicked(s, later);
    if watchdogFirst {
      WatchdogsFire(s, later);
      TimerFires(s, FireWatchdogs(later));
    } else {
      TimerFires(s, later);
      WatchdogsFire(s, FireTimer(later));
    }
  }

  // ---- a signal ----

  /** The graceful handler after the signal has been noted, with the watchdogs as they may be by then. */
  lemma HandlerKeepsInv(s: Setup, st: State, signal: Signal, watchdogs: seq<int>)
    requires Inv(s, st) && !st.exited && IsShutdownSignal(signal) && s.delayMs > 0
    requires forall w :: w in watchdogs ==>
      w in st.watchdogs || (s.diagnostics && s.watchdogMs > 0 && w >= st.now + s.watchdogMs)
    ensures Inv(s, Handled(s, Logged(st, Received(st.now, signal)).(watchdogs := watchdogs)))
  {
    var e := Received(st.now, signal);
    AppendKeeps(s, st, e);
    var arrived := Logged(st, e).(watchdogs := watchdogs);
    if st.shuttingDown {
      var close := BySignal(st.now);
      FirstStays(arrived.log, close);
      assert EventOk(s, arrived.log + [close], |arrived.log|);
      Append(s, arrived.log, close);
      CloseStays(arrived.log, close);
    }
  }

  lemma ShutdownSignalKeepsInv(s: Setup, st: State, signal: Signal)
    requires Inv(s, st) && !st.exited && IsShutdownSignal(signal) && s.delayMs > 0
    ensures Inv(s, AfterSignal(s, st, signal))
  {
    var armed := if s.diagnostics && s.watchdogMs > 0 then [st.now + s.watchdogMs] else [];
    HandlerKeepsInv(s, st, signal, st.watchdogs + armed);
    assert AfterSignal(s, st, signal) ==
      Handled(s, Logged(st, Received(st.now, signal)).(watchdogs := st.watchdogs + armed));
  }

  lemma OtherSignalKeepsInv(s: Setup, st: State, signal: Signal)
    requires Inv(s, st) && !st.exited && !IsShutdownSignal(signal)
    ensures Inv(s, AfterSignal(s, st, signal))
  {
    if s.diagnostics {
      var e := Received(st.now, signal);
      AppendKeeps(s, st, e);
      var arrived := Logged(st, e);
      var end := Reraised(st.now, signal);
      FirstStays(arrived.log, end);
      Append(s, arrived.log, end);
      CloseStays(arrived.log, end);
    } else {
      AppendKeeps(s, st, Killed(st.now, signal));
    }
  }

  lemma StepKeepsInv(s: Setup, st: State, step: Step)
    requires Inv(s, st) && s.delayMs > 0
    ensures Inv(s, Next(s, st, step))
  {
    if !st.exited {
      match step
      case Signal(signal) =>
        if IsShutdownSignal(signal) {
          ShutdownSignalKeepsInv(s, st, signal);
        } else {
          OtherSignalKeepsInv(s, st, signal);
        }
      case Tick(watchdogFirst) => TickKeepsInv(s, st, watchdogFirst);
      case Drained =>
    }
  }

  lemma {:induction false} RunKeepsInv(s: Setup, st: State, steps: seq<Step>)
    requires Inv(s, st) && s.delayMs > 0
    ensures Inv(s, Run(s, st, steps))
    decreases |steps|
  {
    if steps != [] {
      StepKeepsInv(s, st, steps[0]);
      RunKeepsInv(s, Next(s, st, steps[0]), steps[1..]);
    }
  }

  // ---- the results ----

  /**
   * In every run with a configured delay: a close by timer happens exactly the capped delay after
   * the first signal, before any second signal and before any other close; every other close answers
   * a later signal at once; no shutdown signal is raised again; and unless the watchdog cuts the
   * delay off, a forced exit only follows a close.
   */
  lemma EveryRunShutsDownProperly(s: Setup, steps: seq<Step>, i: nat)
    requires s.delayMs > 0 && i < |Run(s, INITIAL, steps).log|
    ensures EventOk(s, Run(s, INITIAL, steps).log, i)
  {
    RunKeepsInv(s, INITIAL, steps);
  }

  /** At most one close happens by timer. */
  lemma OneCloseByTimer(s: Setup, steps: seq<Step>, i: nat, j: nat)
    requires s.delayMs > 0 && i < j < |Run(s, INITIAL, steps).log|
    ensures var log := Run(s, INITIAL, steps).log; !(log[i].ByTimer? && log[j].ByTimer?)
  {
    EveryRunShutsDownProperly(s, steps, i);
    EveryRunShutsDownProperly(s, steps, j);
    assert IsClose(Run(s, INITIAL, steps).log[i]) || !Run(s, INITIAL, steps).log[i].ByTimer?;
  }

  /** No close precedes the due time unless a second signal arrived. */
  lemma NoEarlyClose(s: Setup, steps: seq<Step>, i: nat)
    requires s.delayMs > 0 && i < |Run(s, INITIAL, steps).log| && IsClose(Run(s, INITIAL, steps).log[i])
    ensures var log := Run(s, INITIAL, steps).log;
      First(log) < i &&
      (log[i].at == log[First(log)].at + PromisedDelay(s) ||
       exists j :: First(log) < j < i && IsRequest(log[j]))
  {
    EveryRunShutsDownProperly(s, steps, i);
    var log := Run(s, INITIAL, steps).log;
    if log[i].BySignal? {
      assert IsRequest(log[i - 1]);
    }
  }

  /** A process that is still alive when the delay is over has closed the application. */
  lemma CloseHappens(s: Setup, steps: seq<Step>)
    requires s.delayMs > 0
    ensures
      var st := Run(s, INITIAL, steps);
      !st.exited && Requested(st.log) && st.now >= Due(s, st.log) ==> HasClose(st.log)
  {
    RunKeepsInv(s, INITIAL, steps);
  }

  /** The other signals end a process at once in every state of every run, and start no shutdown. */
  lemma OtherSignalsEndAtOnce(s: Setup, steps: seq<Step>, signal: Signal)
    requires signal == SIGHUP || signal == SIGQUIT
    ensures
      var st := Run(s, INITIAL, steps);
      var after := Run(s, INITIAL, steps + [Signal(signal)]);
      if st.exited then after == st
      else
        after.exited && after.shuttingDown == st.shuttingDown && after.timer == st.timer &&
        after.log == st.log +
          if s.diagnostics then [Received(st.now, signal), Reraised(st.now, signal)] else [Killed(st.now, signal)]
  {
    RunSplits(s, INITIAL, steps, [Signal(signal)]);
    var st := Run(s, INITIAL, steps);
    assert [Signal(signal)][1..] == [];
    assert Run(s, st, [Signal(signal)]) == Next(s, st, Signal(signal));
  }

  lemma {:induction false} RunSplits(s: Setup, st: State, steps: seq<Step>, more: seq<Step>)
    ensures Run(s, st, steps + more) == Run(s, Run(s, st, steps), more)
    decreases |steps|
  {
    if steps == [] {
      assert steps + more == more;
    } else {
      assert (steps + more)[0] == steps[0] && (steps + more)[1..] == steps[1..] + more;
      RunSplits(s, Next(s, st, steps[0]), steps[1..], more);
    }
  }

  // ---- where the watchdog cuts the delay off ----

  /** Milliseconds up to one in which the watchdog fires before the timer. */
  function Countdown(n: nat): seq<Step>
    requires n > 0
  {
    if n == 1 then [Tick(true)] else [Tick(false)] + Countdown(n - 1)
  }

  /** One signal at the start, `k` milliseconds ago, and nothing due yet. */
  ghost function WaitingSince(s: Setup, k: int): State {
    State(k, true, Some(PromisedDelay(s)), [s.watchdogMs], false, [Received(0, SIGTERM)])
  }

  lemma {:induction false} CountdownEnds(s: Setup, k: nat, n: nat)
    requires s.watchdogMs <= PromisedDelay(s) && 0 < n && k + n == s.watchdogMs
    ensures Run(s, WaitingSince(s, k), Countdown(n)).log == [Received(0, SIGTERM), ForcedExit(s.watchdogMs)]
    decreases n
  {
    var st := WaitingSince(s, k);
    if n > 1 {
      assert Countdown(n)[1..] == Countdown(n - 1);
      assert Next(s, st, Tick(false)) == WaitingSince(s, k + 1);
      CountdownEnds(s, k + 1, n - 1);
    } else {
      assert Countdown(1)[1..] == [];
      assert Next(s, st, Tick(true)).log == [Received(0, SIGTERM), ForcedExit(s.watchdogMs)];
    }
  }

  /** A delay of the watchdog timeout or more: there is a run that ends in the forced exit without any close. */
  lemma LongDelayIsCutOff(s: Setup)
    requires WatchdogCutsOff(s)
    ensures Run(s, INITIAL, [Signal(SIGTERM)] + Countdown(s.watchdogMs)).log
      == [Received(0, SIGTERM), ForcedExit(s.watchdogMs)]
  {
    var steps := [Signal(SIGTERM)] + Countdown(s.watchdogMs);
    assert steps[0] == Signal(SIGTERM) && steps[1..] == Countdown(s.watchdogMs);
    assert Next(s, INITIAL, Signal(SIGTERM)) == WaitingSince(s, 0);
    CountdownEnds(s, 0, s.watchdogMs);
  }

  ghost predicate AlwaysClosesFirst(s: Setup) {
    forall steps, i :: 0 <= i < |Run(s, INITIAL, steps).log| ==> FollowsClose(Run(s, INITIAL, steps).log, i)
  }

  /**
   * In every run a forced exit only follows a close, exactly unless the diagnostics are installed
   * with a timeout that the delay reaches; by default that is any configured delay from 30 seconds on.
   */
  lemma ClosesFirstExactly(s: Setup)
    requires s.delayMs > 0
    ensures AlwaysClosesFirst(s) <==> !WatchdogCutsOff(s)
    ensures s.diagnostics && s.watchdogMs == 30000 ==> (AlwaysClosesFirst(s) <==> s.delayMs < 30000)
  {
    if WatchdogCutsOff(s) {
      LongDelayIsCutOff(s);
      assert !FollowsClose(Run(s, INITIAL, [Signal(SIGTERM)] + Countdown(s.watchdogMs)).log, 1);
    } else {
      forall steps, i | 0 <= i < |Run(s, INITIAL, steps).log| ensures FollowsClose(Run(s, INITIAL, steps).log, i) {
        EveryRunShutsDownProperly(s, steps, i);
      }
    }
  }
}
