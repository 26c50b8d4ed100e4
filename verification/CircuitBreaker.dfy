/** The circuit breaker (app/infra/circuit_breaker.py): a three-state machine used by concurrent calls,
  including stale ones that were admitted in an earlier state. */
module CircuitBreaker {
  import opened Common

  datatype Mode = Closed | Open | HalfOpen

  datatype Config = Config(failureThreshold: int, recoveryTimeout: real, successThreshold: int)

  datatype Breaker = Breaker(mode: Mode, failures: nat, successes: nat, lastFailure: real, allowed: nat)

  // ---------------------------------------------------------------- transitions

  function Init(): Breaker { Breaker(Closed, 0, 0, 0.0, 0) }

  function Opened(b: Breaker): Breaker { b.(mode := Open, allowed := 0) }

  function ClosedAgain(b: Breaker): Breaker { b.(mode := Closed, failures := 0, successes := 0, allowed := 0) }

  function Succeed(cfg: Config, b: Breaker): Breaker {
    match b.mode
    case HalfOpen =>
      var b' := b.(successes := b.successes + 1);
      if b'.successes >= cfg.successThreshold then ClosedAgain(b') else b'
    case Closed => b.(failures := 0)
    case Open => b
  }

  function Fail(cfg: Config, b: Breaker, now: real): Breaker {
    var b' := b.(lastFailure := now);
    if b.mode.HalfOpen? then Opened(b')
    else
      var b'' := b'.(failures := b.failures + 1);
      if b''.failures >= cfg.failureThreshold then Opened(b'') else b''
  }

  /** Whether a call is let through at time now. */
  predicate Admits(cfg: Config, b: Breaker, now: real) {
    match b.mode
    case Closed => true
    case Open => now - b.lastFailure >= cfg.recoveryTimeout
    case HalfOpen => b.allowed < cfg.successThreshold
  }

  function Ask(cfg: Config, b: Breaker, now: real): Breaker {
    if !Admits(cfg, b, now) then b
    else
      match b.mode
      case Closed => b
      case Open => b.(mode := HalfOpen, successes := 0, allowed := 1)
      case HalfOpen => b.(allowed := b.allowed + 1)
  }

  // ---------------------------------------------------------------- the object

  class CircuitBreaker {
    const config: Config
    var state: Mode
    var failureCount: nat
    var successCount: nat
    var lastFailureTime: real
    var halfOpenAllowedCount: nat

    ghost function View(): Breaker
      reads this
    {
      Breaker(state, failureCount, successCount, lastFailureTime, halfOpenAllowedCount)
    }

    constructor (config: Config)
      ensures this.config == config && View() == Init()
    {
      this.config := config;
      state, failureCount, successCount, lastFailureTime, halfOpenAllowedCount := Closed, 0, 0, 0.0, 0;
    }

    method RecordSuccess()
      modifies this
      ensures View() == Succeed(config, old(View()))
      ensures old(state) == Open ==> View() == old(View())
      ensures old(state) == Closed ==> View() == old(View()).(failures := 0)
      ensures old(state) == HalfOpen ==>
        if old(successCount) + 1 >= config.successThreshold then
          state == Closed && failureCount == successCount == halfOpenAllowedCount == 0
        else View() == old(View()).(successes := old(successCount) + 1)
    {
      if state == HalfOpen {
        successCount := successCount + 1;
        if successCount >= config.successThreshold {
          DoClose();
        }
      } else if state == Closed {
        failureCount := 0;
      }
    }

    method RecordFailure(now: real)
      modifies this
      ensures View() == Fail(config, old(View()), now)
      ensures lastFailureTime == now && successCount == old(successCount)
      ensures old(state) == HalfOpen ==> state == Open && failureCount == old(failureCount)
      ensures old(state) != HalfOpen ==> failureCount == old(failureCount) + 1
      ensures old(state) != HalfOpen ==>
        state == if failureCount >= config.failureThreshold then Open else old(state)
    {
      lastFailureTime := now;
      if state == HalfOpen {
        DoOpen();
        return;
      }
      failureCount := failureCount + 1;
      if failureCount >= config.failureThreshold {
        DoOpen();
      }
    }

    method ShouldAllow(now: real) returns (allow: bool)
      modifies this
      ensures allow <==> Admits(config, old(View()), now)
      ensures View() == Ask(config, old(View()), now)
      ensures allow <==>
        || old(state) == Closed
        || (old(state) == Open && now - old(lastFailureTime) >= config.recoveryTimeout)
        || (old(state) == HalfOpen && old(halfOpenAllowedCount) < config.successThreshold)
      ensures !allow || old(state) == Closed ==> View() == old(View())
      ensures allow && old(state) == Open ==> state == HalfOpen && successCount == 0 && halfOpenAllowedCount == 1
      ensures allow && old(state) == HalfOpen ==> View() == old(View()).(allowed := old(halfOpenAllowedCount) + 1)
    {
      if state == Closed {
        return true;
      }
      if state == Open {
        if now - lastFailureTime >= config.recoveryTimeout {
          state, successCount, halfOpenAllowedCount := HalfOpen, 0, 1;
          return true;
        }
        return false;
      }
      if halfOpenAllowedCount < config.successThreshold {
        halfOpenAllowedCount := halfOpenAllowedCount + 1;
        return true;
      }
      return false;
    }

    method DoOpen()
      modifies this
      ensures View() == Opened(old(View()))
    {
      state := Open;
      halfOpenAllowedCount := 0;
    }

    method DoClose()
      modifies this
      ensures View() == ClosedAgain(old(View()))
    {
      state := Closed;
      failureCount, successCount, halfOpenAllowedCount := 0, 0, 0;
    }
  }

  // ---------------------------------------------------------------- runs with concurrent calls

  /** Enter asks for admission; Exit records an admitted call's outcome, as __aexit__ does for every
    exception; Drop is a call that leaves without recording, as a cancelled call() does. */
  datatype Event = Enter(now: real) | Exit(ok: bool, now: real) | Drop

  datatype Entry = Entry(ev: Event, before: Mode, admitted: bool, after: Mode)

  datatype System = System(breaker: Breaker, inFlight: nat, log: seq<Entry>)

  function Logged(s: System, b: Breaker, inFlight: nat, ev: Event, admitted: bool): System {
    System(b, inFlight, s.log + [Entry(ev, s.breaker.mode, admitted, b.mode)])
  }

  function Step(cfg: Config, s: System, ev: Event): System {
    match ev
    case Enter(now) =>
      var ok := Admits(cfg, s.breaker, now);
      Logged(s, Ask(cfg, s.breaker, now), s.inFlight + if ok then 1 else 0, ev, ok)
    case Exit(ok, now) =>
      if s.inFlight == 0 then s
      else Logged(s, if ok then Succeed(cfg, s.breaker) else Fail(cfg, s.breaker, now), s.inFlight - 1, ev, false)
    case Drop =>
      if s.inFlight == 0 then s else Logged(s, s.breaker, s.inFlight - 1, ev, false)
  }

  function ExecFrom(cfg: Config, s: System, evs: seq<Event>): System {
    if evs == [] then s else Step(cfg, ExecFrom(cfg, s, evs[..|evs|-1]), evs[|evs|-1])
  }

  function Exec(cfg: Config, evs: seq<Event>): System { ExecFrom(cfg, System(Init(), 0, []), evs) }

  // ---------------------------------------------------------------- reading the log

  /** Failures recorded since the last recorded success (a close is a recorded success too). */
  function FailureStreak(log: seq<Entry>): nat {
    if log == [] then 0
    else
      var last := log[|log|-1];
      if last.ev.Exit? && last.ev.ok then 0
      else FailureStreak(log[..|log|-1]) + if last.ev.Exit? then 1 else 0
  }

  function LatestFailure(log: seq<Entry>): Option<real> {
    if log == [] then None
    else
      var last := log[|log|-1];
      if last.ev.Exit? && !last.ev.ok then Some(last.ev.now) else LatestFailure(log[..|log|-1])
  }

  predicate StartsEpisode(e: Entry) { e.before.Open? && e.after.HalfOpen? }

  /** Calls admitted since the latest half-open episode began. */
  function EpisodeAdmitted(log: seq<Entry>): nat {
    if log == [] then 0
    else
      var last := log[|log|-1];
      if StartsEpisode(last) then 1
      else EpisodeAdmitted(log[..|log|-1]) + if last.admitted then 1 else 0
  }

  /** Calls recorded with that outcome since the episode began. */
  function EpisodeRecorded(log: seq<Entry>, ok: bool): nat {
    if log == [] then 0
    else
      var last := log[|log|-1];
      if StartsEpisode(last) then 0
      else EpisodeRecorded(log[..|log|-1], ok) + if last.ev.Exit? && last.ev.ok == ok then 1 else 0
  }

  /** Calls dropped since the episode began. */
  function EpisodeDropped(log: seq<Entry>): nat {
    if log == [] then 0
    else
      var last := log[|log|-1];
      if StartsEpisode(last) then 0
      else EpisodeDropped(log[..|log|-1]) + if last.ev.Drop? then 1 else 0
  }

  // ---------------------------------------------------------------- what every step keeps

  ghost predicate ClosedOk(cfg: Config, s: System) {
    s.breaker.mode.Closed? ==>
      s.breaker.failures == FailureStreak(s.log) < Max(1, cfg.failureThreshold)
  }

  ghost predicate OpenOk(s: System) {
    && (s.breaker.mode.Open? ==> LatestFailure(s.log).Some?)
    && (LatestFailure(s.log).Some? ==> s.breaker.lastFailure == LatestFailure(s.log).value)
  }

  ghost predicate HalfOpenOk(cfg: Config, s: System) {
    s.breaker.mode.HalfOpen? ==>
      && s.breaker.successes == EpisodeRecorded(s.log, true) < Max(1, cfg.successThreshold)
      && EpisodeRecorded(s.log, false) == 0
      && 1 <= s.breaker.allowed == EpisodeAdmitted(s.log) <= Max(1, cfg.successThreshold)
      && s.breaker.allowed <= s.breaker.successes + s.inFlight + EpisodeDropped(s.log)
  }

  ghost predicate Inv(cfg: Config, s: System) {
    ClosedOk(cfg, s) && OpenOk(s) && HalfOpenOk(cfg, s)
  }

  lemma StepKeepsInv(cfg: Config, s: System, ev: Event)
    requires Inv(cfg, s)
    ensures Inv(cfg, Step(cfg, s, ev))
  {
    var s' := Step(cfg, s, ev);
    if s' != s {
      assert s'.log[..|s.log|] == s.log;
    }
  }

  lemma {:induction false} Reachable(cfg: Config, evs: seq<Event>)
    ensures Inv(cfg, Exec(cfg, evs))
  {
    if evs != [] {
      Reachable(cfg, evs[..|evs|-1]);
      StepKeepsInv(cfg, Exec(cfg, evs[..|evs|-1]), evs[|evs|-1]);
    }
  }

  // ---------------------------------------------------------------- theorems over all runs

  /** In CLOSED the failure counter is the number of failures since the last success, below the threshold. */
  lemma {:induction false} ClosedCountsFailures(cfg: Config, evs: seq<Event>)
    requires Exec(cfg, evs).breaker.mode.Closed?
    ensures var s := Exec(cfg, evs); s.breaker.failures == FailureStreak(s.log) < Max(1, cfg.failureThreshold)
  {
    Reachable(cfg, evs);
  }

  /** From OPEN a call is let through exactly when recovery_timeout has passed since the latest
    failure, stale failures included. */
  lemma {:induction false} OpenWaitsForRecovery(cfg: Config, evs: seq<Event>, now: real)
    requires Exec(cfg, evs).breaker.mode.Open?
    ensures var s := Exec(cfg, evs);
      && LatestFailure(s.log).Some?
      && (Admits(cfg, s.breaker, now) <==> now - LatestFailure(s.log).value >= cfg.recoveryTimeout)
  {
    Reachable(cfg, evs);
  }

  /** A half-open episode admits at most success_threshold calls (one, if that is not positive). */
  lemma EpisodeIsBounded(cfg: Config, evs: seq<Event>)
    requires Exec(cfg, evs).breaker.mode.HalfOpen?
    ensures EpisodeAdmitted(Exec(cfg, evs).log) <= Max(1, cfg.successThreshold)
  {
    Reachable(cfg, evs);
  }

  /** The step that closes the breaker is the threshold-th success of its episode, with no failure. */
  lemma ClosesOnlyAfterSuccesses(cfg: Config, evs: seq<Event>, ev: Event)
    requires Exec(cfg, evs).breaker.mode.HalfOpen?
    requires Step(cfg, Exec(cfg, evs), ev).breaker.mode.Closed?
    ensures var s' := Step(cfg, Exec(cfg, evs), ev);
      && EpisodeRecorded(s'.log, true) == Max(1, cfg.successThreshold)
      && EpisodeRecorded(s'.log, false) == 0
  {
    Reachable(cfg, evs);
    var s, s' := Exec(cfg, evs), Step(cfg, Exec(cfg, evs), ev);
    assert s'.log[..|s.log|] == s.log;
  }

  /** The mode follows the log alone: CLOSED opens at the failure that completes a streak, OPEN gives way only to
    an admitted call once recovery_timeout has passed since the latest failure, and HALF_OPEN opens at any
    failure and closes at the success that completes the episode. Nothing else changes the mode. */
  lemma {:induction false} ModeFollowsLog(cfg: Config, evs: seq<Event>, ev: Event)
    ensures var s, s' := Exec(cfg, evs), Step(cfg, Exec(cfg, evs), ev);
      var failed, succeeded := ev.Exit? && !ev.ok && s.inFlight > 0, ev.Exit? && ev.ok && s.inFlight > 0;
      match s.breaker.mode
      case Closed =>
        s'.breaker.mode == if failed && FailureStreak(s'.log) >= cfg.failureThreshold then Open else Closed
      case Open =>
        && LatestFailure(s.log).Some?
        && s'.breaker.mode ==
             if ev.Enter? && ev.now - LatestFailure(s.log).value >= cfg.recoveryTimeout then HalfOpen else Open
      case HalfOpen =>
        s'.breaker.mode ==
          if failed then Open
          else if succeeded && EpisodeRecorded(s'.log, true) >= cfg.successThreshold then Closed
          else HalfOpen
  {
    Reachable(cfg, evs);
    var s, s' := Exec(cfg, evs), Step(cfg, Exec(cfg, evs), ev);
    if s' != s {
      assert s'.log[..|s.log|] == s.log;
    }
    hide Exec;
  }

  /** So does admission. */
  lemma {:induction false} AdmissionFollowsLog(cfg: Config, evs: seq<Event>, now: real)
    ensures var s, s' := Exec(cfg, evs), Step(cfg, Exec(cfg, evs), Enter(now));
      && (s.breaker.mode.Open? ==> LatestFailure(s.log).Some?)
      && s'.log[|s'.log|-1].admitted == (
           match s.breaker.mode
           case Closed => true
           case Open => now - LatestFailure(s.log).value >= cfg.recoveryTimeout
           case HalfOpen => EpisodeAdmitted(s.log) < cfg.successThreshold)
      && s'.inFlight == s.inFlight + if s'.log[|s'.log|-1].admitted then 1 else 0
  {
    Reachable(cfg, evs);
    hide Exec;
  }

  lemma ExecNext(cfg: Config, evs: seq<Event>, k: nat)
    requires k < |evs|
    ensures Exec(cfg, evs[..k + 1]) == Step(cfg, Exec(cfg, evs[..k]), evs[k])
  {
    assert evs[..k + 1][..k] == evs[..k];
  }

  lemma NoEntryNoCall(cfg: Config, s: System, ev: Event)
    requires !ev.Enter?
    ensures Step(cfg, s, ev).inFlight <= s.inFlight
  {
  }

  /** A time at which recovery_timeout has not yet passed since the latest failure of the log. */
  predicate TooEarly(cfg: Config, log: seq<Entry>, now: real) {
    LatestFailure(log).Some? && now - LatestFailure(log).value < cfg.recoveryTimeout
  }

  /** From the moment it opens, a breaker stays open and admits nothing until recovery_timeout has passed since
    the latest failure, whatever stale calls record meanwhile. */
  lemma {:induction false} NothingAdmittedTooEarly(cfg: Config, evs: seq<Event>, i: nat, j: nat)
    requires i <= j <= |evs| && Exec(cfg, evs[..i]).breaker.mode.Open?
    requires forall x :: i <= x < j && evs[x].Enter? ==> TooEarly(cfg, Exec(cfg, evs[..x]).log, evs[x].now)
    ensures Exec(cfg, evs[..j]).breaker.mode.Open?
    ensures forall x :: i <= x < j ==> Exec(cfg, evs[..x + 1]).inFlight <= Exec(cfg, evs[..x]).inFlight
    decreases j
  {
    hide Exec, Step, LatestFailure;
    if i < j {
      NothingAdmittedTooEarly(cfg, evs, i, j - 1);
      ExecNext(cfg, evs, j - 1);
      ModeFollowsLog(cfg, evs[..j-1], evs[j-1]);
      if evs[j-1].Enter? {
        AdmissionFollowsLog(cfg, evs[..j-1], evs[j-1].now);
      } else {
        NoEntryNoCall(cfg, Exec(cfg, evs[..j-1]), evs[j-1]);
      }
    }
  }

  ghost predicate RecordsAll(evs: seq<Event>) { forall i :: 0 <= i < |evs| ==> !evs[i].Drop? }

  lemma {:induction false} NothingDropped(cfg: Config, evs: seq<Event>)
    requires RecordsAll(evs)
    ensures EpisodeDropped(Exec(cfg, evs).log) == 0
  {
    if evs != [] {
      var init, s' := Exec(cfg, evs[..|evs|-1]), Exec(cfg, evs);
      NothingDropped(cfg, evs[..|evs|-1]);
      if s' != init {
        assert s'.log[..|init.log|] == init.log;
      }
    }
  }

  /** The breaker never locks out: when every call records its outcome and none is in flight, a call is
    admitted now, or from OPEN as soon as recovery_timeout has passed since the latest failure. */
  lemma NeverLocksOut(cfg: Config, evs: seq<Event>, now: real)
    requires RecordsAll(evs) && Exec(cfg, evs).inFlight == 0
    requires var s := Exec(cfg, evs);
      s.breaker.mode.Open? && LatestFailure(s.log).Some? ==> now >= LatestFailure(s.log).value + cfg.recoveryTimeout
    ensures Admits(cfg, Exec(cfg, evs).breaker, now)
  {
    Reachable(cfg, evs);
    NothingDropped(cfg, evs);
  }

  // ---------------------------------------------------------------- where dropped calls lead

  ghost predicate LockedOut(cfg: Config, b: Breaker) { forall now :: !Admits(cfg, b, now) }

  /** With none in flight, a breaker is locked out exactly when it is in a half-open episode that has admitted
    its full quota, and that takes a dropped call for every admission without a success. */
  lemma LockedOutIff(cfg: Config, evs: seq<Event>)
    requires Exec(cfg, evs).inFlight == 0
    ensures var s := Exec(cfg, evs);
      && (LockedOut(cfg, s.breaker) <==>
           s.breaker.mode.HalfOpen? && EpisodeAdmitted(s.log) == Max(1, cfg.successThreshold))
      && (LockedOut(cfg, s.breaker) ==>
           EpisodeDropped(s.log) >= Max(1, cfg.successThreshold) - EpisodeRecorded(s.log, true) > 0)
  {
    Reachable(cfg, evs);
    var s := Exec(cfg, evs);
    if s.breaker.mode.Open? {
      assert Admits(cfg, s.breaker, s.breaker.lastFailure + cfg.recoveryTimeout);
    } else if s.breaker.mode.Closed? {
      assert Admits(cfg, s.breaker, 0.0);
    } else if LockedOut(cfg, s.breaker) {
      assert !Admits(cfg, s.breaker, 0.0);
    }
  }

  /** A locked-out breaker with none in flight stays as it is, whatever happens. */
  lemma {:induction false} LockoutIsForever(cfg: Config, s: System, evs: seq<Event>)
    requires LockedOut(cfg, s.breaker) && s.inFlight == 0
    ensures var s' := ExecFrom(cfg, s, evs); s'.breaker == s.breaker && s'.inFlight == 0
  {
    if evs != [] {
      LockoutIsForever(cfg, s, evs[..|evs|-1]);
      var ev := evs[|evs|-1];
      if ev.Enter? {
        assert !Admits(cfg, s.breaker, ev.now);
      }
    }
  }

  lemma ExecTwo(cfg: Config, evs: seq<Event>, a: Event, b: Event)
    ensures Exec(cfg, evs + [a, b]) == Step(cfg, Step(cfg, Exec(cfg, evs), a), b)
  {
    var all := evs + [a, b];
    assert all[..|all|-1] == evs + [a] && (evs + [a])[..|evs|] == evs;
    assert Exec(cfg, evs + [a]) == Step(cfg, Exec(cfg, evs), a);
  }

  /** Failures at time 0.0, one call after the other. */
  lemma {:induction false} FailuresOpen(cfg: Config, n: nat) returns (evs: seq<Event>)
    requires n <= Max(1, cfg.failureThreshold)
    ensures var s := Exec(cfg, evs);
      s.inFlight == 0 && s.breaker ==
        if n < Max(1, cfg.failureThreshold) then Breaker(Closed, n, 0, 0.0, 0) else Breaker(Open, n, 0, 0.0, 0)
  {
    evs := [];
    if n > 0 {
      evs := FailuresOpen(cfg, n - 1);
      ExecTwo(cfg, evs, Enter(0.0), Exit(false, 0.0));
      evs := evs + [Enter(0.0), Exit(false, 0.0)];
    }
  }

  /** Then probes after recovery, each of them cancelled. */
  lemma {:induction false} ProbesUseQuota(cfg: Config, n: nat) returns (evs: seq<Event>)
    requires 1 <= n <= Max(1, cfg.successThreshold)
    ensures var s := Exec(cfg, evs);
      s.inFlight == 0 && s.breaker == Breaker(HalfOpen, Max(1, cfg.failureThreshold), 0, 0.0, n)
  {
    if n == 1 {
      evs := FailuresOpen(cfg, Max(1, cfg.failureThreshold));
    } else {
      evs := ProbesUseQuota(cfg, n - 1);
    }
    ExecTwo(cfg, evs, Enter(cfg.recoveryTimeout), Drop);
    evs := evs + [Enter(cfg.recoveryTimeout), Drop];
  }

  /** Whatever the configuration, some run with cancelled probes locks the breaker out. With NeverLocksOut:
    recording every outcome is exactly what keeps a breaker usable. */
  lemma CancelledProbesLockOut(cfg: Config) returns (evs: seq<Event>)
    ensures Exec(cfg, evs).inFlight == 0 && LockedOut(cfg, Exec(cfg, evs).breaker)
    ensures !RecordsAll(evs)
  {
    evs := ProbesUseQuota(cfg, Max(1, cfg.successThreshold));
    if RecordsAll(evs) {
      var s := Exec(cfg, evs);
      NeverLocksOut(cfg, evs, 0.0);
    }
  }
}
