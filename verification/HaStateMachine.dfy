/** HAStateMachine: failures, recovery attempts and the states they lead to. */
module HaStateMachines {
  import Divisibility

  datatype HAState = NORMAL | DEGRADED | SAFE_MODE | RECOVERY_IN_PROGRESS | MANUAL_INTERVENTION | SHUTDOWN

  datatype Failure =
    | RT_PROCESS_CRASH
    | DEADLINE_MISS_CONSECUTIVE
    | ETHERCAT_COMM_FAILURE
    | SENSOR_FAILURE
    | MOTOR_OVERCURRENT
    | DATASTORE_CORRUPTION
    | MEMORY_EXHAUSTION
    | UNKNOWN

  datatype Action =
    | RESTART_RT_PROCESS
    | ENTER_SAFE_MODE
    | NOTIFY_AND_WAIT
    | SHUTDOWN_SYSTEM
    | RELOAD_CONFIGURATION
    | NONE

  predicate ValidTransition(from: HAState, to: HAState) {
    from == to ||
    match from
    case NORMAL => to == DEGRADED || to == RECOVERY_IN_PROGRESS || to == SAFE_MODE || to == SHUTDOWN
    case DEGRADED => to == NORMAL || to == RECOVERY_IN_PROGRESS || to == SHUTDOWN
    case SAFE_MODE => to == RECOVERY_IN_PROGRESS || to == MANUAL_INTERVENTION || to == SHUTDOWN
    case RECOVERY_IN_PROGRESS => to == NORMAL || to == SAFE_MODE || to == MANUAL_INTERVENTION || to == SHUTDOWN
    case MANUAL_INTERVENTION => to == NORMAL || to == SHUTDOWN
    case SHUTDOWN => false
  }

  predicate Critical(f: Failure) {
    f == DEADLINE_MISS_CONSECUTIVE || f == ETHERCAT_COMM_FAILURE || f == MOTOR_OVERCURRENT
  }

  function TargetState(f: Failure, a: Action): HAState {
    if Critical(f) then SAFE_MODE
    else
      match a
      case ENTER_SAFE_MODE => SAFE_MODE
      case RESTART_RT_PROCESS => RECOVERY_IN_PROGRESS
      case RELOAD_CONFIGURATION => RECOVERY_IN_PROGRESS
      case NOTIFY_AND_WAIT => MANUAL_INTERVENTION
      case SHUTDOWN_SYSTEM => SHUTDOWN
      case NONE => DEGRADED
  }

  /** failures is the number of failed recoveries since the last reported success. */
  datatype State = State(current: HAState, previous: HAState, attempts: nat, failures: nat)

  const INITIAL := State(NORMAL, NORMAL, 0, 0)

  function TransitionTo(s: State, to: HAState): State {
    if ValidTransition(s.current, to) then s.(current := to, previous := s.current) else s
  }

  function RecoveryFailure(s: State, max: nat): State {
    var s1 := s.(attempts := s.attempts + 1, failures := s.failures + 1);
    if s1.attempts >= max then TransitionTo(s1.(attempts := 0), MANUAL_INTERVENTION) else s1
  }

  function RecoverySuccess(s: State): State {
    TransitionTo(s.(attempts := 0, failures := 0), NORMAL)
  }

  /** done says whether the recovery action, left to a callback, succeeded. */
  function HandleFailure(s: State, max: nat, policies: map<Failure, Action>, f: Failure, done: bool): State {
    if f !in policies then s
    else if !done then RecoveryFailure(s, max)
    else TransitionTo(s, TargetState(f, policies[f]))
  }

  datatype Event =
    | DoFailure(f: Failure, done: bool)
    | DoRecoveryFailure
    | DoRecoverySuccess
    | DoTransition(to: HAState)

  function Next(s: State, max: nat, policies: map<Failure, Action>, e: Event): State {
    match e
    case DoFailure(f, done) => HandleFailure(s, max, policies, f, done)
    case DoRecoveryFailure => RecoveryFailure(s, max)
    case DoRecoverySuccess => RecoverySuccess(s)
    case DoTransition(to) => TransitionTo(s, to)
  }

  ghost predicate Steps(s: State, max: nat, policies: map<Failure, Action>, es: seq<Event>, t: State)
    decreases es
  {
    if es == [] then s == t else Steps(Next(s, max, policies, es[0]), max, policies, es[1..], t)
  }

  // ----- attempts -----

  /** A limit of zero acts like one of one. */
  function Limit(max: nat): nat { if max == 0 then 1 else max }

  ghost predicate Inv(s: State, max: nat) {
    && s.attempts == s.failures % Limit(max)
    && ValidTransition(s.previous, s.current)
  }

  lemma FailureKeepsInv(s: State, max: nat)
    requires Inv(s, max)
    ensures Inv(RecoveryFailure(s, max), max)
  {
    Divisibility.SuccMod(s.failures, Limit(max));
  }

  lemma StepKeepsInv(s: State, max: nat, policies: map<Failure, Action>, e: Event)
    requires Inv(s, max)
    ensures Inv(Next(s, max, policies, e), max)
  {
    if e.DoRecoveryFailure? || (e.DoFailure? && !e.done) {
      FailureKeepsInv(s, max);
    }
  }

  lemma {:induction false} RunKeepsInv(s: State, max: nat, policies: map<Failure, Action>, es: seq<Event>, t: State)
    requires Inv(s, max) && Steps(s, max, policies, es, t)
    ensures Inv(t, max)
    decreases es
  {
    if es != [] {
      StepKeepsInv(s, max, policies, es[0]);
      RunKeepsInv(Next(s, max, policies, es[0]), max, policies, es[1..], t);
    }
  }

  /** After every run the attempt counter is the number of failures since the last success, modulo the limit, and
      the last change was a valid one. */
  lemma AttemptsCountFailures(max: nat, policies: map<Failure, Action>, es: seq<Event>, s: State)
    requires Steps(INITIAL, max, policies, es, s)
    ensures s.attempts == s.failures % Limit(max) && s.attempts < Limit(max)
    ensures ValidTransition(s.previous, s.current)
  {
    RunKeepsInv(INITIAL, max, policies, es, s);
  }

  // ----- manual intervention -----

  function Fail(s: State, max: nat, n: nat): State
    decreases n
  {
    if n == 0 then s else Fail(RecoveryFailure(s, max), max, n - 1)
  }

  predicate CanHandOver(s: HAState) {
    s == SAFE_MODE || s == RECOVERY_IN_PROGRESS || s == MANUAL_INTERVENTION
  }

  lemma {:induction false} FailsUntilLimit(s: State, max: nat, n: nat)
    requires n >= 1 && s.attempts + n == Limit(max)
    ensures Fail(s, max, n).current == if CanHandOver(s.current) then MANUAL_INTERVENTION else s.current
    ensures Fail(s, max, n).attempts == 0
    decreases n
  {
    var t := RecoveryFailure(s, max);
    if n > 1 {
      FailsUntilLimit(t, max, n - 1);
    } else {
      assert Fail(t, max, 0) == t;
    }
  }

  /** The failures that use up the attempts end in MANUAL_INTERVENTION exactly from SAFE_MODE, RECOVERY_IN_PROGRESS
      and MANUAL_INTERVENTION itself: from NORMAL and DEGRADED nothing happens but the count starting over. */
  lemma ManualAfterLimitIff(s: State, max: nat)
    requires Inv(s, max)
    ensures var t := Fail(s, max, Limit(max) - s.attempts);
            (t.current == MANUAL_INTERVENTION <==> CanHandOver(s.current)) && t.attempts == 0
  {
    FailsUntilLimit(s, max, Limit(max) - s.attempts);
  }

  /** A critical failure whose action succeeded ends in SAFE_MODE exactly from NORMAL, RECOVERY_IN_PROGRESS and
      SAFE_MODE itself, whatever the policy says. */
  lemma CriticalReachesSafeModeIff(s: State, max: nat, policies: map<Failure, Action>, f: Failure)
    requires f == DEADLINE_MISS_CONSECUTIVE || f == ETHERCAT_COMM_FAILURE || f == MOTOR_OVERCURRENT
    requires f in policies
    ensures HandleFailure(s, max, policies, f, true).current == SAFE_MODE <==>
            (s.current == NORMAL || s.current == RECOVERY_IN_PROGRESS || s.current == SAFE_MODE)
  {}

  /** Where every other failure leads once its action succeeded, state by state: where the action's own state cannot be
      entered, the state stays what it was. */
  lemma ActionOutcome(s: State, max: nat, policies: map<Failure, Action>, f: Failure)
    requires f != DEADLINE_MISS_CONSECUTIVE && f != ETHERCAT_COMM_FAILURE && f != MOTOR_OVERCURRENT
    requires f in policies
    ensures var c, t, a := s.current, HandleFailure(s, max, policies, f, true).current, policies[f];
            && (a == ENTER_SAFE_MODE ==>
                  t == if c == NORMAL || c == RECOVERY_IN_PROGRESS then SAFE_MODE else c)
            && (a == RESTART_RT_PROCESS || a == RELOAD_CONFIGURATION ==>
                  t == if c == NORMAL || c == DEGRADED || c == SAFE_MODE then RECOVERY_IN_PROGRESS else c)
            && (a == NOTIFY_AND_WAIT ==>
                  t == if c == SAFE_MODE || c == RECOVERY_IN_PROGRESS then MANUAL_INTERVENTION else c)
            && (a == SHUTDOWN_SYSTEM ==> t == SHUTDOWN)
            && (a == NONE ==> t == if c == NORMAL then DEGRADED else c)
  {}

  /** A reported recovery ends in NORMAL exactly from the states that can return to it, and forgets the attempts. */
  lemma RecoveryOutcome(s: State)
    ensures var t := RecoverySuccess(s);
            && t.attempts == 0
            && t.current == (if s.current == DEGRADED || s.current == RECOVERY_IN_PROGRESS ||
                                s.current == MANUAL_INTERVENTION then NORMAL else s.current)
  {}

  /** Whatever fails, only an operator leaves MANUAL_INTERVENTION other than by shutdown. */
  lemma {:induction false} FailuresStayManual(
    s: State, max: nat, policies: map<Failure, Action>, es: seq<Event>, t: State)
    requires Steps(s, max, policies, es, t)
    requires s.current == MANUAL_INTERVENTION || s.current == SHUTDOWN
    requires forall e :: e in es ==> e.DoFailure? || e.DoRecoveryFailure?
    ensures t.current == MANUAL_INTERVENTION || t.current == SHUTDOWN
    ensures s.current == SHUTDOWN ==> t.current == SHUTDOWN
    decreases es
  {
    if es != [] {
      assert es[0] in es;
      FailuresStayManual(Next(s, max, policies, es[0]), max, policies, es[1..], t);
    }
  }

  lemma {:induction false} ShutdownIsFinal(
    s: State, max: nat, policies: map<Failure, Action>, es: seq<Event>, t: State)
    requires Steps(s, max, policies, es, t) && s.current == SHUTDOWN
    ensures t.current == SHUTDOWN
    decreases es
  {
    if es != [] {
      ShutdownIsFinal(Next(s, max, policies, es[0]), max, policies, es[1..], t);
    }
  }

  class HAStateMachine {
    const max: nat
    const policies: map<Failure, Action>
    var current: HAState
    var previous: HAState
    var attempts: nat
    ghost var failures: nat

    ghost function View(): State
      reads this
    {
      State(current, previous, attempts, failures)
    }

    constructor (max: nat, policies: map<Failure, Action>)
      ensures this.max == max && this.policies == policies && View() == INITIAL && Inv(View(), max)
    {
      this.max, this.policies := max, policies;
      current, previous, attempts, failures := NORMAL, NORMAL, 0, 0;
    }

    method TransitionTo(to: HAState) returns (ok: bool)
      modifies this
      ensures View() == Next(old(View()), max, policies, DoTransition(to))
      ensures ok <==> ValidTransition(old(current), to)
      ensures current == (if ok then to else old(current)) && previous == (if ok then old(current) else old(previous))
      ensures old(Inv(View(), max)) ==> Inv(View(), max)
    {
      if !ValidTransition(current, to) {
        return false;
      }
      previous := current;
      current := to;
      return true;
    }

    method ReportRecoverySuccess() returns (ok: bool)
      requires Inv(View(), max)
      modifies this
      ensures View() == Next(old(View()), max, policies, DoRecoverySuccess) && Inv(View(), max)
      ensures ok <==> current == NORMAL
    {
      StepKeepsInv(View(), max, policies, DoRecoverySuccess);
      attempts, failures := 0, 0;
      ok := TransitionTo(NORMAL);
    }

    /** Fails only when the limit is reached in a state that cannot hand over. */
    method ReportRecoveryFailure() returns (ok: bool)
      requires Inv(View(), max)
      modifies this
      ensures View() == Next(old(View()), max, policies, DoRecoveryFailure) && Inv(View(), max)
      ensures ok <==> old(attempts) + 1 < max || CanHandOver(old(current))
    {
      FailureKeepsInv(View(), max);
      attempts, failures := attempts + 1, failures + 1;
      if attempts >= max {
        attempts := 0;
        ok := TransitionTo(MANUAL_INTERVENTION);
        return;
      }
      return true;
    }

    method HandleFailure(f: Failure, done: bool) returns (ok: bool)
      requires Inv(View(), max)
      modifies this
      ensures View() == Next(old(View()), max, policies, DoFailure(f, done)) && Inv(View(), max)
      ensures ok <==> f in policies && if done then current == TargetState(f, policies[f])
                                       else old(attempts) + 1 < max || CanHandOver(old(current))
    {
      if f !in policies {
        return false;
      }
      if !done {
        ok := ReportRecoveryFailure();
        return;
      }
      ok := TransitionTo(TargetState(f, policies[f]));
    }
  }
}
