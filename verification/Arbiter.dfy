/** BehaviorArbiter: one behaviour runs at a time; more urgent requests may preempt it. The arbiter's own
    state is modelled together with what it did: the commands it gave to tasks, the starts, and what became
    of every accepted request. */
module Arbiter {
  import opened Common
  import opened PriorityLevels

  datatype Mode = BOOT | INIT | STANDBY | MANUAL | READY | AUTO | FAULT | MAINT | CHARGING

  predicate ValidTransition(from: Mode, to: Mode) {
    to == FAULT ||
    match from
    case BOOT => to == INIT
    case INIT => to == STANDBY
    case STANDBY => to == MANUAL || to == READY || to == AUTO || to == MAINT
    case MANUAL => to == STANDBY
    case READY => to == AUTO || to == STANDBY
    case AUTO => to == READY || to == STANDBY || to == CHARGING
    case FAULT => to == STANDBY
    case MAINT => to == STANDBY
    case CHARGING => to == STANDBY || to == AUTO
  }

  /** The modes from which each mode can be entered. */
  lemma ModeSources(from: Mode)
    ensures !ValidTransition(from, BOOT) && ValidTransition(from, FAULT)
    ensures ValidTransition(from, INIT) <==> from == BOOT
    ensures ValidTransition(from, STANDBY) <==> from != BOOT && from != STANDBY
    ensures ValidTransition(from, MANUAL) <==> from == STANDBY
    ensures ValidTransition(from, READY) <==> from == STANDBY || from == AUTO
    ensures ValidTransition(from, AUTO) <==> from == STANDBY || from == READY || from == CHARGING
    ensures ValidTransition(from, MAINT) <==> from == STANDBY
    ensures ValidTransition(from, CHARGING) <==> from == AUTO
  {}

  /** A way from one mode to another, each change allowed. */
  predicate Path(modes: seq<Mode>, from: Mode, to: Mode) {
    && modes != [] && modes[0] == from && modes[|modes| - 1] == to
    && forall i :: 0 < i < |modes| ==> ValidTransition(modes[i - 1], modes[i])
  }

  lemma {:induction false} NoWayToBoot(modes: seq<Mode>, from: Mode, to: Mode)
    requires Path(modes, from, to)
    ensures to == BOOT ==> from == BOOT
    ensures to == INIT ==> from == INIT || from == BOOT
    decreases |modes|
  {
    if |modes| > 1 {
      NoWayToBoot(modes[..|modes| - 1], from, modes[|modes| - 2]);
      ModeSources(modes[|modes| - 2]);
    }
  }

  function FromStandby(to: Mode): seq<Mode> {
    if to == STANDBY then [STANDBY] else if to == CHARGING then [STANDBY, AUTO, CHARGING] else [STANDBY, to]
  }

  /** Which modes can be reached from which: every mode from every mode, except that nothing leads back to BOOT, and
      only BOOT to INIT. */
  lemma ModeReachableIff(from: Mode, to: Mode)
    ensures (exists modes :: Path(modes, from, to)) <==>
            from == to || (to == INIT && from == BOOT) || (to != INIT && to != BOOT)
  {
    if modes :| Path(modes, from, to) {
      NoWayToBoot(modes, from, to);
    }
    if from == to {
      assert Path([from], from, to);
    } else if to == INIT {
      assert from == BOOT ==> Path([from, to], from, to);
    } else if to != BOOT {
      var way := [from, FAULT] + FromStandby(to);
      assert Path(way, from, to);
    }
  }

  const EMERGENCY_STOP: nat := 0
  const SAFETY_ISSUE: nat := 1
  const URGENT_TASK: nat := 2
  const NORMAL_TASK: nat := 3

  predicate CanPreempt(priority: nat) { priority <= URGENT_TASK }

  datatype Status = IDLE | RUNNING | COMPLETED | FAILED | CANCELLED | PAUSED | SCHEDULED {
    predicate Over() { COMPLETED? || FAILED? || CANCELLED? }
  }

  datatype Request = Request(id: string, priority: nat, cancellable: bool)

  /** A command to a task, or its end as the arbiter sees it. */
  datatype Command = Start(id: string) | Stop(id: string) | Pause(id: string) | Resume(id: string) | End(id: string)

  datatype Begun = Begun(id: string, priority: nat, preempting: bool)

  /** How a request left the arbiter. */
  datatype Fate = Finished | Cancelled | Cleared | Discarded

  datatype State = State(
    mode: Mode, maintDue: bool, pending: Levels<Request>, current: Option<Request>,
    suspended: map<string, Request>, paused: bool, preemptions: nat,
    accepted: set<string>, fates: map<string, Fate>, log: seq<Command>, starts: seq<Begun>)

  const INITIAL := State(STANDBY, false, Empty(), None, map[], false, 0, {}, map[], [], [])

  function IdsOf(rs: seq<Request>): set<string> {
    if rs == [] then {} else {rs[0].id} + IdsOf(rs[1..])
  }

  function PendingIds(s: State): set<string> { IdsOf(s.pending.Flat()) }

  // ----- the operations -----

  function Settled(fates: map<string, Fate>, ids: set<string>, f: Fate): map<string, Fate> {
    fates + (map id | id in ids :: f)
  }

  function Settle(s: State, id: string, f: Fate): State {
    s.(fates := s.fates[id := f])
  }

  /** Clearing drops pending and suspended requests alike. */
  function Clear(s: State): State {
    s.(pending := Empty(), suspended := map[],
       fates := Settled(s.fates, PendingIds(s) + s.suspended.Keys, Cleared))
  }

  function StopCurrent(s: State): State {
    if s.current.Some? then s.(log := s.log + [Stop(s.current.value.id)]) else s
  }

  /** Entering FAULT stops the current task, which stays current, and clears everything waiting. */
  function Enter(s: State, to: Mode): State {
    if to == FAULT then Clear(StopCurrent(s)).(mode := to) else s.(mode := to)
  }

  function TransitionTo(s: State, to: Mode): State {
    if ValidTransition(s.mode, to) then Enter(s, to) else s
  }

  function CheckCritical(s: State, critical: bool): State {
    if critical && s.mode != FAULT then Enter(s, FAULT) else s
  }

  function CheckWarning(s: State, warning: bool): State {
    if warning && s.mode != MAINT && s.mode != FAULT && !s.maintDue then
      if s.current.Some? then s.(maintDue := true) else TransitionTo(s, MAINT)
    else s
  }

  function StartTask(s: State, r: Request, preempting: bool): State {
    s.(current := Some(r), log := s.log + [Start(r.id)], starts := s.starts + [Begun(r.id, r.priority, preempting)],
       preemptions := if preempting then s.preemptions + 1 else s.preemptions)
  }

  predicate ShouldPreempt(r: Request, current: Option<Request>) {
    current.Some? && r.priority < current.value.priority && CanPreempt(r.priority)
  }

  function CancelCurrent(s: State): State
    requires s.current.Some?
  {
    Settle(s.(log := s.log + [Stop(s.current.value.id)], current := None), s.current.value.id, Cancelled)
  }

  function SuspendCurrent(s: State): State
    requires s.current.Some?
  {
    var c := s.current.value;
    s.(log := s.log + [Pause(c.id)], suspended := s.suspended[c.id := c], current := None)
  }

  /** The three preemption branches. Without one of them the current behaviour is left where it is. */
  function MakeRoom(s: State, r: Request): State
    requires s.current.Some?
  {
    if r.priority == EMERGENCY_STOP then Enter(CancelCurrent(s), FAULT)
    else if r.priority == SAFETY_ISSUE || (r.priority == URGENT_TASK && s.current.value.priority >= NORMAL_TASK) then
      SuspendCurrent(s)
    else s
  }

  function Preempt(s: State, r: Request): State
    requires s.current.Some?
  {
    StartTask(MakeRoom(s, r), r, true)
  }

  function StartNext(s: State): State {
    var p := s.pending.Pop();
    var s1 := s.(pending := p.rest);
    if p.item.Some? then StartTask(s1, p.item.value, false) else s1
  }

  /** A busy tick takes the next request whether or not it may preempt. */
  function TickBusy(s: State): State
    requires s.current.Some?
  {
    var p := s.pending.Pop();
    var s1 := s.(pending := p.rest);
    if p.item.None? then s1
    else if ShouldPreempt(p.item.value, s.current) then Preempt(s1, p.item.value)
    else Settle(s1, p.item.value.id, Discarded)
  }

  function EndCurrent(s: State): State
    requires s.current.Some?
  {
    Settle(s.(current := None, log := s.log + [End(s.current.value.id)]), s.current.value.id, Finished)
  }

  function CheckAlarms(s: State, critical: bool, warning: bool): State {
    CheckWarning(CheckCritical(s, critical), warning)
  }

  /** The current task is over: a change to MAINT that waited for it comes before the next request. */
  function TickDone(s: State): State
    requires s.current.Some?
  {
    var s1 := EndCurrent(s);
    if s1.maintDue then TransitionTo(s1, MAINT).(maintDue := false) else StartNext(s1)
  }

  function Serve(s: State, status: Status): State {
    if s.paused then s
    else if s.current.None? then StartNext(s)
    else if status.Over() then TickDone(s)
    else TickBusy(s)
  }

  function Tick(s: State, critical: bool, warning: bool, status: Status): State {
    Serve(CheckAlarms(s, critical, warning), status)
  }

  /** An unknown priority is not accepted. */
  function RequestBehavior(s: State, r: Request): State {
    if r.priority < LEVELS then
      s.(pending := s.pending.Push(r.priority, r), accepted := s.accepted + {r.id})
    else s
  }

  function CancelBehavior(s: State, id: string): State {
    if s.current.Some? && s.current.value.id == id then
      if !s.current.value.cancellable then s
      else CancelCurrent(s)
    else if id in s.suspended then Settle(s.(suspended := s.suspended - {id}), id, Cancelled)
    else s
  }

  function PauseAll(s: State): State {
    if s.paused then s
    else s.(paused := true, log := if s.current.Some? then s.log + [Pause(s.current.value.id)] else s.log)
  }

  function ResumeAll(s: State): State {
    if !s.paused then s
    else s.(paused := false, log := if s.current.Some? then s.log + [Resume(s.current.value.id)] else s.log)
  }

  datatype Event =
    | DoRequest(r: Request)
    | DoTick(critical: bool, warning: bool, status: Status)
    | DoTransition(to: Mode)
    | DoClear
    | DoCancel(id: string)
    | DoPause
    | DoResume

  /** Behaviour ids are not reused. */
  predicate Enabled(s: State, e: Event) {
    e.DoRequest? ==> e.r.id !in s.accepted
  }

  function Next(s: State, e: Event): State {
    match e
    case DoRequest(r) => RequestBehavior(s, r)
    case DoTick(c, w, st) => Tick(s, c, w, st)
    case DoTransition(to) => TransitionTo(s, to)
    case DoClear => Clear(s)
    case DoCancel(id) => CancelBehavior(s, id)
    case DoPause => PauseAll(s)
    case DoResume => ResumeAll(s)
  }

  ghost predicate Steps(s: State, es: seq<Event>, t: State)
    decreases es
  {
    if es == [] then s == t else Enabled(s, es[0]) && Steps(Next(s, es[0]), es[1..], t)
  }

  // ----- what every operation keeps -----

  predicate DistinctRequests(rs: seq<Request>) {
    rs == [] || (rs[0].id !in IdsOf(rs[1..]) && DistinctRequests(rs[1..]))
  }

  function CurrentIds(s: State): set<string> {
    if s.current.Some? then {s.current.value.id} else {}
  }

  /** Every accepted request is in exactly one place. */
  ghost predicate Partition(s: State) {
    && DistinctRequests(s.pending.Flat())
    && s.accepted == PendingIds(s) + CurrentIds(s) + s.suspended.Keys + s.fates.Keys
    && PendingIds(s) !! CurrentIds(s) !! s.suspended.Keys !! s.fates.Keys
  }

  function Ahead(l: Levels<Request>, k: nat): seq<Request> {
    if k == 0 then [] else Ahead(l, k - 1) + l.Get(k - 1)
  }

  function Behind(l: Levels<Request>, k: nat): seq<Request>
    decreases LEVELS - k
  {
    if k >= LEVELS then [] else l.Get(k) + Behind(l, k + 1)
  }

  lemma FlatAhead(l: Levels<Request>)
    ensures l.Flat() == Ahead(l, LEVELS)
  {
    assert Ahead(l, 1) == l.emergency;
    assert Ahead(l, 2) == l.emergency + l.safety;
    assert Ahead(l, 3) == l.emergency + l.safety + l.urgent;
    assert Ahead(l, 4) == l.emergency + l.safety + l.urgent + l.normal;
  }

  lemma {:induction false} AheadBehind(l: Levels<Request>, k: nat)
    requires k <= LEVELS
    ensures Ahead(l, LEVELS) == Ahead(l, k) + Behind(l, k)
    decreases LEVELS - k
  {
    if k < LEVELS {
      AheadBehind(l, k + 1);
      Regroup(Ahead(l, k), l.Get(k), Behind(l, k + 1));
    }
  }

  lemma {:induction false} AheadSame(l: Levels<Request>, m: Levels<Request>, k: nat)
    requires forall j :: 0 <= j < k ==> l.Get(j) == m.Get(j)
    ensures Ahead(l, k) == Ahead(m, k)
  {
    if k > 0 {
      AheadSame(l, m, k - 1);
    }
  }

  lemma {:induction false} BehindSame(l: Levels<Request>, m: Levels<Request>, k: nat)
    requires forall j :: k <= j < LEVELS ==> l.Get(j) == m.Get(j)
    ensures Behind(l, k) == Behind(m, k)
    decreases LEVELS - k
  {
    if k < LEVELS {
      BehindSame(l, m, k + 1);
    }
  }

  lemma PushFlat(l: Levels<Request>, k: nat, r: Request) returns (a: seq<Request>, b: seq<Request>)
    requires k < LEVELS
    ensures l.Flat() == a + b && l.Push(k, r).Flat() == a + [r] + b
  {
    var m := l.Push(k, r);
    a, b := Ahead(l, k) + l.Get(k), Behind(l, k + 1);
    forall j: nat ensures m.Get(j) == if j == k then l.Get(k) + [r] else l.Get(j) {
      WithGet(l, k, l.Get(k) + [r], j);
    }
    AheadSame(l, m, k);
    BehindSame(l, m, k + 1);
    FlatAhead(l);
    FlatAhead(m);
    AheadBehind(l, k + 1);
    AheadBehind(m, k + 1);
    Regroup(Ahead(l, k), l.Get(k), [r]);
  }

  lemma IdsPopped(r: Request, rest: seq<Request>)
    ensures IdsOf([r] + rest) == IdsOf(rest) + {r.id}
    ensures DistinctRequests([r] + rest) <==> r.id !in IdsOf(rest) && DistinctRequests(rest)
  {
    assert ([r] + rest)[1..] == rest;
  }

  lemma {:induction false} IdsInserted(a: seq<Request>, r: Request, b: seq<Request>)
    requires DistinctRequests(a + b) && r.id !in IdsOf(a + b)
    ensures IdsOf(a + [r] + b) == IdsOf(a + b) + {r.id} && DistinctRequests(a + [r] + b)
    decreases a
  {
    if a == [] {
      assert a + b == b && a + [r] + b == [r] + b;
      IdsPopped(r, b);
    } else {
      var rest := a[1..];
      assert a + b == [a[0]] + (rest + b) && a + [r] + b == [a[0]] + (rest + [r] + b);
      IdsPopped(a[0], rest + b);
      IdsPopped(a[0], rest + [r] + b);
      IdsInserted(rest, r, b);
    }
  }

  lemma PopPending(s: State)
    requires Partition(s)
    ensures var p := s.pending.Pop();
            && DistinctRequests(p.rest.Flat())
            && (p.item.None? ==> IdsOf(p.rest.Flat()) == PendingIds(s))
            && (p.item.Some? ==>
                  PendingIds(s) == IdsOf(p.rest.Flat()) + {p.item.value.id} && p.item.value.id !in IdsOf(p.rest.Flat()))
  {
    PopFlat(s.pending);
    var p := s.pending.Pop();
    if p.item.Some? {
      IdsPopped(p.item.value, p.rest.Flat());
    }
  }

  lemma EmptyIds()
    ensures IdsOf(Empty<Request>().Flat()) == {}
  {}

  lemma ClearPartition(s: State)
    requires Partition(s)
    ensures Partition(Clear(s)) && PendingIds(Clear(s)) == {} && Clear(s).pending.Pop().item.None?
  {
    EmptyIds();
  }

  lemma EnterPartition(s: State, to: Mode)
    requires Partition(s)
    ensures Partition(Enter(s, to))
  {
    if to == FAULT {
      ClearPartition(StopCurrent(s));
    }
  }

  lemma TransitionPartition(s: State, to: Mode)
    requires Partition(s)
    ensures Partition(TransitionTo(s, to))
  {
    EnterPartition(s, to);
  }

  /** The places of the accepted requests while r, just taken, is in none of them. */
  ghost predicate Holding(s: State, r: Request) {
    && DistinctRequests(s.pending.Flat())
    && s.accepted == PendingIds(s) + {r.id} + CurrentIds(s) + s.suspended.Keys + s.fates.Keys
    && PendingIds(s) !! {r.id} !! CurrentIds(s) !! s.suspended.Keys !! s.fates.Keys
  }

  lemma StartPartition(s: State, r: Request, preempting: bool)
    requires Holding(s, r) && s.current.None?
    ensures Partition(StartTask(s, r, preempting))
  {}

  lemma StartNextPartition(s: State)
    requires Partition(s) && s.current.None?
    ensures Partition(StartNext(s))
  {
    PopPending(s);
    var p := s.pending.Pop();
    if p.item.Some? {
      StartPartition(s.(pending := p.rest), p.item.value, false);
    }
  }

  lemma FaultHolding(s: State, r: Request)
    requires Holding(s, r) && s.current.None?
    ensures Holding(Enter(s, FAULT), r)
  {
    EmptyIds();
  }

  lemma CancelHolding(s: State, r: Request)
    requires Holding(s, r) && s.current.Some?
    ensures Holding(CancelCurrent(s), r)
  {}

  lemma SuspendHolding(s: State, r: Request)
    requires Holding(s, r) && s.current.Some?
    ensures Holding(SuspendCurrent(s), r)
  {}

  lemma MakeRoomHolding(s: State, r: Request)
    requires Holding(s, r) && ShouldPreempt(r, s.current)
    ensures Holding(MakeRoom(s, r), r) && MakeRoom(s, r).current.None?
  {
    if r.priority == EMERGENCY_STOP {
      CancelHolding(s, r);
      FaultHolding(CancelCurrent(s), r);
    } else {
      SuspendHolding(s, r);
    }
  }

  lemma PreemptPartition(s: State, r: Request)
    requires Holding(s, r) && ShouldPreempt(r, s.current)
    ensures Partition(Preempt(s, r))
  {
    MakeRoomHolding(s, r);
    StartPartition(MakeRoom(s, r), r, true);
  }

  lemma PopHolding(s: State)
    requires Partition(s) && s.pending.Pop().item.Some?
    ensures Holding(s.(pending := s.pending.Pop().rest), s.pending.Pop().item.value)
  {
    PopPending(s);
  }

  lemma DiscardPartition(s: State, r: Request)
    requires Holding(s, r)
    ensures Partition(Settle(s, r.id, Discarded))
  {}

  lemma TickBusyPartition(s: State)
    requires Partition(s) && s.current.Some?
    ensures Partition(TickBusy(s))
  {
    var p := s.pending.Pop();
    if p.item.Some? {
      PopHolding(s);
      var s1 := s.(pending := p.rest);
      if ShouldPreempt(p.item.value, s.current) {
        PreemptPartition(s1, p.item.value);
      } else {
        DiscardPartition(s1, p.item.value);
      }
    }
  }

  lemma TickDonePartition(s: State)
    requires Partition(s) && s.current.Some?
    ensures Partition(TickDone(s))
  {
    var s1 := EndCurrent(s);
    assert Partition(s1);
    TransitionPartition(s1, MAINT);
    StartNextPartition(s1);
  }

  lemma AlarmsPartition(s: State, critical: bool, warning: bool)
    requires Partition(s)
    ensures Partition(CheckAlarms(s, critical, warning))
  {
    EnterPartition(s, FAULT);
    TransitionPartition(CheckCritical(s, critical), MAINT);
  }

  lemma ServePartition(s: State, status: Status)
    requires Partition(s)
    ensures Partition(Serve(s, status))
  {
    if s.current.None? {
      StartNextPartition(s);
    } else {
      TickDonePartition(s);
      TickBusyPartition(s);
    }
  }

  lemma TickPartition(s: State, critical: bool, warning: bool, status: Status)
    requires Partition(s)
    ensures Partition(Tick(s, critical, warning, status))
  {
    AlarmsPartition(s, critical, warning);
    ServePartition(CheckAlarms(s, critical, warning), status);
  }

  lemma RequestPartition(s: State, r: Request)
    requires Partition(s) && r.id !in s.accepted
    ensures Partition(RequestBehavior(s, r))
    ensures r.priority < LEVELS ==> PendingIds(RequestBehavior(s, r)) == PendingIds(s) + {r.id}
  {
    if r.priority < LEVELS {
      var a, b := PushFlat(s.pending, r.priority, r);
      IdsInserted(a, r, b);
    }
  }

  lemma CancelCurrentPartition(s: State)
    requires Partition(s) && s.current.Some?
    ensures Partition(CancelCurrent(s))
  {}

  lemma CancelSuspendedPartition(s: State, id: string)
    requires Partition(s) && id in s.suspended
    ensures Partition(Settle(s.(suspended := s.suspended - {id}), id, Cancelled))
  {}

  lemma CancelPartition(s: State, id: string)
    requires Partition(s)
    ensures Partition(CancelBehavior(s, id))
  {
    if s.current.Some? && s.current.value.id == id {
      CancelCurrentPartition(s);
    } else if id in s.suspended {
      CancelSuspendedPartition(s, id);
    }
  }

  lemma StepPartition(s: State, e: Event)
    requires Partition(s) && Enabled(s, e)
    ensures Partition(Next(s, e))
  {
    match e
    case DoRequest(r) => RequestPartition(s, r);
    case DoTick(c, w, st) => TickPartition(s, c, w, st);
    case DoTransition(to) => TransitionPartition(s, to);
    case DoClear => ClearPartition(s);
    case DoCancel(id) => CancelPartition(s, id);
    case DoPause =>
    case DoResume =>
  }

  // ----- one task at a time -----

  function Effect(running: set<string>, c: Command): set<string> {
    if c.Start? || c.Resume? then running + {c.id} else running - {c.id}
  }

  /** The tasks left running by a sequence of commands. */
  function Running(log: seq<Command>): set<string> {
    if log == [] then {} else Effect(Running(log[..|log| - 1]), log[|log| - 1])
  }

  /** Nothing is started or resumed while something runs. */
  ghost predicate OneAtATime(log: seq<Command>) {
    forall i :: 0 <= i < |log| && (log[i].Start? || log[i].Resume?) ==> Running(log[..i]) == {}
  }

  lemma OneMore(log: seq<Command>, c: Command)
    requires OneAtATime(log) && (c.Start? || c.Resume? ==> Running(log) == {})
    ensures OneAtATime(log + [c]) && Running(log + [c]) == Effect(Running(log), c)
  {
    var l := log + [c];
    assert l[..|log|] == log;
    forall i | 0 <= i < |l| && (l[i].Start? || l[i].Resume?) ensures Running(l[..i]) == {} {
      if i < |log| {
        assert l[..i] == log[..i];
      }
    }
  }

  ghost predicate Active(s: State) {
    && OneAtATime(s.log)
    && Running(s.log) <= CurrentIds(s)
    && (s.paused ==> Running(s.log) == {})
  }

  lemma EnterActive(s: State, to: Mode)
    requires Active(s)
    ensures Active(Enter(s, to))
  {
    if s.current.Some? {
      OneMore(s.log, Stop(s.current.value.id));
    }
  }

  lemma TransitionActive(s: State, to: Mode)
    requires Active(s)
    ensures Active(TransitionTo(s, to))
  {
    EnterActive(s, to);
  }

  ghost predicate Idle(s: State) {
    OneAtATime(s.log) && Running(s.log) == {} && !s.paused
  }

  lemma StartActive(s: State, r: Request, preempting: bool)
    requires Idle(s)
    ensures Active(StartTask(s, r, preempting))
  {
    OneMore(s.log, Start(r.id));
  }

  lemma MakeRoomIdle(s: State, r: Request)
    requires Active(s) && !s.paused && ShouldPreempt(r, s.current)
    ensures Idle(MakeRoom(s, r))
  {
    OneMore(s.log, Stop(s.current.value.id));
    OneMore(s.log, Pause(s.current.value.id));
  }

  lemma PreemptActive(s: State, r: Request)
    requires Active(s) && !s.paused && ShouldPreempt(r, s.current)
    ensures Active(Preempt(s, r))
  {
    MakeRoomIdle(s, r);
    StartActive(MakeRoom(s, r), r, true);
  }

  lemma StartNextActive(s: State)
    requires Active(s) && !s.paused && s.current.None?
    ensures Active(StartNext(s))
  {
    var p := s.pending.Pop();
    if p.item.Some? {
      StartActive(s.(pending := p.rest), p.item.value, false);
    }
  }

  lemma TickDoneActive(s: State)
    requires Active(s) && !s.paused && s.current.Some?
    ensures Active(TickDone(s))
  {
    OneMore(s.log, End(s.current.value.id));
    TransitionActive(EndCurrent(s), MAINT);
    StartNextActive(EndCurrent(s));
  }

  lemma TickBusyActive(s: State)
    requires Active(s) && !s.paused && s.current.Some?
    ensures Active(TickBusy(s))
  {
    var p := s.pending.Pop();
    if p.item.Some? && ShouldPreempt(p.item.value, s.current) {
      PreemptActive(s.(pending := p.rest), p.item.value);
    }
  }

  lemma AlarmsActive(s: State, critical: bool, warning: bool)
    requires Active(s)
    ensures Active(CheckAlarms(s, critical, warning))
  {
    EnterActive(s, FAULT);
    TransitionActive(CheckCritical(s, critical), MAINT);
  }

  lemma ServeActive(s: State, status: Status)
    requires Active(s)
    ensures Active(Serve(s, status))
  {
    if s.paused {
    } else if s.current.None? {
      StartNextActive(s);
    } else {
      TickDoneActive(s);
      TickBusyActive(s);
    }
  }

  lemma TickActive(s: State, critical: bool, warning: bool, status: Status)
    requires Active(s)
    ensures Active(Tick(s, critical, warning, status))
  {
    AlarmsActive(s, critical, warning);
    ServeActive(CheckAlarms(s, critical, warning), status);
  }

  lemma CancelActive(s: State, id: string)
    requires Active(s)
    ensures Active(CancelBehavior(s, id))
  {
    if s.current.Some? {
      OneMore(s.log, Stop(s.current.value.id));
    }
  }

  lemma PauseActive(s: State)
    requires Active(s)
    ensures Active(PauseAll(s))
  {
    if s.current.Some? {
      OneMore(s.log, Pause(s.current.value.id));
    }
  }

  lemma ResumeActive(s: State)
    requires Active(s)
    ensures Active(ResumeAll(s))
  {
    if s.paused && s.current.Some? {
      OneMore(s.log, Resume(s.current.value.id));
    }
  }

  lemma StepActive(s: State, e: Event)
    requires Active(s)
    ensures Active(Next(s, e))
  {
    match e
    case DoTick(c, w, st) => TickActive(s, c, w, st);
    case DoTransition(to) => TransitionActive(s, to);
    case DoRequest(r) =>
    case DoClear =>
    case DoCancel(id) => CancelActive(s, id);
    case DoPause => PauseActive(s);
    case DoResume => ResumeActive(s);
  }

  // ----- starts and preemptions -----

  function Preempting(starts: seq<Begun>): nat {
    if starts == [] then 0
    else Preempting(starts[..|starts| - 1]) + if starts[|starts| - 1].preempting then 1 else 0
  }

  /** A preempting start is more urgent than the start before it, and urgent enough to preempt. */
  ghost predicate Chained(starts: seq<Begun>) {
    forall k :: 0 <= k < |starts| && starts[k].preempting ==>
      k > 0 && starts[k].priority < starts[k - 1].priority && CanPreempt(starts[k].priority)
  }

  ghost predicate StartedOnce(starts: seq<Begun>) {
    forall i, j :: 0 <= i < j < |starts| ==> starts[i].id != starts[j].id
  }

  /** Everything started was accepted and no longer waits. */
  ghost predicate Taken(starts: seq<Begun>, accepted: set<string>, pending: Levels<Request>) {
    forall k :: 0 <= k < |starts| ==> starts[k].id in accepted && starts[k].id !in IdsOf(pending.Flat())
  }

  ghost predicate Latest(starts: seq<Begun>, current: Option<Request>) {
    current.Some? ==> starts != [] && starts[|starts| - 1].priority == current.value.priority
  }

  ghost predicate Begins(s: State) {
    && Chained(s.starts)
    && StartedOnce(s.starts)
    && s.preemptions == Preempting(s.starts)
    && Latest(s.starts, s.current)
    && Taken(s.starts, s.accepted, s.pending)
  }

  lemma TakenFrame(starts: seq<Begun>, accepted: set<string>, a: Levels<Request>, b: Levels<Request>)
    requires Taken(starts, accepted, a) && (b == a || b == Empty() || b == a.Pop().rest)
    ensures Taken(starts, accepted, b)
  {
    EmptyIds();
    PopFlat(a);
    if a.Pop().item.Some? {
      IdsPopped(a.Pop().item.value, a.Pop().rest.Flat());
    }
  }

  ghost predicate Sound(accepted: set<string>, pending: Levels<Request>) {
    DistinctRequests(pending.Flat()) && IdsOf(pending.Flat()) <= accepted
  }

  /** An operation that starts nothing and takes nothing in. */
  lemma BeginsFrame(s: State, t: State)
    requires Begins(s) && t.starts == s.starts && t.preemptions == s.preemptions && t.accepted == s.accepted
    requires t.current == s.current || t.current.None?
    requires t.pending == s.pending || t.pending == Empty() || t.pending == s.pending.Pop().rest
    ensures Begins(t)
  {
    TakenFrame(s.starts, s.accepted, s.pending, t.pending);
  }

  lemma SeriesMore(starts: seq<Begun>, b: Begun, current: Option<Request>)
    requires Chained(starts) && Latest(starts, current)
    requires b.preempting ==> current.Some? && b.priority < current.value.priority && CanPreempt(b.priority)
    ensures Chained(starts + [b])
    ensures Preempting(starts + [b]) == Preempting(starts) + if b.preempting then 1 else 0
  {
    assert (starts + [b])[..|starts|] == starts;
  }

  lemma TakenMore(starts: seq<Begun>, b: Begun, accepted: set<string>, a: Levels<Request>)
    requires Taken(starts, accepted, a) && StartedOnce(starts)
    requires Sound(accepted, a)
    requires a.Pop().item.Some? && b.id == a.Pop().item.value.id
    ensures Taken(starts + [b], accepted, a.Pop().rest) && StartedOnce(starts + [b])
  {
    TakenFrame(starts, accepted, a, a.Pop().rest);
    PopFlat(a);
    IdsPopped(a.Pop().item.value, a.Pop().rest.Flat());
  }

  /** A start after current had the last one and s.pending, or more, was left waiting. */
  lemma StartBegins(s: State, current: Option<Request>, r: Request, preempting: bool)
    requires Chained(s.starts) && Latest(s.starts, current)
    requires preempting ==> ShouldPreempt(r, current)
    requires s.preemptions == Preempting(s.starts)
    requires var starts := s.starts + [Begun(r.id, r.priority, preempting)];
             StartedOnce(starts) && Taken(starts, s.accepted, s.pending)
    ensures Begins(StartTask(s, r, preempting))
  {
    SeriesMore(s.starts, Begun(r.id, r.priority, preempting), current);
  }

  lemma StartNextBegins(s: State)
    requires Sound(s.accepted, s.pending) && Begins(s) && s.current.None?
    ensures Begins(StartNext(s))
  {
    var p := s.pending.Pop();
    var s1 := s.(pending := p.rest);
    if p.item.Some? {
      var r := p.item.value;
      TakenMore(s.starts, Begun(r.id, r.priority, false), s.accepted, s.pending);
      StartBegins(s1, None, r, false);
    } else {
      BeginsFrame(s, s1);
    }
  }

  lemma EnterFrame(s: State, to: Mode)
    ensures var t := Enter(s, to);
            t.starts == s.starts && t.preemptions == s.preemptions && t.current == s.current &&
            t.accepted == s.accepted && (t.pending == s.pending || t.pending == Empty())
  {}

  lemma MakeRoomFrame(s: State, r: Request)
    requires s.current.Some?
    ensures var t := MakeRoom(s, r);
            t.starts == s.starts && t.accepted == s.accepted && t.preemptions == s.preemptions &&
            (t.pending == s.pending || t.pending == Empty())
  {}

  lemma RoomBegins(s: State, t: State, r: Request)
    requires Begins(s) && ShouldPreempt(r, s.current)
    requires var starts := s.starts + [Begun(r.id, r.priority, true)];
             StartedOnce(starts) && Taken(starts, s.accepted, s.pending)
    requires t.starts == s.starts && t.accepted == s.accepted && t.preemptions == s.preemptions
    requires t.pending == s.pending || t.pending == Empty()
    ensures Begins(StartTask(t, r, true))
  {
    TakenFrame(s.starts + [Begun(r.id, r.priority, true)], s.accepted, s.pending, t.pending);
    StartBegins(t, s.current, r, true);
  }

  lemma PreemptBegins(s: State, r: Request)
    requires Begins(s) && ShouldPreempt(r, s.current)
    requires var starts := s.starts + [Begun(r.id, r.priority, true)];
             StartedOnce(starts) && Taken(starts, s.accepted, s.pending)
    ensures Begins(Preempt(s, r))
  {
    MakeRoomFrame(s, r);
    RoomBegins(s, MakeRoom(s, r), r);
  }

  lemma TickBusyBegins(s: State)
    requires Sound(s.accepted, s.pending) && Begins(s) && s.current.Some?
    ensures Begins(TickBusy(s))
  {
    var p := s.pending.Pop();
    BeginsFrame(s, s.(pending := p.rest));
    if p.item.Some? && ShouldPreempt(p.item.value, s.current) {
      var r := p.item.value;
      TakenMore(s.starts, Begun(r.id, r.priority, true), s.accepted, s.pending);
      PreemptBegins(s.(pending := p.rest), r);
    } else {
      BeginsFrame(s, TickBusy(s));
    }
  }

  lemma TransitionBegins(s: State, to: Mode)
    requires Begins(s)
    ensures Begins(TransitionTo(s, to))
  {
    EnterFrame(s, to);
    BeginsFrame(s, Enter(s, to));
  }

  lemma TickDoneBegins(s: State)
    requires Sound(s.accepted, s.pending) && Begins(s) && s.current.Some?
    ensures Begins(TickDone(s))
  {
    var s1 := EndCurrent(s);
    BeginsFrame(s, s1);
    TransitionBegins(s1, MAINT);
    StartNextBegins(s1);
  }

  lemma AlarmsBegins(s: State, critical: bool, warning: bool)
    requires Begins(s)
    ensures Begins(CheckAlarms(s, critical, warning))
  {
    EnterFrame(s, FAULT);
    BeginsFrame(s, Enter(s, FAULT));
    TransitionBegins(CheckCritical(s, critical), MAINT);
  }

  lemma ServeBegins(s: State, status: Status)
    requires Sound(s.accepted, s.pending) && Begins(s)
    ensures Begins(Serve(s, status))
  {
    if s.current.None? {
      StartNextBegins(s);
    } else {
      TickDoneBegins(s);
      TickBusyBegins(s);
    }
  }

  lemma TickBegins(s: State, critical: bool, warning: bool, status: Status)
    requires Partition(s) && Begins(s)
    ensures Begins(Tick(s, critical, warning, status))
  {
    AlarmsPartition(s, critical, warning);
    AlarmsBegins(s, critical, warning);
    ServeBegins(CheckAlarms(s, critical, warning), status);
  }

  lemma RequestBegins(s: State, r: Request)
    requires Partition(s) && Begins(s) && r.id !in s.accepted
    ensures Begins(RequestBehavior(s, r))
  {
    RequestPartition(s, r);
  }

  lemma StepBegins(s: State, e: Event)
    requires Partition(s) && Begins(s) && Enabled(s, e)
    ensures Begins(Next(s, e))
  {
    match e
    case DoTick(c, w, st) => TickBegins(s, c, w, st);
    case DoRequest(r) => RequestBegins(s, r);
    case DoTransition(to) => TransitionBegins(s, to);
    case DoClear => BeginsFrame(s, Next(s, e));
    case DoCancel(id) => BeginsFrame(s, Next(s, e));
    case DoPause => BeginsFrame(s, Next(s, e));
    case DoResume => BeginsFrame(s, Next(s, e));
  }

  // ----- whole runs -----

  ghost predicate Inv(s: State) { Partition(s) && Active(s) && Begins(s) }

  lemma StepKeepsInv(s: State, e: Event)
    requires Inv(s) && Enabled(s, e)
    ensures Inv(Next(s, e))
  {
    StepPartition(s, e);
    StepActive(s, e);
    StepBegins(s, e);
  }

  lemma {:induction false} RunKeepsInv(s: State, es: seq<Event>, t: State)
    requires Inv(s) && Steps(s, es, t)
    ensures Inv(t)
    decreases es
  {
    if es != [] {
      StepKeepsInv(s, es[0]);
      RunKeepsInv(Next(s, es[0]), es[1..], t);
    }
  }

  ghost predicate Reachable(es: seq<Event>, s: State) { Steps(INITIAL, es, s) }

  lemma InitialInv()
    ensures Inv(INITIAL)
  {
    EmptyIds();
  }

  /** Every accepted request is waiting, current, suspended, or has exactly one recorded end. */
  lemma EveryRequestInOnePlace(es: seq<Event>, s: State)
    requires Reachable(es, s)
    ensures s.accepted == PendingIds(s) + CurrentIds(s) + s.suspended.Keys + s.fates.Keys
    ensures PendingIds(s) !! CurrentIds(s) !! s.suspended.Keys !! s.fates.Keys
    ensures DistinctRequests(s.pending.Flat())
  {
    InitialInv();
    RunKeepsInv(INITIAL, es, s);
  }

  /** At every point of every run at most the current behaviour's task runs, and each start finds none running. */
  lemma AtMostOneRuns(es: seq<Event>, s: State)
    requires Reachable(es, s)
    ensures OneAtATime(s.log) && Running(s.log) <= CurrentIds(s)
    ensures s.paused ==> Running(s.log) == {}
  {
    InitialInv();
    RunKeepsInv(INITIAL, es, s);
  }

  /** No request is started twice: in particular a suspended one is never taken up again. */
  lemma NeverStartedTwice(es: seq<Event>, s: State)
    requires Reachable(es, s)
    ensures StartedOnce(s.starts)
    ensures Taken(s.starts, s.accepted, s.pending)
  {
    InitialInv();
    RunKeepsInv(INITIAL, es, s);
  }

  lemma {:induction false} PreemptionPotential(starts: seq<Begun>)
    requires Chained(starts)
    ensures starts == [] ==> Preempting(starts) == 0
    ensures starts != [] ==>
              var p := starts[|starts| - 1].priority;
              Preempting(starts) + (if p < 3 then p else 3) <= 3 * (|starts| - Preempting(starts))
    decreases |starts|
  {
    if starts != [] {
      PreemptionPotential(starts[..|starts| - 1]);
    }
  }

  /** Of any four starts in a row one does not preempt. */
  ghost predicate PlainAmongFour(starts: seq<Begun>, k: nat)
    requires k + 4 <= |starts|
  {
    exists i :: k <= i < k + 4 && !starts[i].preempting
  }

  lemma ChainOfThree(starts: seq<Begun>, k: nat)
    requires Chained(starts) && k + 4 <= |starts|
    ensures PlainAmongFour(starts, k)
  {
    if starts[k].preempting && starts[k + 1].preempting && starts[k + 2].preempting {
      assert starts[k + 2].priority == 0;
      assert !starts[k + 3].preempting;
    }
  }

  /** On every run at most three preemptions lie between two starts that do not preempt, and in all there are at most
      three for each of those. */
  lemma PreemptionsBounded(es: seq<Event>, s: State)
    requires Reachable(es, s)
    ensures forall k: nat :: k + 4 <= |s.starts| ==> PlainAmongFour(s.starts, k)
    ensures s.starts != [] ==> !s.starts[0].preempting
    ensures s.preemptions == Preempting(s.starts) <= 3 * (|s.starts| - s.preemptions)
  {
    InitialInv();
    RunKeepsInv(INITIAL, es, s);
    PreemptionPotential(s.starts);
    forall k: nat | k + 4 <= |s.starts| ensures PlainAmongFour(s.starts, k) {
      ChainOfThree(s.starts, k);
    }
  }

  // ----- ends are final -----

  /** What ended has ended, the same way. */
  ghost predicate Keeps(before: map<string, Fate>, after: map<string, Fate>) {
    forall id :: id in before ==> id in after && after[id] == before[id]
  }

  lemma EnterKeeps(s: State, to: Mode)
    requires Partition(s)
    ensures Keeps(s.fates, Enter(s, to).fates)
  {}

  lemma AlarmsKeep(s: State, critical: bool, warning: bool)
    requires Partition(s)
    ensures Keeps(s.fates, CheckAlarms(s, critical, warning).fates)
  {
    EnterKeeps(s, FAULT);
  }

  lemma MakeRoomKeeps(s: State, r: Request)
    requires Holding(s, r) && s.current.Some?
    ensures Keeps(s.fates, MakeRoom(s, r).fates)
  {}

  lemma TickBusyKeeps(s: State)
    requires Partition(s) && s.current.Some?
    ensures Keeps(s.fates, TickBusy(s).fates)
  {
    var p := s.pending.Pop();
    if p.item.Some? {
      PopHolding(s);
      MakeRoomKeeps(s.(pending := p.rest), p.item.value);
    }
  }

  lemma TickDoneKeeps(s: State)
    requires Partition(s) && s.current.Some?
    ensures Keeps(s.fates, TickDone(s).fates)
  {
    StartNextFates(EndCurrent(s));
  }

  lemma ServeKeeps(s: State, status: Status)
    requires Partition(s)
    ensures Keeps(s.fates, Serve(s, status).fates)
  {
    if s.current.None? {
      StartNextFates(s);
    } else {
      TickDoneKeeps(s);
      TickBusyKeeps(s);
    }
  }

  lemma KeepsTrans(a: map<string, Fate>, b: map<string, Fate>, c: map<string, Fate>)
    requires Keeps(a, b) && Keeps(b, c)
    ensures Keeps(a, c)
  {}

  lemma TickKeeps(s: State, critical: bool, warning: bool, status: Status)
    requires Partition(s)
    ensures Keeps(s.fates, Tick(s, critical, warning, status).fates)
  {
    var s1 := CheckAlarms(s, critical, warning);
    AlarmsPartition(s, critical, warning);
    AlarmsKeep(s, critical, warning);
    ServeKeeps(s1, status);
    KeepsTrans(s.fates, s1.fates, Serve(s1, status).fates);
  }

  lemma StepKeeps(s: State, e: Event)
    requires Partition(s)
    ensures Keeps(s.fates, Next(s, e).fates)
  {
    match e
    case DoTick(c, w, st) => TickKeeps(s, c, w, st);
    case DoTransition(to) => EnterKeeps(s, to);
    case DoRequest(r) =>
    case DoClear =>
    case DoCancel(id) =>
    case DoPause =>
    case DoResume =>
  }

  /** On every run a recorded end never changes. */
  lemma {:induction false} EndsAreFinal(s: State, es: seq<Event>, t: State)
    requires Inv(s) && Steps(s, es, t)
    ensures Keeps(s.fates, t.fates)
    decreases es
  {
    if es != [] {
      StepKeeps(s, es[0]);
      StepKeepsInv(s, es[0]);
      EndsAreFinal(Next(s, es[0]), es[1..], t);
    }
  }

  // ----- the most urgent first -----

  /** Every waiting request is in the queue of its own priority. */
  ghost predicate Leveled(l: Levels<Request>) {
    forall k, i :: 0 <= k < LEVELS && 0 <= i < |l.Get(k)| ==> l.Get(k)[i].priority == k
  }

  lemma PushLeveled(l: Levels<Request>, r: Request)
    requires Leveled(l) && r.priority < LEVELS
    ensures Leveled(l.Push(r.priority, r))
  {
    PushGet(l, r);
  }

  lemma PushGet(l: Levels<Request>, r: Request)
    requires r.priority < LEVELS
    ensures forall k: nat :: l.Push(r.priority, r).Get(k) == l.Get(k) + if k == r.priority then [r] else []
  {
    forall k: nat ensures l.Push(r.priority, r).Get(k) == l.Get(k) + if k == r.priority then [r] else [] {
      WithGet(l, r.priority, l.Get(r.priority) + [r], k);
    }
  }

  lemma PopLeveled(l: Levels<Request>)
    requires Leveled(l)
    ensures Leveled(l.Pop().rest)
  {
    var m := l.Pop().rest;
    forall k, i | 0 <= k < LEVELS && 0 <= i < |m.Get(k)| ensures m.Get(k)[i].priority == k {
      assert m.Get(k) == l.Get(k) || (l.Get(k) != [] && m.Get(k) == l.Get(k)[1..]);
    }
  }

  /** A step leaves the waiting requests alone, appends to the queue of the new request's priority, takes the next
      request out, or clears everything. */
  lemma PendingAfter(s: State, e: Event)
    ensures var p := Next(s, e).pending;
            if e.DoRequest? && e.r.priority < LEVELS then p == s.pending.Push(e.r.priority, e.r)
            else p == s.pending || p == s.pending.Pop().rest || p == Empty()
  {
    if e.DoTick? {
      AlarmsPending(s, e.critical, e.warning);
      ServePending(CheckAlarms(s, e.critical, e.warning), e.status);
    }
  }

  lemma AlarmsPending(s: State, critical: bool, warning: bool)
    ensures var p := CheckAlarms(s, critical, warning).pending;
            p == s.pending || p == Empty()
  {}

  lemma ServePending(s: State, status: Status)
    ensures var p := Serve(s, status).pending;
            p == s.pending || p == s.pending.Pop().rest || p == Empty()
  {
    if s.current.Some? {
      DonePending(s);
      BusyPending(s);
    }
  }

  lemma DonePending(s: State)
    requires s.current.Some?
    ensures var p := TickDone(s).pending;
            p == s.pending || p == s.pending.Pop().rest || p == Empty()
  {}

  lemma BusyPending(s: State)
    requires s.current.Some?
    ensures var p := TickBusy(s).pending;
            p == s.pending || p == s.pending.Pop().rest || p == Empty()
  {
    var p := s.pending.Pop();
    if p.item.Some? {
      RoomPending(s.(pending := p.rest), p.item.value);
    }
  }

  lemma RoomPending(s: State, r: Request)
    requires s.current.Some?
    ensures MakeRoom(s, r).pending == s.pending || MakeRoom(s, r).pending == Empty()
  {}

  lemma EmptyPop()
    ensures Empty<Request>().Pop().rest == Empty() && Leveled(Empty())
  {}

  lemma {:induction false} RunLeveled(s: State, es: seq<Event>, t: State)
    requires Steps(s, es, t) && Leveled(s.pending)
    ensures Leveled(t.pending)
    decreases es
  {
    if es != [] {
      PendingAfter(s, es[0]);
      PopLeveled(s.pending);
      EmptyPop();
      if es[0].DoRequest? && es[0].r.priority < LEVELS {
        PushLeveled(s.pending, es[0].r);
      }
      RunLeveled(Next(s, es[0]), es[1..], t);
    }
  }

  /** On every run the request taken next has the highest priority, that is the smallest number, of all that wait, and
      is the first in the queue of its priority. */
  lemma MostUrgentFirst(es: seq<Event>, s: State)
    requires Reachable(es, s)
    ensures var x := s.pending.Pop().item;
            && (x.None? ==> forall k: nat :: s.pending.Get(k) == [])
            && (x.Some? ==>
                  && x.value.priority < LEVELS && s.pending.Get(x.value.priority) != []
                  && s.pending.Get(x.value.priority)[0] == x.value
                  && forall k, i :: 0 <= k < LEVELS && 0 <= i < |s.pending.Get(k)| ==>
                       s.pending.Get(k)[i].priority >= x.value.priority)
  {
    EmptyPop();
    RunLeveled(INITIAL, es, s);
    FirstNonEmpty(s.pending);
  }

  lemma FirstNonEmpty(l: Levels<Request>)
    ensures l.Pop().item.None? ==> forall k: nat :: l.Get(k) == []
    ensures l.Pop().item.Some? ==>
              exists j :: 0 <= j < LEVELS && l.Get(j) != [] && l.Get(j)[0] == l.Pop().item.value &&
                          forall k :: 0 <= k < j ==> l.Get(k) == []
  {
    if l.emergency != [] {
      assert l.Get(0) != [];
    } else if l.safety != [] {
      assert l.Get(1) != [];
    } else if l.urgent != [] {
      assert l.Get(2) != [];
    } else if l.normal != [] {
      assert l.Get(3) != [];
    } else if l.maintenance != [] {
      assert l.Get(4) != [];
    }
  }

  // ----- what a tick promises -----

  lemma SettledElsewhere(s: State, to: Mode, id: string)
    requires id !in s.fates && id in Enter(s, to).fates
    ensures Enter(s, to).fates[id] == Cleared
  {}

  lemma AlarmsFates(s: State, critical: bool, warning: bool)
    ensures var t := CheckAlarms(s, critical, warning);
            && t.paused == s.paused && t.current == s.current && t.starts == s.starts
            && (critical && s.mode != FAULT ==> t.mode == FAULT && t.pending == Empty() && t.suspended == map[])
            && (!(critical && s.mode != FAULT) ==> t.fates == s.fates && t.pending == s.pending)
  {}

  lemma AlarmsSettle(s: State, critical: bool, warning: bool, id: string)
    requires id !in s.fates && id in CheckAlarms(s, critical, warning).fates
    ensures CheckAlarms(s, critical, warning).fates[id] == Cleared
  {
    if critical && s.mode != FAULT {
      SettledElsewhere(s, FAULT, id);
    }
  }

  lemma StartNextFates(s: State)
    ensures StartNext(s).fates == s.fates
  {}

  lemma TickDoneFates(s: State, id: string)
    requires s.current.Some? && id !in s.fates && id in TickDone(s).fates
    ensures TickDone(s).fates[id] == Finished
  {
    StartNextFates(EndCurrent(s));
  }

  lemma MakeRoomFates(s: State, r: Request, id: string)
    requires s.current.Some? && id !in s.fates && id in MakeRoom(s, r).fates
    ensures MakeRoom(s, r).fates[id] == Cleared || MakeRoom(s, r).fates[id] == Cancelled
  {}

  lemma TickBusyFates(s: State, id: string)
    requires s.current.Some? && id !in s.fates
    ensures var p := s.pending.Pop();
            (id in TickBusy(s).fates && TickBusy(s).fates[id] == Discarded) <==>
            (p.item.Some? && p.item.value.id == id && !ShouldPreempt(p.item.value, s.current))
  {
    var p := s.pending.Pop();
    if p.item.Some? && ShouldPreempt(p.item.value, s.current) {
      var s1 := s.(pending := p.rest);
      if id in MakeRoom(s1, p.item.value).fates {
        MakeRoomFates(s1, p.item.value, id);
      }
    }
  }

  /** The statuses of a task that has come to its end. */
  const ENDED: set<Status> := {COMPLETED, FAILED, CANCELLED}

  /** An emergency stop, a safety issue or an urgent task, more urgent than the current behaviour. */
  predicate Outranks(r: Request, current: Request) {
    r.priority < current.priority && (r.priority == 0 || r.priority == 1 || r.priority == 2)
  }

  /** When a tick takes in and drops request x. */
  predicate DropsRequest(s: State, critical: bool, status: Status, x: string) {
    && !s.paused && s.current.Some? && status !in ENDED && !(critical && s.mode != FAULT)
    && s.pending.Pop().item.Some? && s.pending.Pop().item.value.id == x
    && !Outranks(s.pending.Pop().item.value, s.current.value)
  }

  /** A waiting request is lost exactly when it is the most urgent one at a busy tick and may not preempt. */
  lemma DiscardedIff(s: State, critical: bool, warning: bool, status: Status, x: string)
    requires x !in s.fates
    ensures var t := Tick(s, critical, warning, status);
            (x in t.fates && t.fates[x] == Discarded) <==> DropsRequest(s, critical, status, x)
  {
    AlarmsFates(s, critical, warning);
    var s1 := CheckAlarms(s, critical, warning);
    if x in s1.fates {
      AlarmsSettle(s, critical, warning, x);
      AlarmedTick(s1, status, x);
    } else if s1.paused {
    } else if s1.current.None? {
      StartNextFates(s1);
    } else if status.Over() {
      if x in TickDone(s1).fates {
        TickDoneFates(s1, x);
      }
    } else {
      TickBusyFates(s1, x);
    }
  }

  /** After the queue is cleared nothing can be dropped. */
  lemma AlarmedTick(s1: State, status: Status, x: string)
    requires x in s1.fates && s1.fates[x] == Cleared
    ensures status.Over() && s1.current.Some? ==> TickDone(s1).fates[x] != Discarded
    ensures !status.Over() && s1.current.Some? && s1.pending == Empty() ==> TickBusy(s1).fates[x] != Discarded
  {
    if s1.current.Some? {
      StartNextFates(EndCurrent(s1));
    }
  }

  /** Only a tick drops a request. */
  lemma OnlyTicksDiscard(s: State, e: Event, x: string)
    requires x !in s.fates && !e.DoTick? && x in Next(s, e).fates
    ensures Next(s, e).fates[x] != Discarded
  {
    if e.DoTransition? {
      SettledElsewhere(s, e.to, x);
    }
  }

  /** MAINT is due once the alarms were looked at. */
  predicate MaintWaits(s: State, warning: bool) {
    s.maintDue || (warning && s.mode != MAINT && s.mode != FAULT)
  }

  /** When a tick starts the most urgent waiting request. */
  predicate StartsNext(s: State, critical: bool, warning: bool, status: Status) {
    && !s.paused && !(critical && s.mode != FAULT) && s.pending.Pop().item.Some?
    && (s.current.Some? ==>
          if status in ENDED then !MaintWaits(s, warning) else Outranks(s.pending.Pop().item.value, s.current.value))
  }

  lemma QuietAlarms(s: State, critical: bool, warning: bool)
    requires !(critical && s.mode != FAULT)
    ensures var t := CheckAlarms(s, critical, warning);
            && t.pending == s.pending && t.current == s.current && t.starts == s.starts && t.paused == s.paused
            && (s.current.Some? ==> t.mode == s.mode && t.maintDue == MaintWaits(s, warning))
            && (s.current.None? ==>
                  t.maintDue == s.maintDue &&
                  (MaintWaits(s, warning) && !s.maintDue ==> (t.mode == MAINT <==> s.mode == STANDBY)))
  {}

  /** The start of a tick once the alarms were looked at. */
  predicate ServesNext(s: State, status: Status) {
    && !s.paused && s.pending.Pop().item.Some?
    && (s.current.Some? ==> if status.Over() then !s.maintDue else ShouldPreempt(s.pending.Pop().item.value, s.current))
  }

  function WithNextStart(s: State, preempting: bool): seq<Begun>
    requires s.pending.Pop().item.Some?
  {
    var r := s.pending.Pop().item.value;
    s.starts + [Begun(r.id, r.priority, preempting)]
  }

  lemma PreemptStarts(s: State, r: Request)
    requires s.current.Some?
    ensures Preempt(s, r).starts == s.starts + [Begun(r.id, r.priority, true)]
  {
    MakeRoomFrame(s, r);
  }

  lemma BusyStarts(s: State)
    requires s.current.Some?
    ensures var p := s.pending.Pop();
            TickBusy(s).starts ==
            if p.item.Some? && ShouldPreempt(p.item.value, s.current) then WithNextStart(s, true) else s.starts
  {
    var p := s.pending.Pop();
    if p.item.Some? {
      PreemptStarts(s.(pending := p.rest), p.item.value);
    }
  }

  lemma ServeStarts(s: State, status: Status)
    ensures Serve(s, status).starts ==
            if ServesNext(s, status) then WithNextStart(s, s.current.Some? && !status.Over()) else s.starts
  {
    if s.current.Some? {
      BusyStarts(s);
    }
  }

  /** A tick starts at most one request, the most urgent waiting one, and exactly when it is not paused, no critical
      alarm enters FAULT, and nothing is current, or the current task is over with no change to MAINT due, or the
      request may preempt it. */
  lemma StartedIff(s: State, critical: bool, warning: bool, status: Status)
    ensures Tick(s, critical, warning, status).starts ==
            if StartsNext(s, critical, warning, status) then WithNextStart(s, s.current.Some? && status !in ENDED)
            else s.starts
  {
    var s1 := CheckAlarms(s, critical, warning);
    ServeStarts(s1, status);
    if critical && s.mode != FAULT {
      AlarmsFates(s, critical, warning);
    } else {
      QuietAlarms(s, critical, warning);
    }
  }

  /** What a tick that is not paused makes of the current request. It is finished if and only if its task completed,
      failed or was cancelled. Otherwise it stays current, unless the most urgent waiting request outranks it and takes
      its place; it is then cancelled by an emergency stop and suspended by the others. */
  lemma CurrentAfterTick(s: State, critical: bool, warning: bool, status: Status)
    requires Partition(s) && !s.paused && s.current.Some?
    ensures var t, c, p := Tick(s, critical, warning, status), s.current.value, s.pending.Pop().item;
            && (IsFinished(c.id, t.fates) <==> status in ENDED)
            && (status !in ENDED ==>
                  if !(critical && s.mode != FAULT) && p.Some? && Outranks(p.value, c) then
                    && t.current == p
                    && (p.value.priority == 0 ==> c.id in t.fates && t.fates[c.id] == Cancelled)
                    && (p.value.priority != 0 ==> c.id in t.suspended && t.suspended[c.id] == c && c.id !in t.fates)
                  else t.current == s.current && c.id !in t.fates)
  {
    var s1 := CheckAlarms(s, critical, warning);
    AlarmsFates(s, critical, warning);
    AlarmsPartition(s, critical, warning);
    ServeFinishes(s1, status);
    if status !in ENDED {
      BusyAfterServe(s1);
    }
  }

  /** What a tick starts becomes current and is the one task that runs. */
  lemma StartedRuns(s: State, critical: bool, warning: bool, status: Status)
    requires Inv(s) && StartsNext(s, critical, warning, status)
    ensures var t := Tick(s, critical, warning, status);
            t.current == s.pending.Pop().item && Running(t.log) == {s.pending.Pop().item.value.id}
  {
    var t := Tick(s, critical, warning, status);
    TickActive(s, critical, warning, status);
    StartedLast(s, critical, warning, status);
    RunsLast(t.log);
  }

  lemma RunsLast(log: seq<Command>)
    requires log != [] && log[|log| - 1].Start?
    ensures log[|log| - 1].id in Running(log)
  {}

  lemma StartedLast(s: State, critical: bool, warning: bool, status: Status)
    requires StartsNext(s, critical, warning, status)
    ensures var t, r := Tick(s, critical, warning, status), s.pending.Pop().item;
            t.current == r && t.log != [] && t.log[|t.log| - 1] == Start(r.value.id)
  {
    QuietAlarms(s, critical, warning);
    var s1 := CheckAlarms(s, critical, warning);
    if s1.current.Some? {
      if status.Over() {
        StartNextLast(EndCurrent(s1));
      } else {
        PreemptLast(s1.(pending := s1.pending.Pop().rest), s1.pending.Pop().item.value);
      }
    } else {
      StartNextLast(s1);
    }
  }

  lemma StartNextLast(s: State)
    requires s.pending.Pop().item.Some?
    ensures var t := StartNext(s);
            t.current == s.pending.Pop().item && t.log != [] &&
            t.log[|t.log| - 1] == Start(s.pending.Pop().item.value.id)
  {}

  lemma PreemptLast(s: State, r: Request)
    requires s.current.Some?
    ensures var t := Preempt(s, r); t.current == Some(r) && t.log != [] && t.log[|t.log| - 1] == Start(r.id)
  {}

  predicate IsFinished(id: string, fates: map<string, Fate>) { id in fates && fates[id] == Finished }

  /** The current request, if the arbiter is not paused, is finished exactly when its task came to an end. */
  predicate FinishedIfOver(paused: bool, current: Option<Request>, status: Status, fates: map<string, Fate>) {
    !paused && current.Some? ==>
      (IsFinished(current.value.id, fates) <==> status == COMPLETED || status == FAILED || status == CANCELLED)
  }

  lemma AfterTick(s: State, critical: bool, warning: bool, status: Status, t: State)
    requires Inv(s) && t == Next(s, DoTick(critical, warning, status))
    ensures Inv(t) && FinishedIfOver(s.paused, s.current, status, t.fates)
  {
    StepKeepsInv(s, DoTick(critical, warning, status));
    TickFinishes(s, critical, warning, status);
  }

  lemma TickFinishes(s: State, critical: bool, warning: bool, status: Status)
    requires Partition(s)
    ensures FinishedIfOver(s.paused, s.current, status, Tick(s, critical, warning, status).fates)
  {
    if !s.paused && s.current.Some? {
      var s1 := CheckAlarms(s, critical, warning);
      AlarmsFates(s, critical, warning);
      AlarmsPartition(s, critical, warning);
      ServeFinishes(s1, status);
    }
  }

  lemma ServeFinishes(s: State, status: Status)
    requires Partition(s) && !s.paused && s.current.Some?
    ensures IsFinished(s.current.value.id, Serve(s, status).fates) <==> status in ENDED
  {
    if status in ENDED {
      EndedAfterServe(s, status);
    } else {
      BusyAfterServe(s);
    }
  }

  lemma EndedAfterServe(s: State, status: Status)
    requires !s.paused && s.current.Some? && status in ENDED
    ensures IsFinished(s.current.value.id, Serve(s, status).fates)
  {
    StartNextFates(EndCurrent(s));
  }

  lemma BusyAfterServe(s: State)
    requires Partition(s) && s.current.Some?
    ensures var t, c, p := TickBusy(s), s.current.value, s.pending.Pop().item;
            if p.Some? && Outranks(p.value, c) then
              && t.current == p
              && (p.value.priority == 0 ==> c.id in t.fates && t.fates[c.id] == Cancelled)
              && (p.value.priority != 0 ==> c.id in t.suspended && t.suspended[c.id] == c && c.id !in t.fates)
            else t.current == s.current && c.id !in t.fates
  {
    var p := s.pending.Pop();
    if p.item.Some? {
      PopHolding(s);
      if Outranks(p.item.value, s.current.value) {
        PreemptionOutcome(s.(pending := p.rest), p.item.value);
      }
    }
  }

  /** FAULT with nothing waiting and nothing running. */
  ghost predicate Halted(s: State) {
    && s.mode == FAULT && s.pending == Empty() && s.suspended == map[]
    && OneAtATime(s.log) && Running(s.log) == {}
  }

  lemma EnterFaultHalts(s: State)
    requires Active(s)
    ensures Halted(Enter(s, FAULT))
  {
    if s.current.Some? {
      OneMore(s.log, Stop(s.current.value.id));
    }
  }

  lemma AlarmsHalt(s: State, warning: bool)
    requires Active(s) && s.mode != FAULT
    ensures Halted(CheckAlarms(s, true, warning)) && CheckAlarms(s, true, warning).starts == s.starts
  {
    EnterFaultHalts(s);
  }

  lemma HaltedTickDone(s: State)
    requires Halted(s) && s.current.Some?
    ensures Halted(TickDone(s)) && TickDone(s).starts == s.starts
  {
    OneMore(s.log, End(s.current.value.id));
  }

  lemma HaltedServe(s: State, status: Status)
    requires Halted(s)
    ensures Halted(Serve(s, status)) && Serve(s, status).starts == s.starts
  {
    if s.current.Some? {
      HaltedTickDone(s);
    }
  }

  /** A tick that finds a critical alarm outside FAULT ends in FAULT with nothing waiting, started or running. */
  lemma CriticalAlarmStopsAll(s: State, warning: bool, status: Status)
    requires Active(s) && s.mode != FAULT
    ensures Halted(Tick(s, true, warning, status)) && Tick(s, true, warning, status).starts == s.starts
  {
    AlarmsHalt(s, warning);
    HaltedServe(CheckAlarms(s, true, warning), status);
  }

  /** FAULT does not hold back later starts: a tick in FAULT, its critical alarm still raised, starts what a tick in
      any other mode without an alarm would start. */
  lemma FaultGatesNothing(s: State, m: Mode, warning: bool, status: Status)
    requires s.mode == FAULT
    ensures Tick(s, true, warning, status).starts == Tick(s.(mode := m), false, false, status).starts
  {
    StartedIff(s, true, warning, status);
    StartedIff(s.(mode := m), false, false, status);
  }

  lemma EmergencyOutcome(s: State, r: Request)
    requires Holding(s, r) && ShouldPreempt(r, s.current) && r.priority == EMERGENCY_STOP
    ensures var t, c := MakeRoom(s, r), s.current.value;
            && t.mode == FAULT && t.pending == Empty() && t.suspended == map[]
            && c.id in t.fates && t.fates[c.id] == Cancelled && t.log == s.log + [Stop(c.id)]
  {}

  /** What becomes of the preempted behaviour. */
  lemma PreemptionOutcome(s: State, r: Request)
    requires Holding(s, r) && ShouldPreempt(r, s.current)
    ensures var t := Preempt(s, r); var c := s.current.value;
            && t.current == Some(r)
            && (r.priority == EMERGENCY_STOP ==>
                  t.mode == FAULT && t.pending == Empty() && t.suspended == map[] &&
                  c.id in t.fates && t.fates[c.id] == Cancelled && t.log == s.log + [Stop(c.id)] + [Start(r.id)])
            && (r.priority != EMERGENCY_STOP ==>
                  t.mode == s.mode && t.fates == s.fates && t.pending == s.pending &&
                  t.suspended == s.suspended[c.id := c] && t.log == s.log + [Pause(c.id)] + [Start(r.id)])
  {
    if r.priority == EMERGENCY_STOP {
      EmergencyOutcome(s, r);
    }
  }

  /** A warning raised during a task promises MAINT once the task is over. It is kept only from STANDBY. */
  lemma MaintAfterTaskIff(s: State, warning: bool, status: Status)
    requires !s.paused && s.current.Some? && s.maintDue && status in ENDED
    ensures var t := Tick(s, false, warning, status);
            && !t.maintDue && t.current.None? && t.starts == s.starts
            && (t.mode == MAINT <==> s.mode == STANDBY || s.mode == MAINT)
  {
    assert CheckAlarms(s, false, warning) == s;
  }

  lemma {:induction false} StepsMore(s: State, es: seq<Event>, t: State, e: Event)
    requires Steps(s, es, t) && Enabled(t, e)
    ensures Steps(s, es + [e], Next(t, e))
    decreases es
  {
    if es == [] {
      assert es + [e] == [e] && [e][1..] == [];
    } else {
      assert (es + [e])[0] == es[0] && (es + [e])[1..] == es[1..] + [e];
      StepsMore(Next(s, es[0]), es[1..], t, e);
    }
  }

  /** A normal request that arrives while another runs is dropped at the next tick, and so never started. */
  lemma LowerPriorityLost() returns (es: seq<Event>, s: State)
    ensures Reachable(es, s)
    ensures "b" in s.fates && s.fates["b"] == Discarded
    ensures forall k :: 0 <= k < |s.starts| ==> s.starts[k].id != "b"
  {
    var a, b := Request("a", NORMAL_TASK, true), Request("b", NORMAL_TASK, true);
    var tick := DoTick(false, false, RUNNING);
    s := INITIAL;
    es := [];
    StepsMore(INITIAL, es, s, DoRequest(a));
    es, s := es + [DoRequest(a)], Next(s, DoRequest(a));
    StepsMore(INITIAL, es, s, tick);
    es, s := es + [tick], Next(s, tick);
    StepsMore(INITIAL, es, s, DoRequest(b));
    es, s := es + [DoRequest(b)], Next(s, DoRequest(b));
    assert s.current == Some(a) && s.pending.Pop().item == Some(b);
    DiscardedIff(s, false, false, RUNNING, "b");
    StepsMore(INITIAL, es, s, tick);
    es, s := es + [tick], Next(s, tick);
    EveryRequestInOnePlace(es, s);
  }

  // ----- the arbiter -----

  class BehaviorArbiter {
    var mode: Mode
    var maintDue: bool
    var pending: Levels<Request>
    var current: Option<Request>
    var suspended: map<string, Request>
    var paused: bool
    var preemptions: nat
    ghost var accepted: set<string>
    ghost var fates: map<string, Fate>
    ghost var log: seq<Command>
    ghost var starts: seq<Begun>

    ghost function View(): State
      reads this
    {
      State(mode, maintDue, pending, current, suspended, paused, preemptions, accepted, fates, log, starts)
    }

    constructor ()
      ensures View() == INITIAL && Inv(View())
    {
      mode, maintDue, pending, current, suspended, paused, preemptions :=
        STANDBY, false, Empty(), None, map[], false, 0;
      accepted, fates, log, starts := {}, map[], [], [];
      new;
      InitialInv();
    }

    method RequestBehavior(r: Request) returns (ok: bool)
      requires Inv(View()) && r.id !in accepted
      modifies this
      ensures View() == Next(old(View()), DoRequest(r)) && Inv(View())
      ensures ok <==> r.priority < LEVELS
      ensures forall k: nat :: pending.Get(k) == old(pending).Get(k) + if ok && k == r.priority then [r] else []
    {
      StepKeepsInv(View(), DoRequest(r));
      ok := r.priority < LEVELS;
      if ok {
        PushGet(pending, r);
        pending := pending.Push(r.priority, r);
        accepted := accepted + {r.id};
      }
    }

    method ClearAll()
      modifies this
      ensures View() == Clear(old(View()))
    {
      fates := Settled(fates, PendingIds(View()) + suspended.Keys, Cleared);
      pending := Empty();
      suspended := map[];
    }

    method ClearPendingBehaviors()
      requires Inv(View())
      modifies this
      ensures View() == Next(old(View()), DoClear) && Inv(View())
      ensures pending == Empty() && suspended == map[] && current == old(current) && mode == old(mode)
      ensures forall id :: id in PendingIds(old(View())) + old(suspended).Keys ==> id in fates && fates[id] == Cleared
    {
      StepKeepsInv(View(), DoClear);
      ClearAll();
    }

    method ChangeMode(to: Mode) returns (ok: bool)
      modifies this
      ensures View() == Next(old(View()), DoTransition(to))
      ensures ok <==> ValidTransition(old(mode), to)
    {
      ok := ValidTransition(mode, to);
      if ok {
        if to == FAULT {
          if current.Some? {
            log := log + [Stop(current.value.id)];
          }
          ClearAll();
        }
        mode := to;
      }
    }

    method TransitionTo(to: Mode) returns (ok: bool)
      requires Inv(View())
      modifies this
      ensures View() == Next(old(View()), DoTransition(to)) && Inv(View())
      ensures ok <==> ValidTransition(old(mode), to)
      ensures mode == if ok then to else old(mode)
      ensures current == old(current)
      ensures log == old(log) + if to == FAULT && current.Some? then [Stop(current.value.id)] else []
      ensures to == FAULT ==> pending == Empty() && suspended == map[]
      ensures to != FAULT ==> pending == old(pending) && suspended == old(suspended) && fates == old(fates)
    {
      StepKeepsInv(View(), DoTransition(to));
      ok := ChangeMode(to);
    }

    method CheckCriticalAlarms(critical: bool)
      modifies this
      ensures View() == CheckCritical(old(View()), critical)
    {
      if critical && mode != FAULT {
        var _ := ChangeMode(FAULT);
      }
    }

    method CheckWarningAlarms(warning: bool)
      modifies this
      ensures View() == CheckWarning(old(View()), warning)
    {
      if warning && mode != MAINT && mode != FAULT && !maintDue {
        if current.Some? {
          maintDue := true;
        } else {
          var _ := ChangeMode(MAINT);
        }
      }
    }

    method Start(r: Request, preempting: bool)
      modifies this
      ensures View() == StartTask(old(View()), r, preempting)
    {
      if preempting {
        preemptions := preemptions + 1;
      }
      current := Some(r);
      log := log + [Command.Start(r.id)];
      starts := starts + [Begun(r.id, r.priority, preempting)];
    }

    method CancelTask()
      requires current.Some?
      modifies this
      ensures View() == CancelCurrent(old(View()))
    {
      log := log + [Stop(current.value.id)];
      fates := fates[current.value.id := Cancelled];
      current := None;
    }

    method SuspendTask()
      requires current.Some?
      modifies this
      ensures View() == SuspendCurrent(old(View()))
    {
      log := log + [Command.Pause(current.value.id)];
      suspended := suspended[current.value.id := current.value];
      current := None;
    }

    method HandlePreemption(r: Request)
      requires current.Some?
      modifies this
      ensures View() == Preempt(old(View()), r)
    {
      if r.priority == EMERGENCY_STOP {
        CancelTask();
        var _ := ChangeMode(FAULT);
      } else if r.priority == SAFETY_ISSUE {
        SuspendTask();
      } else if r.priority == URGENT_TASK {
        if current.value.priority >= NORMAL_TASK {
          SuspendTask();
        }
      }
      assert View() == MakeRoom(old(View()), r);
      Start(r, true);
    }

    method SelectNextBehavior() returns (next: Option<Request>)
      modifies this`pending
      ensures next == old(pending).Pop().item && pending == old(pending).Pop().rest
    {
      var p := pending.Pop();
      next, pending := p.item, p.rest;
    }

    method StartNextBehavior()
      modifies this
      ensures View() == StartNext(old(View()))
    {
      var next := SelectNextBehavior();
      if next.Some? {
        Start(next.value, false);
      }
    }

    method EndTask()
      requires current.Some?
      modifies this
      ensures View() == EndCurrent(old(View()))
    {
      log := log + [End(current.value.id)];
      fates := fates[current.value.id := Finished];
      current := None;
    }

    method FinishTask()
      requires current.Some?
      modifies this
      ensures View() == TickDone(old(View()))
    {
      EndTask();
      if maintDue {
        var _ := ChangeMode(MAINT);
        maintDue := false;
      } else {
        StartNextBehavior();
      }
    }

    method ConsiderPreemption()
      requires current.Some?
      modifies this
      ensures View() == TickBusy(old(View()))
    {
      var next := SelectNextBehavior();
      if next.Some? {
        if ShouldPreempt(next.value, current) {
          HandlePreemption(next.value);
        } else {
          fates := fates[next.value.id := Discarded];
        }
      }
    }

    method ServeTick(critical: bool, warning: bool, status: Status)
      modifies this
      ensures View() == Next(old(View()), DoTick(critical, warning, status))
    {
      CheckCriticalAlarms(critical);
      CheckWarningAlarms(warning);
      if paused {
      } else if current.None? {
        StartNextBehavior();
      } else if status.Over() {
        FinishTask();
      } else {
        ConsiderPreemption();
      }
    }

    method Tick(critical: bool, warning: bool, status: Status)
      requires Inv(View())
      modifies this
      ensures View() == Next(old(View()), DoTick(critical, warning, status)) && Inv(View())
      ensures FinishedIfOver(old(paused), old(current), status, fates)
    {
      ghost var before := View();
      ServeTick(critical, warning, status);
      AfterTick(before, critical, warning, status, View());
    }

    method CancelBehavior(id: string) returns (ok: bool)
      requires Inv(View())
      modifies this
      ensures View() == Next(old(View()), DoCancel(id)) && Inv(View())
      ensures ok <==> (if old(CurrentIds(View())) == {id} then old(current).value.cancellable else id in old(suspended))
      ensures ok ==> id in fates && fates[id] == Cancelled && id !in suspended && id !in CurrentIds(View())
      ensures log == old(log) + if ok && id in old(CurrentIds(View())) then [Stop(id)] else []
      ensures pending == old(pending) && mode == old(mode)
    {
      StepKeepsInv(View(), DoCancel(id));
      if current.Some? && current.value.id == id {
        if !current.value.cancellable {
          return false;
        }
        CancelTask();
        return true;
      }
      if id in suspended {
        suspended := suspended - {id};
        fates := fates[id := Cancelled];
        return true;
      }
      return false;
    }

    method PauseAll() returns (ok: bool)
      requires Inv(View())
      modifies this
      ensures View() == Next(old(View()), DoPause) && Inv(View())
      ensures (ok <==> !old(paused)) && paused
      ensures log == old(log) + if ok && current.Some? then [Command.Pause(current.value.id)] else []
    {
      StepKeepsInv(View(), DoPause);
      if paused {
        return false;
      }
      paused := true;
      if current.Some? {
        log := log + [Command.Pause(current.value.id)];
      }
      return true;
    }

    method ResumeAll() returns (ok: bool)
      requires Inv(View())
      modifies this
      ensures View() == Next(old(View()), DoResume) && Inv(View())
      ensures (ok <==> old(paused)) && !paused
      ensures log == old(log) + if ok && current.Some? then [Command.Resume(current.value.id)] else []
    {
      StepKeepsInv(View(), DoResume);
      if !paused {
        return false;
      }
      paused := false;
      if current.Some? {
        log := log + [Command.Resume(current.value.id)];
      }
      return true;
    }
  }
}
