/** The real-time state machine and the heartbeat check that drives it into and out of SAFE_MODE. */
module SafeMode {
  import opened Common

  datatype RTState = INIT | READY | RUNNING | PAUSED | SAFE_MODE | ERROR | SHUTDOWN

  datatype RTEvent = START | PAUSE | RESUME | STOP | ERROR_OCCUR | RESET | SAFE_MODE_ENTER | SAFE_MODE_EXIT

  const TIMEOUT_NS: nat := 500_000_000
  const MS: nat := 1_000_000

  function Target(s: RTState, e: RTEvent): RTState {
    match s
    case INIT => if e == START then READY else if e == ERROR_OCCUR then ERROR else s
    case READY =>
      if e == START then RUNNING else if e == ERROR_OCCUR then ERROR else if e == STOP then SHUTDOWN else s
    case RUNNING =>
      if e == PAUSE then PAUSED
      else if e == STOP then SHUTDOWN
      else if e == ERROR_OCCUR then ERROR
      else if e == SAFE_MODE_ENTER then SAFE_MODE
      else s
    case PAUSED =>
      if e == RESUME then RUNNING else if e == STOP then SHUTDOWN else if e == ERROR_OCCUR then ERROR else s
    case SAFE_MODE =>
      if e == SAFE_MODE_EXIT then RUNNING else if e == STOP then SHUTDOWN else if e == ERROR_OCCUR then ERROR else s
    case ERROR => if e == RESET then INIT else if e == STOP then SHUTDOWN else s
    case SHUTDOWN => s
  }

  /** The transitions event by event. An error is taken in every state but ERROR and SHUTDOWN, a stop in every state but
      INIT and SHUTDOWN; each other event is taken in one state, START in two, and changes nothing elsewhere. */
  lemma EventEffects(s: RTState)
    ensures Target(s, ERROR_OCCUR) == if s == SHUTDOWN then SHUTDOWN else ERROR
    ensures Target(s, STOP) == if s == INIT then INIT else SHUTDOWN
    ensures Target(s, START) == if s == INIT then READY else if s == READY then RUNNING else s
    ensures Target(s, PAUSE) == if s == RUNNING then PAUSED else s
    ensures Target(s, RESUME) == if s == PAUSED then RUNNING else s
    ensures Target(s, RESET) == if s == ERROR then INIT else s
    ensures Target(s, SAFE_MODE_ENTER) == if s == RUNNING then SAFE_MODE else s
    ensures Target(s, SAFE_MODE_EXIT) == if s == SAFE_MODE then RUNNING else s
  {}

  /** Subtraction of unsigned 64-bit times. */
  function Since(now: nat, then': nat): nat { (now - then') % U64 }

  predicate Stale(now: nat, heartbeat: nat) { Since(now, heartbeat) > TIMEOUT_NS }

  /** What the check publishes, with the time it read. */
  datatype Notice = Entered(at: nat, ageMs: nat) | Exited(at: nat, downtimeMs: nat)

  /** enteredAt is 0 when no entry is pending. */
  datatype State = State(rt: RTState, enteredAt: nat, notices: seq<Notice>)

  const INITIAL := State(INIT, 0, [])

  function Check(s: State, now: nat, heartbeat: nat): State {
    if Stale(now, heartbeat) then
      if s.rt == RUNNING then
        State(SAFE_MODE, now, s.notices + [Entered(now, Since(now, heartbeat) / MS)])
      else s
    else if s.rt == SAFE_MODE then
      State(RUNNING, 0,
            if s.enteredAt > 0 then s.notices + [Exited(now, Since(now, s.enteredAt) / MS)] else s.notices)
    else s
  }

  datatype Event = DoCheck(now: nat, heartbeat: nat) | DoEvent(e: RTEvent)

  /** Times are 64-bit; anyone may raise any event at any time. */
  predicate Enabled(e: Event) {
    e.DoCheck? ==> e.now < U64 && e.heartbeat < U64
  }

  function Next(s: State, e: Event): State {
    match e
    case DoCheck(now, heartbeat) => Check(s, now, heartbeat)
    case DoEvent(e) => s.(rt := Target(s.rt, e))
  }

  ghost predicate Steps(s: State, es: seq<Event>, t: State)
    decreases es
  {
    if es == [] then s == t else Enabled(es[0]) && Steps(Next(s, es[0]), es[1..], t)
  }

  ghost predicate Reachable(es: seq<Event>, s: State) { Steps(INITIAL, es, s) }

  /** Each exit follows the entry it closes and reports the time since that entry. */
  ghost predicate Paired(ns: seq<Notice>) {
    forall k :: 0 <= k < |ns| && ns[k].Exited? ==>
      k > 0 && ns[k - 1].Entered? && ns[k].downtimeMs == Since(ns[k].at, ns[k - 1].at) / MS
  }

  /** Every published age, as the check computes it, is beyond the timeout. */
  ghost predicate Overdue(ns: seq<Notice>) {
    forall k :: 0 <= k < |ns| && ns[k].Entered? ==> ns[k].ageMs >= TIMEOUT_NS / MS
  }

  ghost predicate Inv(s: State) {
    && Paired(s.notices) && Overdue(s.notices)
    && (s.enteredAt > 0 ==> s.notices != [] && s.notices[|s.notices| - 1].Entered? &&
                            s.notices[|s.notices| - 1].at == s.enteredAt)
  }

  lemma AgeMs(now: nat, heartbeat: nat)
    requires Stale(now, heartbeat)
    ensures Since(now, heartbeat) / MS >= TIMEOUT_NS / MS
  {}

  lemma StepKeepsInv(s: State, e: Event)
    requires Inv(s) && Enabled(e)
    ensures Inv(Next(s, e))
  {
    if e.DoCheck? && Stale(e.now, e.heartbeat) {
      AgeMs(e.now, e.heartbeat);
    }
    var t := Next(s, e);
    assert forall k :: 0 <= k < |s.notices| ==> t.notices[k] == s.notices[k];
  }

  lemma {:induction false} RunKeepsInv(s: State, es: seq<Event>, t: State)
    requires Inv(s) && Steps(s, es, t)
    ensures Inv(t)
    decreases es
  {
    if es != [] {
      StepKeepsInv(s, es[0]);
      RunKeepsInv(Next(s, es[0]), es[1..], t);
    }
  }

  function Exits(ns: seq<Notice>): nat {
    if ns == [] then 0 else Exits(ns[..|ns| - 1]) + if ns[|ns| - 1].Exited? then 1 else 0
  }

  lemma {:induction false} ExitsBounded(ns: seq<Notice>)
    requires Paired(ns)
    ensures 2 * Exits(ns) <= |ns|
    decreases |ns|
  {
    if ns != [] {
      var front := ns[..|ns| - 1];
      assert Paired(front) by {
        assert forall k :: 0 <= k < |front| ==> front[k] == ns[k];
      }
      if ns[|ns| - 1].Exited? {
        var front2 := front[..|front| - 1];
        assert forall k :: 0 <= k < |front2| ==> front2[k] == ns[k];
        ExitsBounded(front2);
      } else {
        ExitsBounded(front);
      }
    }
  }

  /** On every run, whoever raises events in between: exits never outnumber entries, each exit reports the time since
      the entry published just before it, and every published entry carries a computed age beyond the timeout. */
  lemma NoticesPaired(es: seq<Event>, s: State)
    requires Reachable(es, s)
    ensures Paired(s.notices) && Overdue(s.notices)
    ensures 2 * Exits(s.notices) <= |s.notices|
  {
    RunKeepsInv(INITIAL, es, s);
    ExitsBounded(s.notices);
  }

  /** After a check the machine runs only on a fresh heartbeat and is in SAFE_MODE only on a stale one. */
  lemma CheckDecides(s: State, now: nat, heartbeat: nat)
    ensures var t := Check(s, now, heartbeat);
            && (t.rt == RUNNING ==> !Stale(now, heartbeat))
            && (t.rt == SAFE_MODE ==> Stale(now, heartbeat))
            && (s.rt == RUNNING || s.rt == SAFE_MODE <==> t.rt == RUNNING || t.rt == SAFE_MODE)
            && (s.rt != RUNNING && s.rt != SAFE_MODE ==> t == s)
  {}

  /** What a check publishes: an entry with the time read and the heartbeat's age when it leaves RUNNING, an exit with
      the time since the recorded entry when it leaves SAFE_MODE and there is one, and nothing otherwise. */
  lemma CheckPublishes(s: State, now: nat, heartbeat: nat)
    ensures var t := Check(s, now, heartbeat);
            && (s.rt == RUNNING && t.rt == SAFE_MODE ==>
                  t.enteredAt == now &&
                  t.notices == s.notices + [Entered(now, (now - heartbeat) % U64 / 1_000_000)])
            && (s.rt == SAFE_MODE && t.rt == RUNNING ==>
                  t.enteredAt == 0 &&
                  t.notices == s.notices + if s.enteredAt > 0
                                           then [Exited(now, (now - s.enteredAt) % U64 / 1_000_000)] else [])
            && (s.rt == t.rt ==> t == s)
  {}

  function Entries(ns: seq<Notice>): nat {
    if ns == [] then 0 else Entries(ns[..|ns| - 1]) + if ns[|ns| - 1].Entered? then 1 else 0
  }

  lemma CountOne(ns: seq<Notice>, n: Notice)
    ensures Entries(ns + [n]) == Entries(ns) + (if n.Entered? then 1 else 0)
    ensures Exits(ns + [n]) == Exits(ns) + (if n.Exited? then 1 else 0)
  {
    assert (ns + [n])[..|ns|] == ns;
  }

  /** Nobody else takes the machine into or out of SAFE_MODE, and the clock has left zero. */
  predicate ChecksOnly(es: seq<Event>) {
    forall i :: 0 <= i < |es| ==>
      if es[i].DoCheck? then es[i].now > 0
      else es[i].e != SAFE_MODE_ENTER && es[i].e != SAFE_MODE_EXIT && es[i].e != STOP && es[i].e != ERROR_OCCUR
  }

  ghost predicate Balanced(s: State) {
    && Entries(s.notices) == Exits(s.notices) + (if s.rt == SAFE_MODE then 1 else 0)
    && (s.rt == SAFE_MODE ==> s.enteredAt > 0)
  }

  lemma StepBalanced(s: State, e: Event)
    requires Balanced(s) && ChecksOnly([e])
    ensures Balanced(Next(s, e))
  {
    assert [e][0] == e;
    if e.DoCheck? {
      CheckBalanced(s, e.now, e.heartbeat, Since(e.now, e.heartbeat) / MS, Since(e.now, s.enteredAt) / MS);
    } else {
      EventEffects(s.rt);
    }
  }

  lemma CheckBalanced(s: State, now: nat, heartbeat: nat, age: nat, downtime: nat)
    requires Balanced(s) && now > 0
    requires age == Since(now, heartbeat) / MS && downtime == Since(now, s.enteredAt) / MS
    ensures Balanced(Check(s, now, heartbeat))
  {
    CountOne(s.notices, Entered(now, age));
    CountOne(s.notices, Exited(now, downtime));
  }

  /** On every run in which only the check enters and leaves SAFE_MODE, each entry published has its exit published,
      except the last one while the machine is in SAFE_MODE. */
  lemma {:induction false} EveryEntryCloses(s: State, es: seq<Event>, t: State)
    requires Steps(s, es, t) && Balanced(s) && ChecksOnly(es)
    ensures Balanced(t)
    decreases es
  {
    if es != [] {
      StepBalanced(s, es[0]);
      EveryEntryCloses(Next(s, es[0]), es[1..], t);
    }
  }

  /** The unsigned difference tells a heartbeat older than the timeout exactly when the heartbeat is not ahead of
      the clock reading, or ahead by almost the whole range. */
  lemma StaleIsLateIff(now: nat, heartbeat: nat)
    requires now < U64 && heartbeat < U64
    ensures (Stale(now, heartbeat) <==> now - heartbeat > TIMEOUT_NS) <==>
            (heartbeat <= now || heartbeat - now >= U64 - TIMEOUT_NS)
  {
    if heartbeat <= now {
      assert Since(now, heartbeat) == now - heartbeat;
    } else {
      assert Since(now, heartbeat) == now - heartbeat + U64;
    }
  }

  /** A heartbeat written between the reading of the clock and of the heartbeat stops a running machine. */
  lemma FreshHeartbeatEntersSafeMode(s: State, now: nat, ahead: nat)
    requires s.rt == RUNNING && 0 < ahead < U64 - TIMEOUT_NS && now + ahead < U64
    ensures Check(s, now, now + ahead).rt == SAFE_MODE
  {
    assert Since(now, now + ahead) == U64 - ahead;
  }

  lemma {:induction false} ShutdownIsFinal(s: State, es: seq<Event>, t: State)
    requires Steps(s, es, t) && s.rt == SHUTDOWN
    ensures t == s
    decreases es
  {
    if es != [] {
      ShutdownIsFinal(Next(s, es[0]), es[1..], t);
    }
  }

  /** Nothing but RESET leads out of ERROR, heartbeats included. */
  lemma {:induction false} ErrorNeedsReset(s: State, es: seq<Event>, t: State)
    requires Steps(s, es, t) && (s.rt == ERROR || s.rt == SHUTDOWN) && DoEvent(RESET) !in es
    ensures t.rt == ERROR || t.rt == SHUTDOWN
    ensures t.notices == s.notices
    decreases es
  {
    if es != [] {
      ErrorNeedsReset(Next(s, es[0]), es[1..], t);
    }
  }

  /** How far a state is from INIT. */
  function Progress(s: RTState): nat {
    match s
    case READY => 1
    case RUNNING => 2
    case PAUSED => 2
    case SAFE_MODE => 2
    case _ => 0
  }

  function Starts(es: seq<Event>): nat {
    if es == [] then 0 else (if es[0] == DoEvent(START) then 1 else 0) + Starts(es[1..])
  }

  /** Only START takes the machine forward, one state at a time: from INIT or ERROR no run reaches RUNNING, PAUSED or
      SAFE_MODE with fewer than two. */
  lemma {:induction false} ForwardOnlyByStart(s: State, es: seq<Event>, t: State)
    requires Steps(s, es, t)
    ensures Progress(t.rt) <= Progress(s.rt) + Starts(es)
    decreases es
  {
    if es != [] {
      ForwardOnlyByStart(Next(s, es[0]), es[1..], t);
    }
  }

  class RTMonitor {
    var rt: RTState
    var enteredAt: nat
    ghost var notices: seq<Notice>

    ghost function View(): State
      reads this
    {
      State(rt, enteredAt, notices)
    }

    constructor ()
      ensures View() == INITIAL && Inv(View())
    {
      rt, enteredAt, notices := INIT, 0, [];
    }

    method HandleEvent(e: RTEvent) returns (code: int)
      modifies this`rt
      ensures rt == Target(old(rt), e)
      ensures code == if rt == old(rt) then -1 else 0
    {
      var next := Target(rt, e);
      if next == rt {
        return -1;
      }
      rt := next;
      return 0;
    }

    method CheckHeartbeat(now: nat, heartbeat: nat)
      requires now < U64 && heartbeat < U64 && Inv(View())
      modifies this
      ensures View() == Next(old(View()), DoCheck(now, heartbeat)) && Inv(View())
    {
      StepKeepsInv(View(), DoCheck(now, heartbeat));
      var age := (now - heartbeat) % U64;
      if age > TIMEOUT_NS {
        if rt == RUNNING {
          enteredAt := now;
          notices := notices + [Entered(now, age / MS)];
          var _ := HandleEvent(SAFE_MODE_ENTER);
        }
      } else if rt == SAFE_MODE {
        if enteredAt > 0 {
          notices := notices + [Exited(now, (now - enteredAt) % U64 / MS)];
        }
        var _ := HandleEvent(SAFE_MODE_EXIT);
        enteredAt := 0;
      }
    }
  }
}
