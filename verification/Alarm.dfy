/** AlarmManager: raising, acknowledging and resolving alarms, the counters the arbiter reads, and the
    escalation of alarms that recur. */
module Alarms {
  import opened Common

  datatype Severity = CRITICAL | WARNING | INFO {
    /** The enumeration's own order: the most severe is the smallest. */
    function Rank(): nat { if CRITICAL? then 0 else if WARNING? then 1 else 2 }
  }

  datatype Lifecycle = ACTIVE | ACKNOWLEDGED | RESOLVED

  datatype Config = Config(severity: Severity, window: int, threshold: nat)

  datatype Alarm = Alarm(code: string, severity: Severity, state: Lifecycle, recurrence: nat)

  /** An id is the code and the millisecond of creation. */
  type Id = (string, int)

  const MAX_HISTORY: nat := 1000
  const SECOND: int := 1_000_000_000

  // ----- counting -----

  datatype Counts = Counts(critical: int, warning: int, info: int) {
    function Get(v: Severity): int {
      if v.CRITICAL? then critical else if v.WARNING? then warning else info
    }

    function Plus(v: Severity, d: int): Counts {
      if v.CRITICAL? then this.(critical := critical + d)
      else if v.WARNING? then this.(warning := warning + d)
      else this.(info := info + d)
    }

    function Total(): int { critical + warning + info }
  }

  function ActiveIds(alarms: map<Id, Alarm>, v: Severity): set<Id> {
    set id | id in alarms && alarms[id].state == ACTIVE && alarms[id].severity == v
  }

  function AllActive(alarms: map<Id, Alarm>): set<Id> {
    set id | id in alarms && alarms[id].state == ACTIVE
  }

  /** The alarms and their statistics. stuck and lost are what the statistics no longer account for: alarms that
      were acknowledged, or overwritten by one with the same id, while active; stuck since the last reset. */
  datatype Book = Book(
    alarms: map<Id, Alarm>, counts: Counts, active: int, raised: int, resolved: int, stuck: Counts, lost: int)
  {
    predicate IsActive(id: Id) { id in alarms && alarms[id].state == ACTIVE }

    function Strand(id: Id): Book {
      if IsActive(id) then this.(stuck := stuck.Plus(alarms[id].severity, 1), lost := lost + 1) else this
    }

    function Raise(id: Id, a: Alarm): Book {
      Strand(id).(alarms := alarms[id := a], counts := counts.Plus(a.severity, 1),
                  active := active + 1, raised := raised + 1)
    }

    function Acknowledge(id: Id): Book {
      if IsActive(id) then Strand(id).(alarms := alarms[id := alarms[id].(state := ACKNOWLEDGED)]) else this
    }

    function Resolve(id: Id): Book {
      if IsActive(id) then
        this.(alarms := alarms[id := alarms[id].(state := RESOLVED)], counts := counts.Plus(alarms[id].severity, -1),
              active := active - 1, resolved := resolved + 1)
      else this
    }

    function Reset(): Book {
      this.(alarms := ResolveAll(alarms), counts := Counts(0, 0, 0), active := 0,
            resolved := resolved + |AllActive(alarms)|, stuck := Counts(0, 0, 0))
    }

    predicate HasCritical() { counts.critical > 0 }
  }

  function ResolvedForm(a: Alarm): Alarm {
    if a.state == ACTIVE then a.(state := RESOLVED) else a
  }

  function ResolveAll(alarms: map<Id, Alarm>): map<Id, Alarm> {
    map id | id in alarms :: ResolvedForm(alarms[id])
  }

  ghost predicate Exact(b: Book, v: Severity) {
    b.counts.Get(v) == |ActiveIds(b.alarms, v)| + b.stuck.Get(v) && b.stuck.Get(v) >= 0
  }

  ghost predicate BookOk(b: Book) {
    && Exact(b, CRITICAL) && Exact(b, WARNING) && Exact(b, INFO)
    && b.active == b.counts.Total()
    && b.raised == b.resolved + |AllActive(b.alarms)| + b.lost
  }

  lemma ActiveUpdated(m: map<Id, Alarm>, id: Id, a: Alarm, v: Severity)
    ensures ActiveIds(m[id := a], v) ==
            (ActiveIds(m, v) - {id}) + (if a.state == ACTIVE && a.severity == v then {id} else {})
    ensures AllActive(m[id := a]) == (AllActive(m) - {id}) + (if a.state == ACTIVE then {id} else {})
  {}

  function One(b: bool): nat { if b then 1 else 0 }

  lemma SizeUpdated(before: set<Id>, id: Id, add: bool)
    ensures |(before - {id}) + (if add then {id} else {})| == |before| - One(id in before) + One(add)
  {
    if id in before {
      assert before == (before - {id}) + {id};
    } else {
      assert before - {id} == before;
    }
  }

  lemma ActiveCounted(m: map<Id, Alarm>, id: Id, a: Alarm, v: Severity)
    ensures |ActiveIds(m[id := a], v)| ==
            |ActiveIds(m, v)| - One(id in ActiveIds(m, v)) + One(a.state == ACTIVE && a.severity == v)
    ensures |AllActive(m[id := a])| == |AllActive(m)| - One(id in AllActive(m)) + One(a.state == ACTIVE)
  {
    ActiveUpdated(m, id, a, v);
    SizeUpdated(ActiveIds(m, v), id, a.state == ACTIVE && a.severity == v);
    SizeUpdated(AllActive(m), id, a.state == ACTIVE);
  }

  lemma PlusGet(c: Counts, v: Severity, d: int, w: Severity)
    ensures c.Plus(v, d).Get(w) == c.Get(w) + if v == w then d else 0
    ensures c.Plus(v, d).Total() == c.Total() + d
  {}

  lemma RaiseExact(b: Book, id: Id, a: Alarm, v: Severity)
    requires Exact(b, v) && a.state == ACTIVE
    ensures Exact(b.Raise(id, a), v)
  {
    ActiveCounted(b.alarms, id, a, v);
    PlusGet(b.counts, a.severity, 1, v);
    if b.IsActive(id) {
      PlusGet(b.stuck, b.alarms[id].severity, 1, v);
    }
  }

  lemma RaiseBook(b: Book, id: Id, a: Alarm)
    requires BookOk(b) && a.state == ACTIVE
    ensures BookOk(b.Raise(id, a))
  {
    RaiseExact(b, id, a, CRITICAL);
    RaiseExact(b, id, a, WARNING);
    RaiseExact(b, id, a, INFO);
    ActiveCounted(b.alarms, id, a, INFO);
    PlusGet(b.counts, a.severity, 1, INFO);
  }

  lemma AcknowledgeExact(b: Book, id: Id, v: Severity)
    requires Exact(b, v)
    ensures Exact(b.Acknowledge(id), v)
  {
    if b.IsActive(id) {
      ActiveCounted(b.alarms, id, b.alarms[id].(state := ACKNOWLEDGED), v);
      PlusGet(b.stuck, b.alarms[id].severity, 1, v);
    }
  }

  lemma AcknowledgeBook(b: Book, id: Id)
    requires BookOk(b)
    ensures BookOk(b.Acknowledge(id))
  {
    AcknowledgeExact(b, id, CRITICAL);
    AcknowledgeExact(b, id, WARNING);
    AcknowledgeExact(b, id, INFO);
    if b.IsActive(id) {
      ActiveCounted(b.alarms, id, b.alarms[id].(state := ACKNOWLEDGED), INFO);
    }
  }

  lemma ResolveExact(b: Book, id: Id, v: Severity)
    requires Exact(b, v)
    ensures Exact(b.Resolve(id), v)
  {
    if b.IsActive(id) {
      ActiveCounted(b.alarms, id, b.alarms[id].(state := RESOLVED), v);
      PlusGet(b.counts, b.alarms[id].severity, -1, v);
    }
  }

  lemma ResolveBook(b: Book, id: Id)
    requires BookOk(b)
    ensures BookOk(b.Resolve(id))
  {
    ResolveExact(b, id, CRITICAL);
    ResolveExact(b, id, WARNING);
    ResolveExact(b, id, INFO);
    if b.IsActive(id) {
      ActiveCounted(b.alarms, id, b.alarms[id].(state := RESOLVED), INFO);
      PlusGet(b.counts, b.alarms[id].severity, -1, INFO);
    }
  }

  lemma NoneActive(m: map<Id, Alarm>, v: Severity)
    ensures AllActive(ResolveAll(m)) == {} && ActiveIds(ResolveAll(m), v) == {}
  {}

  lemma ResetBook(b: Book)
    requires BookOk(b)
    ensures BookOk(b.Reset())
  {
    NoneActive(b.alarms, CRITICAL);
    NoneActive(b.alarms, WARNING);
    NoneActive(b.alarms, INFO);
  }

  // ----- recurrence -----

  /** A duration in whole seconds, rounded toward zero. */
  function Seconds(d: int): int { if d >= 0 then d / SECOND else -((-d) / SECOND) }

  predicate Close(earlier: int, later: int, window: int) { Seconds(later - earlier) <= window }

  /** How many of the latest times follow each other within the window. */
  function Burst(times: seq<int>, window: int): nat
    decreases |times|
  {
    if |times| < 2 then |times|
    else if Close(times[|times| - 2], times[|times| - 1], window) then Burst(times[..|times| - 1], window) + 1
    else 1
  }

  /** The last k times each follow the one before within the window. */
  ghost predicate Run(times: seq<int>, window: int, k: nat) {
    && k <= |times|
    && forall i :: |times| - k < i < |times| ==> Close(times[i - 1], times[i], window)
  }

  /** Times in nanoseconds are within a window in seconds if they are less than one second more than it apart; a time
      before the earlier one counts as within any window that is not negative. */
  lemma CloseIff(earlier: int, later: int, window: int)
    ensures window >= 0 ==> (Close(earlier, later, window) <==> later - earlier < (window + 1) * 1_000_000_000)
    ensures window < 0 ==> (Close(earlier, later, window) <==> later - earlier <= window * 1_000_000_000)
  {}

  lemma {:induction false} BurstIsLongestRun(times: seq<int>, window: int, k: nat)
    ensures Burst(times, window) <= |times|
    ensures k <= Burst(times, window) <==> Run(times, window, k)
    decreases |times|
  {
    if |times| >= 2 {
      var front, n := times[..|times| - 1], |times|;
      if k > 0 {
        BurstIsLongestRun(front, window, k - 1);
        assert Run(times, window, k) <==>
          Run(front, window, k - 1) && (k >= 2 ==> Close(times[n - 2], times[n - 1], window)) by {
          assert forall i :: 0 <= i < n - 1 ==> front[i] == times[i];
        }
      }
      BurstIsLongestRun(front, window, 0);
      BurstIsLongestRun(front, window, 1);
    }
  }

  function Escalate(c: Config, count: nat): Severity {
    if count >= c.threshold then
      if c.severity == INFO then WARNING else if c.severity == WARNING then CRITICAL else c.severity
    else c.severity
  }

  /** Per code: when it was last raised, its running count, and all its times. */
  datatype Recurrence = Recurrence(last: map<string, int>, count: map<string, nat>, times: map<string, seq<int>>) {
    predicate Valid() {
      last.Keys == count.Keys == times.Keys
    }

    function Next(code: string, now: int, window: int): Recurrence
      requires Valid()
    {
      var n :=
        if code in last then
          if Seconds(now - last[code]) <= window then (count[code] + 1) % U32 else 1
        else 1;
      Recurrence(last[code := now], count[code := n],
                 times[code := (if code in times then times[code] else []) + [now]])
    }
  }

  ghost predicate Tracked(r: Recurrence, config: map<string, Config>, code: string) {
    code in r.times ==>
      && code in r.last && code in r.count && code in config
      && r.times[code] != []
      && r.last[code] == r.times[code][|r.times[code]| - 1]
      && r.count[code] == Burst(r.times[code], config[code].window) % U32
  }

  ghost predicate RecurrenceOk(r: Recurrence, config: map<string, Config>) {
    r.Valid() && forall code :: code in r.times ==> Tracked(r, config, code)
  }

  lemma ModSucc(n: nat)
    ensures (n % U32 + 1) % U32 == (n + 1) % U32
  {}

  lemma NextTracked(r: Recurrence, config: map<string, Config>, code: string, now: int)
    requires r.Valid() && Tracked(r, config, code) && code in config
    ensures Tracked(r.Next(code, now, config[code].window), config, code)
  {
    var w := config[code].window;
    if code in r.times {
      var ts := r.times[code] + [now];
      assert ts[..|ts| - 1] == r.times[code];
      ModSucc(Burst(r.times[code], w));
    }
  }

  lemma NextRecurrence(r: Recurrence, config: map<string, Config>, code: string, now: int)
    requires RecurrenceOk(r, config) && code in config
    ensures RecurrenceOk(r.Next(code, now, config[code].window), config)
  {
    var t := r.Next(code, now, config[code].window);
    forall c | c in t.times ensures Tracked(t, config, c) {
      if c == code {
        NextTracked(r, config, code, now);
      } else {
        assert Tracked(r, config, c);
      }
    }
  }

  // ----- runs -----

  datatype State = State(book: Book, rec: Recurrence, history: seq<Alarm>, entries: seq<Alarm>)

  function Initial(): State {
    State(Book(map[], Counts(0, 0, 0), 0, 0, 0, Counts(0, 0, 0), 0), Recurrence(map[], map[], map[]), [], [])
  }

  datatype Event =
    | DoRaise(code: string, now: int, ms: int)
    | DoAcknowledge(id: Id)
    | DoResolve(id: Id)
    | DoReset

  /** The history keeps the latest entries. */
  function Kept(history: seq<Alarm>, a: Alarm): seq<Alarm> {
    var h := history + [a];
    if |h| > MAX_HISTORY then h[1..] else h
  }

  function Record(s: State, a: Alarm): State {
    s.(history := Kept(s.history, a), entries := s.entries + [a])
  }

  function NewAlarm(rec: Recurrence, config: map<string, Config>, code: string): Alarm
    requires code in config && code in rec.count
  {
    Alarm(code, Escalate(config[code], rec.count[code]), ACTIVE, rec.count[code])
  }

  /** An unknown code raises nothing. */
  function Raise(s: State, config: map<string, Config>, code: string, now: int, ms: int): State
    requires s.rec.Valid()
  {
    if code !in config then s
    else
      var rec := s.rec.Next(code, now, config[code].window);
      var a := NewAlarm(rec, config, code);
      Record(s.(book := s.book.Raise((code, ms), a), rec := rec), a)
  }

  function Resolve(s: State, id: Id): State {
    if s.book.IsActive(id) then Record(s.(book := s.book.Resolve(id)), s.book.alarms[id].(state := RESOLVED)) else s
  }

  function Reset(s: State): State { s.(book := s.book.Reset()) }

  function Next(s: State, config: map<string, Config>, e: Event): State
    requires s.rec.Valid()
  {
    match e
    case DoRaise(code, now, ms) => Raise(s, config, code, now, ms)
    case DoAcknowledge(id) => s.(book := s.book.Acknowledge(id))
    case DoResolve(id) => Resolve(s, id)
    case DoReset => Reset(s)
  }

  ghost predicate Steps(s: State, config: map<string, Config>, es: seq<Event>, t: State)
    decreases es
  {
    if es == [] then s == t else s.rec.Valid() && Steps(Next(s, config, es[0]), config, es[1..], t)
  }

  ghost predicate Reachable(config: map<string, Config>, es: seq<Event>, s: State) {
    Steps(Initial(), config, es, s)
  }

  function LastOf(entries: seq<Alarm>): seq<Alarm> {
    if |entries| > MAX_HISTORY then entries[|entries| - MAX_HISTORY..] else entries
  }

  ghost predicate Inv(s: State, config: map<string, Config>) {
    BookOk(s.book) && RecurrenceOk(s.rec, config) && s.history == LastOf(s.entries)
  }

  lemma KeptLast(entries: seq<Alarm>, a: Alarm)
    ensures Kept(LastOf(entries), a) == LastOf(entries + [a])
  {}

  lemma RaiseKeepsInv(s: State, config: map<string, Config>, code: string, now: int, ms: int)
    requires Inv(s, config)
    ensures Inv(Raise(s, config, code, now, ms), config)
  {
    if code in config {
      NextRecurrence(s.rec, config, code, now);
      var a := NewAlarm(s.rec.Next(code, now, config[code].window), config, code);
      RaiseBook(s.book, (code, ms), a);
      KeptLast(s.entries, a);
    }
  }

  lemma ResolveKeepsInv(s: State, config: map<string, Config>, id: Id)
    requires Inv(s, config)
    ensures Inv(Resolve(s, id), config)
  {
    ResolveBook(s.book, id);
    if s.book.IsActive(id) {
      KeptLast(s.entries, s.book.alarms[id].(state := RESOLVED));
    }
  }

  lemma AcknowledgeKeepsInv(s: State, config: map<string, Config>, id: Id)
    requires Inv(s, config)
    ensures Inv(s.(book := s.book.Acknowledge(id)), config)
  {
    AcknowledgeBook(s.book, id);
  }

  lemma ResetKeepsInv(s: State, config: map<string, Config>)
    requires Inv(s, config)
    ensures Inv(Reset(s), config)
  {
    ResetBook(s.book);
  }

  lemma StepKeepsInv(s: State, config: map<string, Config>, e: Event)
    requires Inv(s, config)
    ensures Inv(Next(s, config, e), config)
  {
    match e
    case DoRaise(code, now, ms) => RaiseKeepsInv(s, config, code, now, ms);
    case DoAcknowledge(id) => AcknowledgeKeepsInv(s, config, id);
    case DoResolve(id) => ResolveKeepsInv(s, config, id);
    case DoReset => ResetKeepsInv(s, config);
  }

  lemma {:induction false} RunKeepsInv(s: State, config: map<string, Config>, es: seq<Event>, t: State)
    requires Inv(s, config) && Steps(s, config, es, t)
    ensures Inv(t, config)
    decreases es
  {
    if es != [] {
      StepKeepsInv(s, config, es[0]);
      RunKeepsInv(Next(s, config, es[0]), config, es[1..], t);
    }
  }

  lemma ReachableInv(config: map<string, Config>, es: seq<Event>, s: State)
    requires Reachable(config, es, s)
    ensures Inv(s, config)
  {
    InitialInv(config);
    RunKeepsInv(Initial(), config, es, s);
  }

  lemma NothingActive(v: Severity)
    ensures AllActive(map[]) == {} && ActiveIds(map[], v) == {}
  {}

  lemma InitialInv(config: map<string, Config>)
    ensures Inv(Initial(), config)
  {
    NothingActive(CRITICAL);
    NothingActive(WARNING);
    NothingActive(INFO);
  }

  /** After every run the counters are the active alarms plus the stranded ones, none negative, and every raise is
      accounted for. */
  lemma CountersExact(config: map<string, Config>, es: seq<Event>, s: State, v: Severity)
    requires Reachable(config, es, s)
    ensures s.book.counts.Get(v) == |ActiveIds(s.book.alarms, v)| + s.book.stuck.Get(v)
    ensures s.book.stuck.Get(v) >= 0
    ensures s.book.active == s.book.counts.Total()
    ensures s.book.raised == s.book.resolved + |AllActive(s.book.alarms)| + s.book.lost
    ensures s.history == LastOf(s.entries)
  {
    ReachableInv(config, es, s);
  }

  lemma CriticalIff(b: Book)
    requires BookOk(b)
    ensures b.HasCritical() <==> ActiveIds(b.alarms, CRITICAL) != {} || b.stuck.critical > 0
  {
    var n := ActiveIds(b.alarms, CRITICAL);
    if n != {} {
      var id :| id in n;
      assert n == {id} + (n - {id});
    }
  }

  /** hasCriticalAlarm reports an active critical alarm, or one stranded since the last reset. */
  lemma HasCriticalIff(config: map<string, Config>, es: seq<Event>, s: State)
    requires Reachable(config, es, s)
    ensures s.book.HasCritical() <==> ActiveIds(s.book.alarms, CRITICAL) != {} || s.book.stuck.critical > 0
  {
    ReachableInv(config, es, s);
    CriticalIff(s.book);
  }

  /** Stranded alarms stay counted until a reset. */
  lemma StuckGrows(s: State, config: map<string, Config>, e: Event, v: Severity)
    requires s.rec.Valid() && !e.DoReset?
    ensures Next(s, config, e).book.stuck.Get(v) >= s.book.stuck.Get(v)
  {}

  lemma {:induction false} StuckUntilReset(s: State, config: map<string, Config>, es: seq<Event>, t: State, v: Severity)
    requires Steps(s, config, es, t) && DoReset !in es
    ensures t.book.stuck.Get(v) >= s.book.stuck.Get(v)
    decreases es
  {
    if es != [] {
      StuckGrows(s, config, es[0], v);
      StuckUntilReset(Next(s, config, es[0]), config, es[1..], t, v);
    }
  }

  /** Acknowledging an active critical alarm keeps hasCriticalAlarm true whatever follows, until a reset. */
  lemma AcknowledgedNeverClears(config: map<string, Config>, before: seq<Event>, s: State, id: Id,
                                after: seq<Event>, t: State)
    requires Reachable(config, before, s) && s.rec.Valid()
    requires id in ActiveIds(s.book.alarms, CRITICAL)
    requires Steps(Next(s, config, DoAcknowledge(id)), config, after, t) && DoReset !in after
    ensures t.book.HasCritical()
  {
    ReachableInv(config, before, s);
    var s1 := Next(s, config, DoAcknowledge(id));
    StepKeepsInv(s, config, DoAcknowledge(id));
    StuckUntilReset(s1, config, after, t, CRITICAL);
    RunKeepsInv(s1, config, after, t);
    PlusGet(s.book.stuck, CRITICAL, 1, CRITICAL);
  }

  /** The event raises an alarm with this id. */
  predicate Raises(e: Event, config: map<string, Config>, id: Id) {
    e.DoRaise? && e.code in config && (e.code, e.ms) == id
  }

  /** The event concerns the alarm with this id, if it is active. */
  predicate Concerns(e: Event, id: Id) {
    e == DoAcknowledge(id) || e == DoResolve(id) || e == DoReset
  }

  /** One step of an alarm's life: it changes only from ACTIVE, to ACKNOWLEDGED when it is acknowledged and to RESOLVED
      when it is resolved or everything is reset; nothing else of it changes. */
  lemma LifeStep(s: State, config: map<string, Config>, e: Event, id: Id)
    requires s.rec.Valid() && id in s.book.alarms && !Raises(e, config, id)
    ensures var t := Next(s, config, e);
            var a := s.book.alarms[id];
            && id in t.book.alarms
            && t.book.alarms[id].code == a.code && t.book.alarms[id].severity == a.severity
            && t.book.alarms[id].recurrence == a.recurrence
            && t.book.alarms[id].state == (if a.state != ACTIVE || !Concerns(e, id) then a.state
                                           else if e.DoAcknowledge? then ACKNOWLEDGED else RESOLVED)
  {}

  /** What the events make of an active alarm: the first that concerns it decides, and nothing after it matters. */
  function Decided(es: seq<Event>, id: Id): Lifecycle {
    if es == [] then ACTIVE
    else if Concerns(es[0], id) then if es[0].DoAcknowledge? then ACKNOWLEDGED else RESOLVED
    else Decided(es[1..], id)
  }

  /** On every run, until its id is raised again, an alarm that is no longer active stays as it is, and an active one
      ends as the first event that concerns it says. */
  lemma {:induction false} LifeDecided(s: State, config: map<string, Config>, es: seq<Event>, t: State, id: Id)
    requires Steps(s, config, es, t) && id in s.book.alarms
    requires forall e :: e in es ==> !Raises(e, config, id)
    ensures id in t.book.alarms
    ensures t.book.alarms[id] ==
            if s.book.alarms[id].state == ACTIVE then s.book.alarms[id].(state := Decided(es, id))
            else s.book.alarms[id]
    decreases es
  {
    if es != [] {
      assert es[0] in es;
      LifeStep(s, config, es[0], id);
      LifeDecided(Next(s, config, es[0]), config, es[1..], t, id);
    }
  }

  /** An active alarm that is acknowledged is never resolved, by whatever follows, resets included: only a new alarm
      with the same id replaces it. */
  lemma AcknowledgedNeverResolved(s: State, config: map<string, Config>, es: seq<Event>, t: State, id: Id)
    requires s.rec.Valid() && id in s.book.alarms && s.book.alarms[id].state != RESOLVED
    requires Steps(Next(s, config, DoAcknowledge(id)), config, es, t)
    requires forall e :: e in es ==> !Raises(e, config, id)
    ensures id in t.book.alarms && t.book.alarms[id] == s.book.alarms[id].(state := ACKNOWLEDGED)
  {
    LifeStep(s, config, DoAcknowledge(id), id);
    LifeDecided(Next(s, config, DoAcknowledge(id)), config, es, t, id);
  }

  /** The severity of a raised alarm follows from the length of the current burst of its code. */
  lemma RaisedSeverity(config: map<string, Config>, es: seq<Event>, s: State, code: string, now: int, ms: int)
    requires Reachable(config, es, s) && s.rec.Valid() && code in config
    ensures var t := Next(s, config, DoRaise(code, now, ms));
            var ts := (if code in s.rec.times then s.rec.times[code] else []) + [now];
            var n := Burst(ts, config[code].window) % U32;
            && t.rec.times == s.rec.times[code := ts]
            && t.book.alarms == s.book.alarms[(code, ms) := Alarm(code, Escalate(config[code], n), ACTIVE, n)]
  {
    ReachableInv(config, es, s);
    if code in s.rec.times {
      assert Tracked(s.rec, config, code);
    }
    NextTracked(s.rec, config, code, now);
  }

  /** Escalation changes the severity, by one level up, exactly from the threshold on; and never to one that
      ranks above the configured one in the enumeration's order. */
  lemma EscalatesIff(c: Config, count: nat)
    ensures Escalate(c, count) != c.severity <==> count >= c.threshold && c.severity != CRITICAL
    ensures Escalate(c, count) != c.severity ==> Escalate(c, count).Rank() == c.severity.Rank() - 1
  {}

  // ----- the manager -----

  /** was with its alarms outside todo resolved. */
  ghost predicate ResolvedBut(was: map<Id, Alarm>, now: map<Id, Alarm>, todo: set<Id>) {
    && now.Keys == was.Keys
    && forall id :: id in was ==> now[id] == if id in todo then was[id] else ResolvedForm(was[id])
  }

  lemma OneResolved(was: map<Id, Alarm>, now: map<Id, Alarm>, todo: set<Id>, id: Id)
    requires ResolvedBut(was, now, todo) && id in todo && todo <= was.Keys
    ensures ResolvedBut(was, now[id := ResolvedForm(now[id])], todo - {id})
    ensures |AllActive(was) - (todo - {id})| == |AllActive(was) - todo| + One(now[id].state == ACTIVE)
  {
    var done := AllActive(was) - todo;
    if now[id].state == ACTIVE {
      assert AllActive(was) - (todo - {id}) == done + {id};
    } else {
      assert AllActive(was) - (todo - {id}) == done;
    }
  }

  lemma AllResolved(was: map<Id, Alarm>, now: map<Id, Alarm>)
    requires ResolvedBut(was, now, {})
    ensures now == ResolveAll(was) && |AllActive(was) - {}| == |AllActive(was)|
  {
    assert AllActive(was) - {} == AllActive(was);
  }

  class AlarmManager {
    const config: map<string, Config>
    var alarms: map<Id, Alarm>
    var counts: Counts
    var active: int
    var totalRaised: int
    var resolved: int
    var last: map<string, int>
    var recurrence: map<string, nat>
    var history: seq<Alarm>
    ghost var stuck: Counts
    ghost var lost: int
    ghost var times: map<string, seq<int>>
    ghost var entries: seq<Alarm>

    ghost function View(): State
      reads this
    {
      State(BookView(), Recurrence(last, recurrence, times), history, entries)
    }

    ghost predicate Valid()
      reads this
    {
      Inv(View(), config)
    }

    constructor (config: map<string, Config>)
      ensures this.config == config && View() == Initial() && Valid()
    {
      this.config := config;
      alarms, counts, active, totalRaised, resolved := map[], Counts(0, 0, 0), 0, 0, 0;
      last, recurrence, history := map[], map[], [];
      stuck, lost, times, entries := Counts(0, 0, 0), 0, map[], [];
      new;
      InitialInv(config);
    }

    method CheckRecurrence(code: string, now: int) returns (n: nat)
      requires View().rec.Valid() && code in config
      modifies this`last, this`recurrence, this`times
      ensures View().rec == old(View().rec).Next(code, now, config[code].window)
      ensures n == recurrence[code]
    {
      if code in last {
        if Seconds(now - last[code]) <= config[code].window {
          recurrence := recurrence[code := (recurrence[code] + 1) % U32];
        } else {
          recurrence := recurrence[code := 1];
        }
      } else {
        recurrence := recurrence[code := 1];
      }
      last := last[code := now];
      times := times[code := (if code in times then times[code] else []) + [now]];
      n := recurrence[code];
    }

    method Remember(a: Alarm)
      modifies this`history, this`entries
      ensures history == Kept(old(history), a) && entries == old(entries) + [a]
    {
      history := history + [a];
      if |history| > MAX_HISTORY {
        history := history[1..];
      }
      entries := entries + [a];
    }

    ghost function BookView(): Book
      reads this
    {
      Book(alarms, counts, active, totalRaised, resolved, stuck, lost)
    }

    method Enter(id: Id, a: Alarm)
      modifies this`alarms, this`counts, this`active, this`totalRaised, this`stuck, this`lost
      ensures BookView() == old(BookView()).Raise(id, a)
    {
      if id in alarms && alarms[id].state == ACTIVE {
        stuck, lost := stuck.Plus(alarms[id].severity, 1), lost + 1;
      }
      alarms := alarms[id := a];
      totalRaised := totalRaised + 1;
      active := active + 1;
      counts := counts.Plus(a.severity, 1);
    }

    /** escalated says that the escalation event is published instead of the ordinary one: it never is. */
    method RaiseAlarm(code: string, now: int, ms: int) returns (found: bool, escalated: bool)
      requires Valid()
      modifies this
      ensures View() == Next(old(View()), config, DoRaise(code, now, ms)) && Valid()
      ensures (found <==> code in config) && !escalated
      ensures found ==>
                && (code, ms) in alarms && alarms == old(alarms)[(code, ms) := alarms[(code, ms)]]
                && alarms[(code, ms)].code == code && alarms[(code, ms)].state == ACTIVE
                && entries == old(entries) + [alarms[(code, ms)]]
      ensures !found ==> alarms == old(alarms) && entries == old(entries)
    {
      StepKeepsInv(View(), config, DoRaise(code, now, ms));
      if code !in config {
        return false, false;
      }
      var n := CheckRecurrence(code, now);
      var severity := Escalate(config[code], n);
      EscalatesIff(config[code], n);
      var a := Alarm(code, severity, ACTIVE, n);
      Enter((code, ms), a);
      Remember(a);
      return true, severity.Rank() > config[code].severity.Rank() && n > 1;
    }

    /** Succeeds for every known id, active or not. */
    method AcknowledgeAlarm(id: Id) returns (ok: bool)
      requires Valid()
      modifies this
      ensures View() == Next(old(View()), config, DoAcknowledge(id)) && Valid()
      ensures ok <==> id in old(alarms)
      ensures alarms == if ok && old(alarms)[id].state == ACTIVE
                        then old(alarms)[id := old(alarms)[id].(state := ACKNOWLEDGED)] else old(alarms)
    {
      StepKeepsInv(View(), config, DoAcknowledge(id));
      if id !in alarms {
        return false;
      }
      if alarms[id].state == ACTIVE {
        stuck, lost := stuck.Plus(alarms[id].severity, 1), lost + 1;
        alarms := alarms[id := alarms[id].(state := ACKNOWLEDGED)];
      }
      return true;
    }

    method Close(id: Id)
      requires id in alarms && alarms[id].state == ACTIVE
      modifies this`alarms, this`counts, this`active, this`resolved
      ensures BookView() == old(BookView()).Resolve(id)
    {
      alarms := alarms[id := alarms[id].(state := RESOLVED)];
      active := active - 1;
      resolved := resolved + 1;
      counts := counts.Plus(alarms[id].severity, -1);
    }

    method ResolveAlarm(id: Id) returns (ok: bool)
      requires Valid()
      modifies this
      ensures View() == Next(old(View()), config, DoResolve(id)) && Valid()
      ensures ok <==> id in old(alarms) && old(alarms)[id].state == ACTIVE
      ensures alarms == if ok then old(alarms)[id := old(alarms)[id].(state := RESOLVED)] else old(alarms)
      ensures entries == old(entries) + if ok then [alarms[id]] else []
    {
      StepKeepsInv(View(), config, DoResolve(id));
      if id !in alarms || alarms[id].state != ACTIVE {
        return false;
      }
      Close(id);
      Remember(alarms[id]);
      return true;
    }

    /** Resolves the active alarms one by one, in any order, and returns how many there were. */
    method ResolveEach() returns (count: nat)
      modifies this`alarms
      ensures alarms == ResolveAll(old(alarms))
      ensures count == |AllActive(old(alarms))|
    {
      count := 0;
      ghost var was := alarms;
      var todo := alarms.Keys;
      assert AllActive(was) - todo == {};
      while todo != {}
        invariant todo <= was.Keys && ResolvedBut(was, alarms, todo)
        invariant count == |AllActive(was) - todo|
        decreases |todo|
      {
        var id :| id in todo;
        OneResolved(was, alarms, todo, id);
        if alarms[id].state == ACTIVE {
          count := count + 1;
        }
        alarms := alarms[id := ResolvedForm(alarms[id])];
        todo := todo - {id};
      }
      AllResolved(was, alarms);
    }

    method ResetAllAlarms() returns (count: nat)
      requires Valid()
      modifies this
      ensures View() == Next(old(View()), config, DoReset) && Valid()
      ensures count == |AllActive(old(alarms))|
      ensures alarms.Keys == old(alarms).Keys
      ensures forall id :: id in alarms ==>
                alarms[id] == if old(alarms)[id].state == ACTIVE then old(alarms)[id].(state := RESOLVED)
                              else old(alarms)[id]
    {
      StepKeepsInv(View(), config, DoReset);
      count := ResolveEach();
      counts, active := Counts(0, 0, 0), 0;
      resolved := resolved + count;
      stuck := Counts(0, 0, 0);
      assert BookView() == old(BookView()).Reset();
    }

    method HasCriticalAlarm() returns (b: bool)
      requires Valid()
      ensures b <==> ActiveIds(alarms, CRITICAL) != {} || stuck.critical > 0
    {
      CriticalIff(BookView());
      b := counts.critical > 0;
    }
  }
}
