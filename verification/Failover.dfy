/** FailoverManager's restart limiter: a count and the start of one fixed window per process. Times are
    nanoseconds of a clock that does not run backwards; the epoch is 0. */
module Failover {
  import opened Common

  datatype Policy = Policy(process: string, maxRestarts: nat, window: nat)

  datatype Info = Info(count: nat, windowStart: int)

  // ----- the two critical sections -----

  predicate Expired(info: Info, now: int, window: nat) {
    now - info.windowStart > window
  }

  /** canRestart: no history, an expired window, or room in the window. */
  predicate Allowed(info: Option<Info>, now: int, p: Policy) {
    info.None? || Expired(info.value, now, p.window) || info.value.count < p.maxRestarts
  }

  /** The counting block of triggerRestart; a process without history starts at the epoch. */
  function Counted(info: Option<Info>, now: int, p: Policy): Info {
    var i := if info.Some? then info.value else Info(0, 0);
    var j := if Expired(i, now, p.window) then Info(0, now) else i;
    j.(count := (j.count + 1) % U32)
  }

  class FailoverManager {
    const policy: Policy
    var running: bool
    var tracking: map<string, Info>

    constructor (p: Policy)
      requires p.maxRestarts > 0
      ensures policy == p && !running && tracking == map[]
    {
      policy := p;
      running := false;
      tracking := map[];
    }

    function Tracked(name: string): Option<Info>
      reads this
    {
      if name in tracking then Some(tracking[name]) else None
    }

    method Start() returns (ok: bool)
      modifies this`running
      ensures running && ok == !old(running)
    {
      ok := !running;
      running := true;
    }

    method Stop()
      modifies this`running
      ensures !running
    {
      running := false;
    }

    method CanRestart(name: string, now: int) returns (ok: bool)
      ensures ok == Allowed(Tracked(name), now, policy)
    {
      if name !in tracking {
        return true;
      }
      if now - tracking[name].windowStart > policy.window {
        return true;
      }
      return tracking[name].count < policy.maxRestarts;
    }

    method TriggerRestart(name: string, now: int) returns (ok: bool)
      modifies this`tracking
      ensures ok == (name == policy.process)
      ensures tracking == if ok then old(tracking)[name := Counted(old(Tracked(name)), now, policy)] else old(tracking)
    {
      if name != policy.process {
        return false;
      }
      var info := if name in tracking then tracking[name] else Info(0, 0);
      if now - info.windowStart > policy.window {
        info := Info(0, now);
      }
      info := info.(count := (info.count + 1) % U32);
      tracking := tracking[name := info];
      return true;
    }

    /** The clock is read twice: `checked` in the check, `counted` in the count. */
    method HandleProcessFailure(name: string, checked: int, counted: int) returns (restarted: bool)
      modifies this`tracking
      ensures restarted == (running && name == policy.process && old(Allowed(Tracked(name), checked, policy)))
      ensures tracking == if restarted then old(tracking)[name := Counted(old(Tracked(name)), counted, policy)]
                          else old(tracking)
    {
      if !running || name != policy.process {
        return false;
      }
      var allowed := CanRestart(name, checked);
      if !allowed {
        return false;
      }
      restarted := TriggerRestart(name, counted);
    }
  }

  // ----- concurrent handlers -----

  /** One counted restart: when, and the window it was counted in. */
  datatype Restart = Restart(time: int, windowStart: int)

  /** `pending` handlers have passed the check and not yet counted; `clock` is the latest reading. */
  datatype State = State(info: Option<Info>, pending: nat, clock: int, restarts: seq<Restart>)

  datatype Event = Check(now: int) | Count(now: int)

  predicate Enabled(s: State, e: Event, handlers: nat) {
    && s.clock <= e.now
    && (e.Check? ==> s.pending < handlers)
    && (e.Count? ==> s.pending > 0)
  }

  function Next(s: State, e: Event, p: Policy): State
    requires e.Count? ==> s.pending > 0
  {
    match e
    case Check(now) =>
      if Allowed(s.info, now, p) then s.(pending := s.pending + 1, clock := now) else s.(clock := now)
    case Count(now) =>
      var i := Counted(s.info, now, p);
      State(Some(i), s.pending - 1, now, s.restarts + [Restart(now, i.windowStart)])
  }

  ghost predicate Steps(s: State, es: seq<Event>, p: Policy, handlers: nat, t: State)
    decreases es
  {
    if es == [] then s == t
    else Enabled(s, es[0], handlers) && Steps(Next(s, es[0], p), es[1..], p, handlers, t)
  }

  function CountWindow(rs: seq<Restart>, w: int): nat {
    if rs == [] then 0
    else CountWindow(rs[..|rs| - 1], w) + (if rs[|rs| - 1].windowStart == w then 1 else 0)
  }

  predicate Within(r: Restart, lo: int, hi: int) { lo <= r.time <= hi }

  function CountBetween(rs: seq<Restart>, lo: int, hi: int): nat {
    if rs == [] then 0
    else CountBetween(rs[..|rs| - 1], lo, hi) + (if Within(rs[|rs| - 1], lo, hi) then 1 else 0)
  }

  // ----- what every step keeps -----

  /** Restart `i` lies in its window, which it either shares with the restart before it or opens after the
      previous window is over; only the very first window may have begun before its first restart, at the epoch. */
  ghost predicate Linked(rs: seq<Restart>, i: nat, window: nat)
    requires i < |rs|
  {
    && rs[i].windowStart <= rs[i].time <= rs[i].windowStart + window
    && (|| (i > 0 && rs[i].windowStart == rs[i - 1].windowStart)
        || (i > 0 && rs[i].windowStart == rs[i].time && rs[i - 1].windowStart + window < rs[i].windowStart)
        || (i == 0 && (rs[i].windowStart == rs[i].time || rs[i].windowStart == 0)))
  }

  ghost predicate Windows(rs: seq<Restart>, window: nat) {
    forall i :: 0 <= i < |rs| ==> Linked(rs, i, window)
  }

  /** The first restart opened its window. */
  predicate Anchored(rs: seq<Restart>) {
    rs != [] ==> rs[0].windowStart == rs[0].time
  }

  ghost predicate Limited(rs: seq<Restart>, limit: int) {
    forall w :: CountWindow(rs, w) <= limit
  }

  /** The current window: it is the last restart's, its count is exact, and while it is open the pending
      handlers are already paid for. */
  ghost predicate Current(info: Info, s: State, window: nat, limit: int) {
    && s.restarts != []
    && info.windowStart == s.restarts[|s.restarts| - 1].windowStart <= s.clock
    && info.count == CountWindow(s.restarts, info.windowStart)
    && (Expired(info, s.clock, window) || info.count + s.pending <= limit)
  }

  /** The most a window can hold: the limit, and the handlers that can be past the check beyond one. */
  function Limit(p: Policy, handlers: nat): int { p.maxRestarts + handlers - 1 }

  ghost predicate Inv(s: State, p: Policy, handlers: nat) {
    && s.pending <= handlers && s.clock >= 0
    && (s.info.None? ==> s.restarts == [])
    && Windows(s.restarts, p.window)
    && Limited(s.restarts, Limit(p, handlers))
    && (s.info.Some? ==> Current(s.info.value, s, p.window, Limit(p, handlers)))
  }

  predicate Sensible(p: Policy, handlers: nat) {
    handlers > 0 && p.maxRestarts > 0 && p.maxRestarts + handlers <= U32
  }

  lemma {:induction false} Later(rs: seq<Restart>, window: nat, i: nat, j: nat)
    requires Windows(rs, window) && i <= j < |rs|
    ensures rs[i].windowStart == rs[j].windowStart || rs[i].windowStart + window < rs[j].windowStart
  {
    if i < j {
      Later(rs, window, i, j - 1);
      assert Linked(rs, j, window);
    }
  }

  lemma {:induction false} Opener(rs: seq<Restart>, window: nat, i: nat) returns (j: nat)
    requires Windows(rs, window) && Anchored(rs) && i < |rs|
    ensures j <= i && rs[j].windowStart == rs[i].windowStart == rs[j].time
  {
    assert Linked(rs, i, window);
    if rs[i].windowStart == rs[i].time {
      j := i;
    } else {
      j := Opener(rs, window, i - 1);
    }
  }

  lemma {:induction false} NewWindowEmpty(rs: seq<Restart>, w: int)
    requires forall i :: 0 <= i < |rs| ==> rs[i].windowStart < w
    ensures CountWindow(rs, w) == 0
  {
    if rs != [] {
      NewWindowEmpty(rs[..|rs| - 1], w);
    }
  }

  lemma CountSnoc(rs: seq<Restart>, r: Restart, w: int)
    ensures CountWindow(rs + [r], w) == CountWindow(rs, w) + (if r.windowStart == w then 1 else 0)
  {
    assert (rs + [r])[..|rs|] == rs;
  }

  lemma WindowsSnoc(rs: seq<Restart>, r: Restart, window: nat)
    requires Windows(rs, window) && Linked(rs + [r], |rs|, window)
    ensures Windows(rs + [r], window)
  {
    forall i | 0 <= i < |rs| + 1 ensures Linked(rs + [r], i, window) {
      if i < |rs| {
        assert Linked(rs, i, window);
      }
    }
  }

  lemma LimitedSnoc(rs: seq<Restart>, r: Restart, limit: int)
    requires Limited(rs, limit) && CountWindow(rs, r.windowStart) < limit
    ensures Limited(rs + [r], limit)
  {
    forall w ensures CountWindow(rs + [r], w) <= limit {
      CountSnoc(rs, r, w);
    }
  }

  /** The information a count starts from. */
  function InfoOf(s: State): Info { if s.info.Some? then s.info.value else Info(0, 0) }

  lemma CountOpensWindow(s: State, now: int, p: Policy, handlers: nat)
    requires Inv(s, p, handlers) && Sensible(p, handlers) && Enabled(s, Count(now), handlers)
    requires Expired(InfoOf(s), now, p.window)
    ensures Inv(Next(s, Count(now), p), p, handlers)
  {
    var rs, r := s.restarts, Restart(now, now);
    assert Counted(s.info, now, p) == Info(1, now);
    forall i | 0 <= i < |rs| ensures rs[i].windowStart < now {
      Later(rs, p.window, i, |rs| - 1);
    }
    NewWindowEmpty(rs, now);
    CountSnoc(rs, r, now);
    WindowsSnoc(rs, r, p.window);
    LimitedSnoc(rs, r, Limit(p, handlers));
  }

  lemma CountedInWindow(info: Option<Info>, now: int, p: Policy)
    requires var i := if info.Some? then info.value else Info(0, 0);
             !Expired(i, now, p.window) && 0 <= i.count + 1 < U32
    ensures var i := if info.Some? then info.value else Info(0, 0);
            Counted(info, now, p) == Info(i.count + 1, i.windowStart)
  {}

  /** While the window is open its count is exact and leaves room for the pending handlers. */
  lemma RoomInWindow(s: State, now: int, p: Policy, handlers: nat)
    requires Inv(s, p, handlers) && Sensible(p, handlers) && Enabled(s, Count(now), handlers)
    requires !Expired(InfoOf(s), now, p.window)
    ensures InfoOf(s).count == CountWindow(s.restarts, InfoOf(s).windowStart)
    ensures InfoOf(s).count + s.pending <= Limit(p, handlers) < U32
  {}

  lemma CountStaysInWindow(s: State, now: int, p: Policy, handlers: nat)
    requires Inv(s, p, handlers) && Sensible(p, handlers) && Enabled(s, Count(now), handlers)
    requires !Expired(InfoOf(s), now, p.window)
    ensures Inv(Next(s, Count(now), p), p, handlers)
  {
    var w := InfoOf(s).windowStart;
    var rs, r := s.restarts, Restart(now, w);
    RoomInWindow(s, now, p, handlers);
    CountedInWindow(s.info, now, p);
    CountSnoc(rs, r, w);
    WindowsSnoc(rs, r, p.window);
    LimitedSnoc(rs, r, Limit(p, handlers));
  }

  lemma StepKeepsInv(s: State, e: Event, p: Policy, handlers: nat)
    requires Inv(s, p, handlers) && Sensible(p, handlers) && Enabled(s, e, handlers)
    ensures Inv(Next(s, e, p), p, handlers)
  {
    if e.Count? {
      if Expired(InfoOf(s), e.now, p.window) {
        CountOpensWindow(s, e.now, p, handlers);
      } else {
        CountStaysInWindow(s, e.now, p, handlers);
      }
    }
  }

  lemma {:induction false} RunKeepsInv(s: State, es: seq<Event>, p: Policy, handlers: nat, t: State)
    requires Inv(s, p, handlers) && Sensible(p, handlers) && Steps(s, es, p, handlers, t)
    ensures Inv(t, p, handlers)
    decreases es
  {
    if es != [] {
      StepKeepsInv(s, es[0], p, handlers);
      RunKeepsInv(Next(s, es[0], p), es[1..], p, handlers, t);
    }
  }

  // ----- the sliding window -----

  /** Restarts of an interval that meets only windows `v` and `w` are restarts of those windows. */
  lemma {:induction false} TwoWindows(rs: seq<Restart>, lo: int, hi: int, v: int, w: int)
    requires forall i :: 0 <= i < |rs| && Within(rs[i], lo, hi) ==> rs[i].windowStart == v || rs[i].windowStart == w
    ensures CountBetween(rs, lo, hi) <= CountWindow(rs, v) + (if v == w then 0 else CountWindow(rs, w))
  {
    if rs != [] {
      TwoWindows(rs[..|rs| - 1], lo, hi, v, w);
    }
  }

  /** ... and a restart `j` of window `v` outside the interval is one to spare. */
  lemma {:induction false} OneToSpare(rs: seq<Restart>, lo: int, hi: int, v: int, w: int, j: nat)
    requires forall i :: 0 <= i < |rs| && Within(rs[i], lo, hi) ==> rs[i].windowStart == v || rs[i].windowStart == w
    requires v != w && j < |rs| && rs[j].windowStart == v && !Within(rs[j], lo, hi)
    ensures CountBetween(rs, lo, hi) <= CountWindow(rs, v) + CountWindow(rs, w) - 1
  {
    var init := rs[..|rs| - 1];
    if j == |init| {
      TwoWindows(init, lo, hi, v, w);
    } else {
      OneToSpare(init, lo, hi, v, w, j);
    }
  }

  lemma {:induction false} NothingWithin(rs: seq<Restart>, lo: int, hi: int)
    requires forall i :: 0 <= i < |rs| ==> !Within(rs[i], lo, hi)
    ensures CountBetween(rs, lo, hi) == 0
  {
    if rs != [] {
      NothingWithin(rs[..|rs| - 1], lo, hi);
    }
  }

  /** An interval of one window length that meets two windows meets no third, and misses the restart that
      opened the earlier one if there is such a restart. */
  lemma TwoInOneInterval(rs: seq<Restart>, window: nat, lo: int, f: nat, g: nat)
    requires Windows(rs, window) && f < |rs| && g < |rs|
    requires Within(rs[f], lo, lo + window) && Within(rs[g], lo, lo + window)
    requires rs[f].windowStart < rs[g].windowStart
    ensures CountBetween(rs, lo, lo + window)
         <= CountWindow(rs, rs[f].windowStart) + CountWindow(rs, rs[g].windowStart) - (if Anchored(rs) then 1 else 0)
  {
    var v, w := rs[f].windowStart, rs[g].windowStart;
    Apart(rs, window, f, g);
    forall i | 0 <= i < |rs| && Within(rs[i], lo, lo + window)
      ensures rs[i].windowStart == v || rs[i].windowStart == w
    {
      Apart(rs, window, i, f);
      Apart(rs, window, i, g);
    }
    if Anchored(rs) {
      var j := Opener(rs, window, f);
      OneToSpare(rs, lo, lo + window, v, w, j);
    } else {
      TwoWindows(rs, lo, lo + window, v, w);
    }
  }

  /** Different windows are more than a window length apart. */
  lemma Apart(rs: seq<Restart>, window: nat, i: nat, j: nat)
    requires Windows(rs, window) && i < |rs| && j < |rs|
    ensures rs[i].windowStart <= rs[i].time <= rs[i].windowStart + window
    ensures rs[j].windowStart <= rs[j].time <= rs[j].windowStart + window
    ensures rs[i].windowStart < rs[j].windowStart ==> rs[i].windowStart + window < rs[j].windowStart
    ensures rs[j].windowStart < rs[i].windowStart ==> rs[j].windowStart + window < rs[i].windowStart
  {
    assert Linked(rs, i, window) && Linked(rs, j, window);
    if i <= j {
      Later(rs, window, i, j);
    } else {
      Later(rs, window, j, i);
    }
  }

  lemma SlidingBound(rs: seq<Restart>, window: nat, limit: int, lo: int)
    requires Windows(rs, window) && Limited(rs, limit) && limit > 0
    ensures CountBetween(rs, lo, lo + window) <= 2 * limit - (if Anchored(rs) then 1 else 0)
  {
    var hi := lo + window;
    if f :| 0 <= f < |rs| && Within(rs[f], lo, hi) {
      var v := rs[f].windowStart;
      if g :| 0 <= g < |rs| && Within(rs[g], lo, hi) && rs[g].windowStart != v {
        if v < rs[g].windowStart {
          TwoInOneInterval(rs, window, lo, f, g);
        } else {
          TwoInOneInterval(rs, window, lo, g, f);
        }
      } else {
        TwoWindows(rs, lo, hi, v, v);
      }
    } else {
      NothingWithin(rs, lo, hi);
    }
  }

  lemma {:induction false} LateStartAnchors(s: State, es: seq<Event>, p: Policy, handlers: nat, t: State)
    requires Steps(s, es, p, handlers, t) && s.clock > p.window && Anchored(s.restarts)
    requires s.info.None? ==> s.restarts == []
    requires s.info.Some? ==> s.restarts != []
    ensures Anchored(t.restarts)
    decreases es
  {
    if es != [] {
      LateStartAnchors(Next(s, es[0], p), es[1..], p, handlers, t);
    }
  }

  /** Over any run of at most `handlers` concurrent failure handlers, every closed interval of one window length
      contains at most 2m restarts, where m is the limit plus the handlers beyond the first, and one less if the clock
      has passed one window length before the first failure. The limiter remembers only one window. */
  lemma RestartsBounded(es: seq<Event>, p: Policy, handlers: nat, start: nat, t: State, lo: int)
    requires Sensible(p, handlers)
    requires Steps(State(None, 0, start, []), es, p, handlers, t)
    ensures CountBetween(t.restarts, lo, lo + p.window) <= 2 * Limit(p, handlers)
    ensures start > p.window ==> CountBetween(t.restarts, lo, lo + p.window) <= 2 * Limit(p, handlers) - 1
  {
    RunKeepsInv(State(None, 0, start, []), es, p, handlers, t);
    SlidingBound(t.restarts, p.window, Limit(p, handlers), lo);
    if start > p.window {
      LateStartAnchors(State(None, 0, start, []), es, p, handlers, t);
    }
  }

  // ----- the bound is reached -----

  ghost predicate Reaches(s: State, t: State, p: Policy, handlers: nat) {
    exists es :: Steps(s, es, p, handlers, t)
  }

  lemma {:induction false} StepsMore(s: State, es: seq<Event>, t: State, e: Event, p: Policy, handlers: nat)
    requires Steps(s, es, p, handlers, t) && Enabled(t, e, handlers)
    ensures Steps(s, es + [e], p, handlers, Next(t, e, p))
    decreases es
  {
    if es == [] {
      assert es + [e] == [e] && [e][1..] == [];
    } else {
      assert (es + [e])[0] == es[0] && (es + [e])[1..] == es[1..] + [e];
      StepsMore(Next(s, es[0], p), es[1..], t, e, p, handlers);
    }
  }

  lemma ReachesMore(s0: State, s: State, e: Event, p: Policy, handlers: nat) returns (t: State)
    requires Reaches(s0, s, p, handlers) && Enabled(s, e, handlers)
    ensures t == Next(s, e, p) && Reaches(s0, t, p, handlers)
  {
    var es :| Steps(s0, es, p, handlers, s);
    StepsMore(s0, es, s, e, p, handlers);
    t := Next(s, e, p);
  }

  lemma BetweenSnoc(rs: seq<Restart>, r: Restart, lo: int, hi: int)
    ensures CountBetween(rs + [r], lo, hi) == CountBetween(rs, lo, hi) + (if Within(r, lo, hi) then 1 else 0)
  {
    assert (rs + [r])[..|rs|] == rs;
  }

  /** `n` handlers pass the check together. */
  lemma {:induction false} CheckMany(s0: State, s: State, now: int, n: nat, p: Policy, handlers: nat)
    returns (t: State)
    requires Reaches(s0, s, p, handlers) && s.clock <= now && Allowed(s.info, now, p) && s.pending + n <= handlers
    ensures Reaches(s0, t, p, handlers) && t.clock <= now
    ensures t.info == s.info && t.pending == s.pending + n && t.restarts == s.restarts
    decreases n
  {
    if n == 0 {
      t := s;
    } else {
      var u := ReachesMore(s0, s, Check(now), p, handlers);
      t := CheckMany(s0, u, now, n - 1, p, handlers);
    }
  }

  /** One more restart in the open window. */
  lemma CountOne(s0: State, s: State, now: int, p: Policy, handlers: nat, lo: int, hi: int) returns (t: State)
    requires Reaches(s0, s, p, handlers) && s.clock <= now && s.pending > 0
    requires s.info.Some? && !Expired(s.info.value, now, p.window) && s.info.value.count + 1 < U32
    ensures Reaches(s0, t, p, handlers) && t.clock == now && t.pending == s.pending - 1
    ensures t.info == Some(Info(s.info.value.count + 1, s.info.value.windowStart))
    ensures CountBetween(t.restarts, lo, hi) == CountBetween(s.restarts, lo, hi) + (if lo <= now <= hi then 1 else 0)
  {
    t := ReachesMore(s0, s, Count(now), p, handlers);
    BetweenSnoc(s.restarts, Restart(now, s.info.value.windowStart), lo, hi);
  }

  /** `n` handlers that passed the check count, whatever the limit. */
  lemma {:induction false} CountMany(s0: State, s: State, now: int, n: nat, p: Policy, handlers: nat, lo: int, hi: int)
    returns (t: State)
    requires Reaches(s0, s, p, handlers) && s.clock <= now && s.pending >= n
    requires s.info.Some? && !Expired(s.info.value, now, p.window) && s.info.value.count + n < U32
    ensures Reaches(s0, t, p, handlers) && t.clock <= now && t.pending == s.pending - n
    ensures t.info == Some(Info(s.info.value.count + n, s.info.value.windowStart))
    ensures CountBetween(t.restarts, lo, hi) == CountBetween(s.restarts, lo, hi) + (if lo <= now <= hi then n else 0)
    decreases n
  {
    if n == 0 {
      t := s;
    } else {
      var u := CountOne(s0, s, now, p, handlers, lo, hi);
      t := CountMany(s0, u, now, n - 1, p, handlers, lo, hi);
    }
  }

  /** `n` failures handled one after the other by a free handler, while the limit lasts. */
  lemma {:induction false} HandleMany(s0: State, s: State, now: int, n: nat, p: Policy, handlers: nat, lo: int, hi: int)
    returns (t: State)
    requires Reaches(s0, s, p, handlers) && s.pending < handlers && s.clock <= now && p.maxRestarts < U32
    requires s.info.Some? && !Expired(s.info.value, now, p.window) && s.info.value.count + n <= p.maxRestarts
    ensures Reaches(s0, t, p, handlers) && t.pending == s.pending && t.clock <= now
    ensures t.info == Some(Info(s.info.value.count + n, s.info.value.windowStart))
    ensures CountBetween(t.restarts, lo, hi) == CountBetween(s.restarts, lo, hi) + (if lo <= now <= hi then n else 0)
    decreases n
  {
    if n == 0 {
      t := s;
    } else {
      var u := ReachesMore(s0, s, Check(now), p, handlers);
      var v := CountOne(s0, u, now, p, handlers, lo, hi);
      t := HandleMany(s0, v, now, n - 1, p, handlers, lo, hi);
    }
  }

  /** A window filled to the brim: every handler passes the check at `open`, one counts and opens the window, a free
      handler uses up the limit at `late`, and the others count after it. */
  lemma FillWindow(
    s0: State, s: State, begin: int, open: int, late: int, p: Policy, handlers: nat, lo: int, hi: int)
    returns (t: State)
    requires Sensible(p, handlers) && Reaches(s0, s, p, handlers) && s.pending == 0
    requires s.clock <= open <= late <= begin + p.window
    requires s.info.None? || Expired(s.info.value, open, p.window)
    requires begin == if s.info.None? && open <= p.window then 0 else open
    ensures Reaches(s0, t, p, handlers) && t.pending == 0 && t.clock <= late
    ensures t.info.Some? && t.info.value.windowStart == begin
    ensures CountBetween(t.restarts, lo, hi) ==
            CountBetween(s.restarts, lo, hi) + (if lo <= open <= hi then 1 else 0)
            + (if lo <= late <= hi then Limit(p, handlers) - 1 else 0)
  {
    var a := CheckMany(s0, s, open, handlers, p, handlers);
    var b := ReachesMore(s0, a, Count(open), p, handlers);
    BetweenSnoc(a.restarts, Restart(open, begin), lo, hi);
    var c := HandleMany(s0, b, late, p.maxRestarts - 1, p, handlers, lo, hi);
    t := CountMany(s0, c, late, handlers - 1, p, handlers, lo, hi);
  }

  /** For every policy and every number of handlers some run puts exactly as many restarts into one window length as
      the bound allows: a window filled at its very end, and the next one right after it. */
  lemma BoundReached(p: Policy, handlers: nat) returns (t: State, lo: int)
    requires Sensible(p, handlers) && p.window > 0
    ensures Reaches(State(None, 0, p.window + 1, []), t, p, handlers)
    ensures CountBetween(t.restarts, lo, lo + p.window) == 2 * Limit(p, handlers) - 1
  {
    var w := p.window;
    var s0 := State(None, 0, w + 1, []);
    assert Steps(s0, [], p, handlers, s0);
    lo := 2 * w + 1;
    var s1 := FillWindow(s0, s0, w + 1, w + 1, lo, p, handlers, lo, lo + w);
    t := FillWindow(s0, s1, lo + 1, lo + 1, lo + 1, p, handlers, lo, lo + w);
  }

  /** Soon after the epoch there is one more: the first window has begun before its first restart. */
  lemma EarlyBoundReached(p: Policy, handlers: nat) returns (t: State, lo: int)
    requires Sensible(p, handlers) && p.window > 0
    ensures Reaches(State(None, 0, 1, []), t, p, handlers)
    ensures CountBetween(t.restarts, lo, lo + p.window) == 2 * Limit(p, handlers)
  {
    var w := p.window;
    var s0 := State(None, 0, 1, []);
    assert Steps(s0, [], p, handlers, s0);
    lo := 1;
    var s1 := FillWindow(s0, s0, 0, 1, 1, p, handlers, lo, lo + w);
    t := FillWindow(s0, s1, w + 1, w + 1, w + 1, p, handlers, lo, lo + w);
  }
}
