/** RTExecutive's slot table: actions are placed into precomputed slots at registration, and the loop
    executes one slot per minor cycle. */
module CyclicExecutive {
  import opened Common
  import opened Divisibility
  import opened ScheduleCalculator
  import opened Sums

  const NS_PER_MS: nat := 1_000_000

  /** A registered action; `cost`, in microseconds, is the worst-case time of its callback. */
  datatype Action = Action(name: string, period: nat, interval: nat, cost: real)

  predicate Intervals(regs: seq<Action>) {
    forall i :: 0 <= i < |regs| ==> regs[i].interval > 0
  }

  /** The periodic specification: the actions due in cycle `n`, in registration order. */
  function DueAt(regs: seq<Action>, n: nat): seq<Action>
    requires Intervals(regs)
  {
    if regs == [] then []
    else
      var last := regs[|regs| - 1];
      DueAt(regs[..|regs| - 1], n) + (if n % last.interval == 0 then [last] else [])
  }

  /** Slot `s` holds exactly the actions due in cycle `s`. */
  ghost predicate TableOf(schedule: seq<seq<Action>>, regs: seq<Action>) {
    Intervals(regs) && forall s :: 0 <= s < |schedule| ==> schedule[s] == DueAt(regs, s)
  }

  /** One pass of the loop: the context handed to the actions, the actions considered and those run. */
  datatype Cycle = Cycle(slot: nat, count: nat, start: nat, attempted: seq<Action>, executed: seq<Action>)

  /** The attempted actions whose guard holds; `passes(n, a)` is the guard's answer in cycle `n`. */
  function Passing(actions: seq<Action>, n: nat, passes: (nat, Action) -> bool): seq<Action> {
    if actions == [] then []
    else
      var last := actions[|actions| - 1];
      Passing(actions[..|actions| - 1], n, passes) + (if passes(n, last) then [last] else [])
  }

  /** `at` are the positions, in ascending order, at which `part` is found in `whole`. */
  ghost predicate PickedAt(part: seq<Action>, whole: seq<Action>, at: seq<nat>) {
    && |at| == |part|
    && (forall i :: 0 <= i < |at| ==> at[i] < |whole| && whole[at[i]] == part[i])
    && (forall i, j :: 0 <= i < j < |at| ==> at[i] < at[j])
  }

  ghost predicate InOrderOf(part: seq<Action>, whole: seq<Action>) {
    exists at: seq<nat> :: PickedAt(part, whole, at)
  }

  /** What executing a slot in cycle `n` means: in the slot's order, every copy of an action whose guard holds, and
      no other. */
  ghost predicate Executes(executed: seq<Action>, slot: seq<Action>, n: nat, passes: (nat, Action) -> bool) {
    && InOrderOf(executed, slot)
    && forall a :: multiset(executed)[a] == if passes(n, a) then multiset(slot)[a] else 0
  }

  lemma PickLast(part: seq<Action>, whole: seq<Action>, last: Action, take: bool)
    requires InOrderOf(part, whole)
    ensures InOrderOf(part + (if take then [last] else []), whole + [last])
  {
    var at: seq<nat> :| PickedAt(part, whole, at);
    if take {
      assert PickedAt(part + [last], whole + [last], at + [|whole|]);
    } else {
      assert part + [] == part;
      assert PickedAt(part, whole + [last], at);
    }
  }

  lemma {:induction false} PassingExecutes(slot: seq<Action>, n: nat, passes: (nat, Action) -> bool)
    ensures Executes(Passing(slot, n, passes), slot, n, passes)
  {
    if slot == [] {
      assert PickedAt([], slot, []);
    } else {
      var front, last := slot[..|slot| - 1], slot[|slot| - 1];
      PassingExecutes(front, n, passes);
      assert slot == front + [last];
      PickLast(Passing(front, n, passes), front, last, passes(n, last));
    }
  }

  /** Cycle `n` of a run: slot n modulo the number of slots, started exactly n durations after `t0`. */
  function Expected(schedule: seq<seq<Action>>, t0: nat, duration: nat, n: nat,
                    passes: (nat, Action) -> bool): Cycle
    requires schedule != []
  {
    var s := n % |schedule|;
    Cycle(s, n, t0 + n * duration, schedule[s], Passing(schedule[s], n, passes))
  }

  ghost predicate AsExpected(log: seq<Cycle>, schedule: seq<seq<Action>>, t0: nat, duration: nat,
                             passes: (nat, Action) -> bool)
  {
    forall n :: 0 <= n < |log| ==> schedule != [] && log[n] == Expected(schedule, t0, duration, n, passes)
  }

  lemma OneMoreCycle(log: seq<Cycle>, schedule: seq<seq<Action>>, t0: nat, duration: nat,
                     passes: (nat, Action) -> bool, c: Cycle)
    requires AsExpected(log, schedule, t0, duration, passes)
    requires schedule != [] && c == Expected(schedule, t0, duration, |log|, passes)
    ensures AsExpected(log + [c], schedule, t0, duration, passes)
  {}

  /** Cycle n starts n durations after `t0`. */
  ghost predicate OnTime(log: seq<Cycle>, t0: nat, duration: nat) {
    forall n :: 0 <= n < |log| ==> log[n].count == n && log[n].start == t0 + n * duration
  }

  ghost predicate AllExecuted(log: seq<Cycle>, passes: (nat, Action) -> bool) {
    forall n :: 0 <= n < |log| ==> Executes(log[n].executed, log[n].attempted, n, passes)
  }

  /** The cycles of a run attempt the slots in turn. */
  ghost predicate InTurn(log: seq<Cycle>, schedule: seq<seq<Action>>)
    requires schedule != []
  {
    forall n :: 0 <= n < |log| ==> log[n].slot == n % |schedule| && log[n].attempted == schedule[n % |schedule|]
  }

  lemma LogExecutes(log: seq<Cycle>, schedule: seq<seq<Action>>, t0: nat, duration: nat,
                    passes: (nat, Action) -> bool)
    requires AsExpected(log, schedule, t0, duration, passes)
    ensures OnTime(log, t0, duration) && AllExecuted(log, passes)
    ensures schedule != [] ==> InTurn(log, schedule)
  {
    forall n | 0 <= n < |log| ensures Executes(log[n].executed, log[n].attempted, n, passes) {
      assert log[n] == Expected(schedule, t0, duration, n, passes);
      PassingExecutes(log[n].attempted, n, passes);
    }
  }

  // ----- the placing loop -----

  /** The loop's index after `i` passes, in 32 bits. */
  function Place(k: nat, i: nat): nat {
    if i == 0 then 0 else (Place(k, i - 1) + k) % U32
  }

  /** The loop ends. */
  ghost predicate Ends(slots: nat, k: nat) {
    exists i: nat :: Place(k, i) >= slots
  }

  /** It ends after `n` passes. */
  ghost predicate EndsAfter(slots: nat, k: nat, n: nat) {
    Place(k, n) >= slots && StaysBelow(slots, k, n)
  }

  /** The first `n` passes are made. */
  ghost predicate StaysBelow(slots: nat, k: nat, n: nat) {
    forall i :: 0 <= i < n ==> Place(k, i) < slots
  }

  /** How many of the first `n` passes are at slot `s`. */
  function Visits(k: nat, n: nat, s: nat): nat {
    if n == 0 then 0 else Visits(k, n - 1, s) + (if Place(k, n - 1) == s then 1 else 0)
  }

  function Copies(a: Action, c: nat): seq<Action> {
    if c == 0 then [] else Copies(a, c - 1) + [a]
  }

  /** After `n` passes every slot holds one more copy of the action for each pass at it. */
  ghost predicate Spread(before: seq<seq<Action>>, after: seq<seq<Action>>, a: Action, n: nat) {
    && |after| == |before|
    && forall s :: 0 <= s < |before| ==> after[s] == before[s] + Copies(a, Visits(a.interval, n, s))
  }

  lemma OneMoreCopy(slot: seq<Action>, a: Action, c: nat)
    ensures slot + Copies(a, c) + [a] == slot + Copies(a, c + 1)
  {}

  lemma OnePass(before: seq<seq<Action>>, after: seq<seq<Action>>, a: Action, n: nat, p: nat)
    requires Spread(before, after, a, n) && p == Place(a.interval, n) && p < |before|
    ensures Spread(before, after[p := after[p] + [a]], a, n + 1)
  {
    var next, k := after[p := after[p] + [a]], a.interval;
    forall s | 0 <= s < |before| ensures next[s] == before[s] + Copies(a, Visits(k, n + 1, s)) {
      if s == p {
        OneMoreCopy(before[s], a, Visits(k, n, s));
      }
    }
  }

  /** The first multiple of `k` that is not below `slots`: where the loop stops if its index does not wrap. */
  function LoopEnd(slots: nat, k: nat): nat
    requires k > 0
  {
    (slots + k - 1) / k * k
  }

  class RTExecutive {
    const minor: nat
    const slots: nat
    var schedule: seq<seq<Action>>
    var currentSlot: nat
    var cycleCount: nat
    ghost var accepted: seq<Action>

    ghost predicate Valid()
      reads this
    {
      minor > 0 && slots < U32 && |schedule| == slots
    }

    constructor (minorMs: nat, majorMs: nat)
      requires 0 < minorMs < U32 && majorMs < U32
      ensures Valid() && minor == minorMs && slots == majorMs / minorMs && accepted == []
      ensures TableOf(schedule, accepted)
    {
      minor := minorMs;
      slots := majorMs / minorMs;
      schedule := seq(majorMs / minorMs, _ => []);
      currentSlot, cycleCount := 0, 0;
      accepted := [];
    }

    /** The placing loop, followed for at most `limit` passes: it need not end. */
    method PlaceAction(action: Action, limit: nat) returns (ended: bool, passes: nat)
      requires Valid()
      modifies this`schedule
      ensures Valid() && passes <= limit
      ensures ended <==> Place(action.interval, passes) >= slots
      ensures ended || passes == limit
      ensures StaysBelow(slots, action.interval, passes) && Spread(old(schedule), schedule, action, passes)
    {
      var slot := 0;
      passes := 0;
      while slot < slots && passes < limit
        invariant slot == Place(action.interval, passes) && passes <= limit && StaysBelow(slots, action.interval, passes)
        invariant Spread(old(schedule), schedule, action, passes)
        decreases limit - passes
      {
        OnePass(old(schedule), schedule, action, passes, slot);
        schedule := schedule[slot := schedule[slot] + [action]];
        slot := (slot + action.interval) % U32;
        passes := passes + 1;
      }
      ended := slot >= slots;
    }

    /** Puts one copy of the action into a slot for every pass at it; without wrap-around that is one copy in
        exactly the slots its interval divides. `rc` is None if the call is still at it after `limit` passes. */
    method RegisterAction(name: string, period: nat, cost: real, limit: nat) returns (rc: Option<int>, passes: nat)
      requires Valid() && period < U32
      modifies this`schedule, this`accepted
      ensures Valid() && passes <= limit
      ensures var a := Action(name, period, period / minor, cost);
              && rc == (if period % minor != 0 then Some(-1)
                        else if Place(a.interval, passes) >= slots then Some(0) else None)
              && (rc == Some(-1) ==> schedule == old(schedule))
              && (rc == None ==> passes == limit)
              && (rc != Some(-1) ==>
                    StaysBelow(slots, a.interval, passes) && Spread(old(schedule), schedule, a, passes))
              && accepted == old(accepted) + (if rc == Some(0) then [a] else [])
              && (rc == Some(0) && old(TableOf(schedule, accepted)) && period > 0 && LoopEnd(slots, a.interval) < U32 ==>
                    TableOf(schedule, accepted))
    {
      if period % minor != 0 {
        return Some(-1), 0;
      }
      var action := Action(name, period, period / minor, cost);
      var ended;
      ended, passes := PlaceAction(action, limit);
      if !ended {
        return None, passes;
      }
      accepted := accepted + [action];
      if TableOf(old(schedule), old(accepted)) && period > 0 && LoopEnd(slots, action.interval) < U32 {
        Quotient(minor, period);
        TableGrows(old(schedule), schedule, old(accepted), action, passes);
      }
      return Some(0), passes;
    }

    method ExecuteSlot(slot: nat, n: nat, passes: (nat, Action) -> bool) returns (executed: seq<Action>)
      requires Valid() && slot < slots
      ensures executed == Passing(schedule[slot], n, passes)
      ensures Executes(executed, schedule[slot], n, passes)
    {
      PassingExecutes(schedule[slot], n, passes);
      executed := [];
      var actions := schedule[slot];
      for i := 0 to |actions|
        invariant executed == Passing(actions[..i], n, passes)
      {
        assert actions[..i + 1][..i] == actions[..i];
        if passes(n, actions[i]) {
          executed := executed + [actions[i]];
        }
      }
      assert actions[..|actions|] == actions;
    }

    /** One pass of the loop: the slot executed in the context of its cycle. */
    method ExecuteCycle(slot: nat, n: nat, start: nat, passes: (nat, Action) -> bool) returns (cycle: Cycle)
      requires Valid() && slot < slots
      ensures cycle == Cycle(slot, n, start, schedule[slot], Passing(schedule[slot], n, passes))
    {
      var executed := ExecuteSlot(slot, n, passes);
      cycle := Cycle(slot, n, start, schedule[slot], executed);
    }

    /** `cycles` passes of the loop from time `t0`. Without a slot the first pass reads past the empty table, which
        the model reports as an error. */
    method Run(cycles: nat, t0: nat, passes: (nat, Action) -> bool) returns (r: Result<seq<Cycle>>)
      requires Valid()
      modifies this`currentSlot, this`cycleCount
      ensures Valid()
      ensures r.Ok? <==> cycles == 0 || slots > 0
      ensures r.Ok? ==> cycleCount == cycles && |r.value| == cycles && (slots > 0 ==> currentSlot == cycles % slots)
      ensures r.Ok? ==> OnTime(r.value, t0, minor * NS_PER_MS) && AllExecuted(r.value, passes)
      ensures r.Ok? && slots > 0 ==> InTurn(r.value, schedule)
    {
      var log := [];
      currentSlot, cycleCount := 0, 0;
      if cycles > 0 && slots == 0 {
        return Err("No slot");
      }
      var duration := minor * NS_PER_MS;
      var cycleStart := t0;
      while cycleCount < cycles
        invariant Valid() && cycleCount == |log| <= cycles
        invariant slots > 0 ==> currentSlot == cycleCount % slots
        invariant cycleStart == t0 + cycleCount * duration
        invariant AsExpected(log, schedule, t0, duration, passes)
        decreases cycles - cycleCount
      {
        var cycle := ExecuteCycle(currentSlot, cycleCount, cycleStart, passes);
        OneMoreCycle(log, schedule, t0, duration, passes, cycle);
        log := log + [cycle];
        StepMod(cycleCount, slots);
        DistributeInt(cycleCount, duration);
        currentSlot := (currentSlot + 1) % slots;
        cycleCount := cycleCount + 1;
        cycleStart := cycleStart + duration;
      }
      LogExecutes(log, schedule, t0, duration, passes);
      return Ok(log);
    }
  }

  // ----- when the placing loop ends, and where it has been -----

  lemma ModAdd(n: nat, k: nat)
    ensures (n % U32 + k) % U32 == (n + k) % U32
  {
    var q, p := n / U32, (n % U32 + k) / U32;
    assert n + k == (q + p) * U32 + (n % U32 + k) % U32;
    MulModUnique(n + k, U32, q + p, (n % U32 + k) % U32);
  }

  lemma {:induction false} PlaceClosed(k: nat, i: nat)
    ensures Place(k, i) == i * k % U32
  {
    if i > 0 {
      PlaceClosed(k, i - 1);
      ModAdd((i - 1) * k, k);
      assert (i - 1) * k + k == i * k;
    }
  }

  lemma PlaceIsMultiple(k: nat, i: nat, g: nat)
    requires g == Gcd(k, U32)
    ensures g > 0 && Place(k, i) + g <= U32
  {
    var q, v := i * k / U32, Place(k, i);
    PlaceClosed(k, i);
    GcdDivides(k, U32);
    assert U32 - v == k * (0 - i) + U32 * (q + 1) by { assert i * k == q * U32 + v; }
    DividesCombination(g, k, U32, 0 - i, q + 1);
    DividesLe(g, U32 - v);
  }

  lemma LastPlace(k: nat, g: nat) returns (i: nat)
    requires g == Gcd(k, U32) && 0 < g <= U32
    ensures Place(k, i) == U32 - g
  {
    var x, y := Bezout(k, U32);
    i := (-x) % U32;
    var t := (-x) / U32;
    assert i == -x - U32 * t;
    ReachesLast(k, x, y, t, i, g);
    MulModUnique(i * k, U32, y - t * k - 1, U32 - g);
    PlaceClosed(k, i);
  }

  lemma ReachesLast(k: nat, x: int, y: int, t: int, i: nat, g: nat)
    requires k * x + U32 * y == g && i == -x - U32 * t
    ensures i * k == (y - t * k - 1) * U32 + (U32 - g)
  {
    assert i * k == -(k * x) - U32 * (t * k);
  }

  /** Exactly when registering an action ends: when the largest index the loop can reach is not below the number of
      slots. A period of zero, for one, ends only without slots. */
  lemma EndsIff(slots: nat, k: nat)
    requires slots < U32
    ensures Ends(slots, k) <==> slots + Gcd(k, U32) <= U32
  {
    var g := Gcd(k, U32);
    PlaceIsMultiple(k, 0, g);
    if slots + g <= U32 {
      var i := LastPlace(k, g);
      assert Place(k, i) >= slots;
    }
    if i: nat :| Place(k, i) >= slots {
      PlaceIsMultiple(k, i, g);
    }
  }

  lemma TableGrows(before: seq<seq<Action>>, after: seq<seq<Action>>, regs: seq<Action>, a: Action, n: nat)
    requires TableOf(before, regs) && |after| == |before| && a.interval > 0 && LoopEnd(|before|, a.interval) < U32
    requires EndsAfter(|before|, a.interval, n) && Spread(before, after, a, n)
    ensures TableOf(after, regs + [a])
  {
    var more := regs + [a];
    assert more[..|more| - 1] == regs;
    forall s | 0 <= s < |after| ensures after[s] == DueAt(more, s) {
      VisitsWithoutWrap(|before|, a.interval, n, s);
      assert Copies(a, 1) == [a];
    }
  }

  lemma SmallMod(n: nat)
    requires n < U32
    ensures n % U32 == n
  {}

  lemma CeilCovers(n: nat, k: nat)
    requires k > 0
    ensures n <= (n + k - 1) / k * k < n + k
    ensures (n + k - 1) / k * k == n <==> n % k == 0
  {
    var e := (n + k - 1) / k;
    assert n + k - 1 == e * k + (n + k - 1) % k;
    if n % k == 0 {
      Quotient(k, n);
      MulModUnique(n + k - 1, k, n / k, k - 1);
    }
    if e * k == n {
      DividesMul(k, e);
    }
  }

  lemma MulMono(x: nat, y: nat, k: nat)
    requires x <= y
    ensures x * k <= y * k
  {}

  lemma PlacesUpTo(slots: nat, k: nat, e: nat, i: nat)
    requires k > 0 && e == (slots + k - 1) / k && e * k < U32 && i <= e
    ensures Place(k, i) == i * k && (i * k < slots <==> i < e)
  {
    CeilCovers(slots, k);
    MulMono(i, e, k);
    SmallMod(i * k);
    PlaceClosed(k, i);
    if i < e {
      MulMono(i + 1, e, k);
      assert (i + 1) * k == i * k + k;
    }
  }

  /** Of the slots below m * k + k the multiples of k are those below m * k, and m * k. */
  lemma NextMultiple(k: nat, m: nat, s: nat)
    requires k > 0
    ensures s % k == 0 && s < m * k + k <==> (s % k == 0 && s < m * k) || s == m * k
  {
    DividesMul(k, m);
    if m * k <= s < m * k + k {
      MulModUnique(s, k, m, s - m * k);
    }
  }

  lemma {:induction false} VisitsUpTo(k: nat, n: nat, s: nat, e: nat)
    requires k > 0 && e == n * k && e < U32
    ensures Visits(k, n, s) == if s % k == 0 && s < e then 1 else 0
    decreases n
  {
    if n > 0 {
      var d := (n - 1) * k;
      assert e == d + k;
      VisitsUpTo(k, n - 1, s, d);
      SmallMod(d);
      PlaceClosed(k, n - 1);
      NextMultiple(k, n - 1, s);
    }
  }

  /** Without wrap-around the passes are at the multiples of the interval, once each. */
  lemma VisitsWithoutWrap(slots: nat, k: nat, n: nat, s: nat)
    requires k > 0 && LoopEnd(slots, k) < U32 && EndsAfter(slots, k, n) && s < slots
    ensures Visits(k, n, s) == if s % k == 0 then 1 else 0
  {
    var e := (slots + k - 1) / k;
    PlacesUpTo(slots, k, e, e);
    assert n <= e;
    PlacesUpTo(slots, k, e, n);
    VisitsUpTo(k, n, s, n * k);
  }

  lemma StepMod(n: nat, m: nat)
    requires m > 0
    ensures (n % m + 1) % m == (n + 1) % m
  {
    SuccMod(n, m);
    SuccMod(n % m, m);
    MulModUnique(n % m, m, 0, n % m);
  }

  // ----- the table against the periodic specification -----

  ghost predicate EachDivides(regs: seq<Action>, slots: nat)
    requires Intervals(regs)
  {
    forall i :: 0 <= i < |regs| ==> slots % regs[i].interval == 0
  }

  ghost predicate Periodic(regs: seq<Action>, slots: nat)
    requires Intervals(regs) && slots > 0
  {
    forall n: nat :: DueAt(regs, n % slots) == DueAt(regs, n)
  }

  lemma ModOfMod(n: nat, m: nat, k: nat)
    requires Divides(k, m) && m > 0
    ensures n % m % k == n % k
  {
    var p, q := m / k, n / m;
    var r := n % m;
    Quotient(k, m);
    assert n == m * q + r;
    assert m * q == (p * q) * k by { assert (k * p) * q == (p * q) * k; }
    assert n == (p * q + r / k) * k + r % k;
    MulModUnique(n, k, p * q + r / k, r % k);
  }

  lemma {:induction false} DueSame(regs: seq<Action>, slots: nat, n: nat)
    requires Intervals(regs) && slots > 0 && EachDivides(regs, slots)
    ensures DueAt(regs, n % slots) == DueAt(regs, n)
  {
    if regs != [] {
      var init, last := regs[..|regs| - 1], regs[|regs| - 1];
      assert forall i :: 0 <= i < |init| ==> init[i] == regs[i];
      DueSame(init, slots, n);
      ModOfMod(n, slots, last.interval);
    }
  }

  lemma {:induction false} DueCount(regs: seq<Action>, n: nat)
    requires Intervals(regs)
    ensures |DueAt(regs, n)| <= |regs|
    ensures |DueAt(regs, n)| == |regs| <==> EachDivides(regs, n)
  {
    if regs != [] {
      var init := regs[..|regs| - 1];
      assert forall i :: 0 <= i < |init| ==> init[i] == regs[i];
      DueCount(init, n);
      assert EachDivides(regs, n) <==> EachDivides(init, n) && n % regs[|regs| - 1].interval == 0;
    }
  }

  /** Exactly when the slot table implements "run every period": when every interval divides the number of
      slots. Then cycle n of an unbounded run attempts, in registration order, the actions due in cycle n;
      otherwise the run already differs in cycle `slots`. */
  lemma TableIsPeriodicIff(regs: seq<Action>, slots: nat)
    requires Intervals(regs) && slots > 0
    ensures Periodic(regs, slots) <==> EachDivides(regs, slots)
    ensures !EachDivides(regs, slots) ==> DueAt(regs, slots % slots) != DueAt(regs, slots)
  {
    DueCount(regs, slots);
    DueCount(regs, 0);
    assert EachDivides(regs, 0);
    MulModUnique(slots, slots, 1, 0);
    assert slots % slots == 0;
    if EachDivides(regs, slots) {
      forall n: nat ensures DueAt(regs, n % slots) == DueAt(regs, n) {
        DueSame(regs, slots, n);
      }
    } else {
      assert DueAt(regs, slots % slots) != DueAt(regs, slots);
    }
  }

  // ----- how often an action is attempted -----

  /** How many of the cycles 0 to n - 1 an interval divides. */
  function Attempts(interval: nat, n: nat): nat
    requires interval > 0
  {
    if n == 0 then 0 else Attempts(interval, n - 1) + (if (n - 1) % interval == 0 then 1 else 0)
  }

  lemma CeilStep(k: nat, n: nat)
    requires k > 0 && n > 0
    ensures (n + k - 1) / k == (n - 1 + k - 1) / k + (if (n - 1) % k == 0 then 1 else 0)
  {
    var q, r := (n - 1) / k, (n - 1) % k;
    assert n - 1 == q * k + r;
    assert (q + 1) * k == q * k + k;
    MulModUnique(n - 1 + k, k, q + 1, r);
    if r == 0 {
      MulModUnique(n - 1 + k - 1, k, q, k - 1);
    } else {
      MulModUnique(n - 1 + k - 1, k, q + 1, r - 1);
    }
  }

  lemma {:induction false} AttemptsCeil(k: nat, n: nat)
    requires k > 0
    ensures Attempts(k, n) == (n + k - 1) / k
  {
    if n == 0 {
      MulModUnique(k - 1, k, 0, k - 1);
    } else {
      AttemptsCeil(k, n - 1);
      CeilStep(k, n);
    }
  }

  /** How often the cycles of a run attempt an action. */
  function CountIn(log: seq<Cycle>, a: Action): nat {
    if log == [] then 0 else CountIn(log[..|log| - 1], a) + multiset(log[|log| - 1].attempted)[a]
  }

  lemma {:induction false} DueCopies(regs: seq<Action>, n: nat, a: Action)
    requires Intervals(regs) && a.interval > 0
    ensures multiset(DueAt(regs, n))[a] == if n % a.interval == 0 then multiset(regs)[a] else 0
  {
    if regs != [] {
      var init, last := regs[..|regs| - 1], regs[|regs| - 1];
      assert regs == init + [last];
      DueCopies(init, n, a);
    }
  }

  /** Attempts at an action of interval k in the first n cycles of a table of that many slots: those of the full
      turns, and those of the rest. */
  function Turns(k: nat, slots: nat, n: nat): int
    requires k > 0 && slots > 0
  {
    n / slots * Attempts(k, slots) + Attempts(k, n % slots)
  }

  lemma DivStep(n: nat, m: nat)
    requires m > 0
    ensures (n + 1) / m == n / m + (if n % m + 1 == m then 1 else 0)
    ensures (n + 1) % m == if n % m + 1 == m then 0 else n % m + 1
  {
    var q, r := n / m, n % m;
    assert n == q * m + r;
    if r + 1 == m {
      assert n + 1 == (q + 1) * m + 0;
      MulModUnique(n + 1, m, q + 1, 0);
    } else {
      MulModUnique(n + 1, m, q, r + 1);
    }
  }

  lemma DistributeInt(q: int, a: int)
    ensures (q + 1) * a == q * a + a
  {}

  lemma TurnsStep(k: nat, slots: nat, n: nat)
    requires k > 0 && slots > 0
    ensures Turns(k, slots, n + 1) == Turns(k, slots, n) + (if n % slots % k == 0 then 1 else 0)
  {
    DivStep(n, slots);
    DistributeInt(n / slots, Attempts(k, slots));
  }

  lemma CountStep(c: nat, t: int, u: int, due: bool)
    requires u == t + if due then 1 else 0
    ensures c * u == c * t + if due then c else 0
  {
    assert c * (t + 1) == c * t + c;
  }

  lemma NextCount(c: nat, k: nat, slots: nat, n: nat)
    requires k > 0 && slots > 0
    ensures c * Turns(k, slots, n + 1) == c * Turns(k, slots, n) + (if n % slots % k == 0 then c else 0)
  {
    TurnsStep(k, slots, n);
    CountStep(c, Turns(k, slots, n), Turns(k, slots, n + 1), n % slots % k == 0);
  }

  lemma NoCount(c: nat, k: nat, slots: nat)
    requires k > 0 && slots > 0
    ensures c * Turns(k, slots, 0) == 0
  {
    MulModUnique(0, slots, 0, 0);
    assert Turns(k, slots, 0) == 0;
  }

  /** Every run of the table attempts every action, per registration, exactly as often as its full turns and the
      rest say. */
  lemma {:induction false} RunAttempts(schedule: seq<seq<Action>>, regs: seq<Action>, log: seq<Cycle>, a: Action)
    requires TableOf(schedule, regs) && schedule != [] && a.interval > 0 && InTurn(log, schedule)
    ensures CountIn(log, a) == multiset(regs)[a] * Turns(a.interval, |schedule|, |log|)
    decreases log
  {
    if log == [] {
      NoCount(multiset(regs)[a], a.interval, |schedule|);
    } else {
      var n := |log| - 1;
      var s := n % |schedule|;
      assert log[n].attempted == schedule[s] == DueAt(regs, s);
      RunAttempts(schedule, regs, log[..n], a);
      NextCount(multiset(regs)[a], a.interval, |schedule|, n);
      DueCopies(regs, s, a);
    }
  }

  lemma {:induction false} TurnsOfDivisor(k: nat, slots: nat, n: nat)
    requires k > 0 && slots > 0 && slots % k == 0
    ensures Turns(k, slots, n) == Attempts(k, n)
    decreases n
  {
    if n == 0 {
      MulModUnique(0, slots, 0, 0);
    } else {
      TurnsOfDivisor(k, slots, n - 1);
      TurnsStep(k, slots, n - 1);
      ModOfMod(n - 1, slots, k);
    }
  }

  lemma OneTurn(k: nat, slots: nat)
    requires k > 0 && slots > 0
    ensures Turns(k, slots, slots) == Attempts(k, slots)
  {
    MulModUnique(slots, slots, 1, 0);
    assert Turns(k, slots, slots) == 1 * Attempts(k, slots) + 0;
  }

  lemma TurnAndOne(k: nat, slots: nat)
    requires k > 0 && slots > 0
    ensures Turns(k, slots, slots + 1) == Attempts(k, slots) + 1
  {
    TurnsStep(k, slots, slots);
    OneTurn(k, slots);
    MulModUnique(slots, slots, 1, 0);
    MulModUnique(0, k, 0, 0);
  }

  lemma OneTooMany(k: nat, slots: nat)
    requires k > 0 && slots > 0 && slots % k != 0
    ensures Turns(k, slots, slots + 1) == (slots + 1 + k - 1) / k + 1
  {
    TurnAndOne(k, slots);
    AttemptsCeil(k, slots);
    AttemptsCeil(k, slots + 1);
  }

  /** An action is attempted n / interval times, rounded up, in the first n cycles of every run if and only if its
      interval divides the number of slots; otherwise the count is already too high after slots + 1 cycles. */
  lemma AttemptsRightIff(k: nat, slots: nat)
    requires k > 0 && slots > 0
    ensures (forall n: nat :: Turns(k, slots, n) == (n + k - 1) / k) <==> slots % k == 0
    ensures slots % k != 0 ==> Turns(k, slots, slots + 1) == (slots + 1 + k - 1) / k + 1
  {
    if slots % k == 0 {
      forall n: nat ensures Turns(k, slots, n) == (n + k - 1) / k {
        TurnsOfDivisor(k, slots, n);
        AttemptsCeil(k, n);
      }
    } else {
      OneTooMany(k, slots);
      assert Turns(k, slots, slots + 1) != (slots + 1 + k - 1) / k;
    }
  }

  // ----- schedules built from calculated parameters -----

  /** The actions have periods of the list. */
  ghost predicate From(regs: seq<Action>, ps: seq<nat>, minor: nat)
    requires minor > 0
  {
    forall i :: 0 <= i < |regs| ==> regs[i].period in ps && regs[i].interval == regs[i].period / minor
  }

  /** Every period of the list is some action's. */
  ghost predicate Covers(regs: seq<Action>, ps: seq<nat>) {
    forall j :: 0 <= j < |ps| ==> exists i :: 0 <= i < |regs| && regs[i].period == ps[j]
  }

  lemma FromLaid(regs: seq<Action>, ps: seq<nat>, minor: nat, slots: nat)
    requires Laid(ps, minor) && From(regs, ps, minor)
    ensures Intervals(regs)
    ensures IntervalsDivide(ps, minor, slots) ==> EachDivides(regs, slots)
    ensures Covers(regs, ps) && EachDivides(regs, slots) ==> IntervalsDivide(ps, minor, slots)
  {
    forall i | 0 <= i < |regs| ensures exists j :: 0 <= j < |ps| && ps[j] == regs[i].period {
      assert regs[i].period in ps;
    }
  }

  /** An executive built from calculated parameters runs every action at its period if the periods' true least common
      multiple fits 32 bits; if every period of the list is some action's, and there is a slot, only then. */
  lemma CalculatedScheduleIsPeriodicIff(ps: seq<nat>, regs: seq<Action>)
    requires Periods(ps) && MajorOf(ps).Ok? && GcdAll(ps) > 0 && From(regs, ps, GcdAll(ps))
    ensures Intervals(regs)
    ensures var slots := MajorOf(ps).value / GcdAll(ps);
            && (LcmAll(ps) < U32 ==> slots > 0 && EachDivides(regs, slots) && Periodic(regs, slots))
            && (slots > 0 && Covers(regs, ps) ==> (Periodic(regs, slots) <==> LcmAll(ps) < U32))
  {
    var minor, slots := GcdAll(ps), MajorOf(ps).value / GcdAll(ps);
    IntervalsDivideIff(ps);
    FromLaid(regs, ps, minor, slots);
    if slots > 0 {
      TableIsPeriodicIff(regs, slots);
    }
  }

  lemma {:induction false} CalculatedSlots(ps: seq<nat>)
    requires Periods(ps) && MajorOf(ps).Ok? && GcdAll(ps) > 0
    ensures MajorOf(ps).value / GcdAll(ps) <= MAX_MAJOR_CYCLE_MS
  {
    var minor, major := GcdAll(ps), MajorOf(ps).value;
    if |ps| == 1 {
      MulModUnique(major, minor, 1, 0);
    } else {
      DivLe(major, minor);
    }
  }

  lemma DivLe(n: nat, d: nat)
    requires d > 0
    ensures n / d <= n
  {
    assert n == d * (n / d) + n % d;
    MulMono(1, d, n / d);
  }

  lemma ShortLoopEnd(slots: nat, k: nat)
    requires slots <= MAX_MAJOR_CYCLE_MS && 0 < k < U32
    ensures LoopEnd(slots, k) < U32
  {
    if slots > k {
      CeilCovers(slots, k);
    } else if slots > 0 {
      MulModUnique(slots + k - 1, k, 1, slots - 1);
    } else {
      MulModUnique(k - 1, k, 0, k - 1);
    }
  }

  lemma EndsWithoutWrap(slots: nat, k: nat)
    requires k > 0 && LoopEnd(slots, k) < U32
    ensures Ends(slots, k)
  {
    var e := (slots + k - 1) / k;
    PlacesUpTo(slots, k, e, e);
    assert Place(k, e) >= slots;
  }

  lemma ShortLoop(slots: nat, k: nat)
    requires slots <= MAX_MAJOR_CYCLE_MS && 0 < k < U32
    ensures LoopEnd(slots, k) < U32 && Ends(slots, k)
  {
    ShortLoopEnd(slots, k);
    EndsWithoutWrap(slots, k);
  }

  lemma IntervalOf(period: nat, minor: nat)
    requires Divides(minor, period) && period > 0
    ensures 0 < period / minor <= period
  {
    DividesLe(minor, period);
    QuotientZeroIff(period, minor);
    DivLe(period, minor);
  }

  /** In an executive built from calculated parameters the placing loop never wraps: registering any positive
      multiple of the minor cycle ends and keeps the table. */
  lemma CalculatedNeverWraps(ps: seq<nat>, period: nat, slots: nat, k: nat)
    requires Periods(ps) && MajorOf(ps).Ok? && GcdAll(ps) > 0
    requires 0 < period < U32 && Divides(GcdAll(ps), period)
    requires slots == MajorOf(ps).value / GcdAll(ps) && k == period / GcdAll(ps)
    ensures k > 0 && LoopEnd(slots, k) < U32 && Ends(slots, k)
  {
    CalculatedSlots(ps);
    IntervalOf(period, GcdAll(ps));
    ShortLoop(slots, k);
  }

  // ----- load of the slots -----

  /** Worst-case time, in microseconds, of a slot. */
  function CostOf(slot: seq<Action>): real {
    if slot == [] then 0.0 else CostOf(slot[..|slot| - 1]) + slot[|slot| - 1].cost
  }

  /** Worst-case time of one turn of the table. */
  function TableCost(schedule: seq<seq<Action>>): real {
    if schedule == [] then 0.0 else TableCost(schedule[..|schedule| - 1]) + CostOf(schedule[|schedule| - 1])
  }

  /** What each action contributes to slot `s`. */
  function Work(regs: seq<Action>, s: nat): seq<real>
    requires Intervals(regs)
  {
    seq(|regs|, i requires 0 <= i < |regs| => if s % regs[i].interval == 0 then regs[i].cost else 0.0)
  }

  lemma {:induction false} DueCost(regs: seq<Action>, s: nat)
    requires Intervals(regs)
    ensures CostOf(DueAt(regs, s)) == Sum(Work(regs, s))
  {
    if regs != [] {
      var init, last := regs[..|regs| - 1], regs[|regs| - 1];
      DueCost(init, s);
      var w, due := Work(regs, s), DueAt(init, s);
      assert w[..|w| - 1] == Work(init, s);
      assert w[|w| - 1] == if s % last.interval == 0 then last.cost else 0.0;
      assert (due + [last])[..|due|] == due && due + [] == due;
    }
  }

  /** wcet / period of an action, both in milliseconds. */
  function Share(a: Action): real {
    if a.period == 0 then 0.0 else a.cost / 1000.0 / a.period as real
  }

  function Shares(regs: seq<Action>): seq<real> {
    seq(|regs|, i requires 0 <= i < |regs| => Share(regs[i]))
  }

  /** Worst-case time of each action over the first `n` slots. */
  function WorkOver(regs: seq<Action>, n: nat): seq<real>
    requires Intervals(regs)
  {
    seq(|regs|, i requires 0 <= i < |regs| => regs[i].cost * Attempts(regs[i].interval, n) as real)
  }

  lemma WorkStep(c: real, k: nat, n: nat)
    requires k > 0
    ensures c * Attempts(k, n + 1) as real
         == c * Attempts(k, n) as real + (if n % k == 0 then c else 0.0)
  {}

  lemma WorkOverStep(regs: seq<Action>, n: nat)
    requires Intervals(regs)
    ensures Sum(WorkOver(regs, n + 1)) == Sum(WorkOver(regs, n)) + Sum(Work(regs, n))
  {
    forall i | 0 <= i < |regs|
      ensures WorkOver(regs, n + 1)[i] == WorkOver(regs, n)[i] + Work(regs, n)[i]
    {
      WorkStep(regs[i].cost, regs[i].interval, n);
    }
    SumAdd(WorkOver(regs, n + 1), WorkOver(regs, n), Work(regs, n));
  }

  lemma NoWork(regs: seq<Action>)
    requires Intervals(regs)
    ensures Sum(WorkOver(regs, 0)) == 0.0
  {
    var xs := WorkOver(regs, 0);
    forall i | 0 <= i < |xs| ensures xs[i] == 0.0 {
      assert xs[i] == regs[i].cost * 0.0;
    }
    SumZeroIff(xs);
  }

  /** The time of the table, slot by slot, is the time of the actions, action by action. */
  lemma {:induction false} CostByAction(schedule: seq<seq<Action>>, regs: seq<Action>)
    requires TableOf(schedule, regs)
    ensures TableCost(schedule) == Sum(WorkOver(regs, |schedule|))
    decreases schedule
  {
    if schedule == [] {
      NoWork(regs);
    } else {
      var n := |schedule| - 1;
      CostByAction(schedule[..n], regs);
      DueCost(regs, n);
      WorkOverStep(regs, n);
    }
  }

  /** A registered action: its interval is its period in minor cycles. */
  predicate Placed(a: Action, minor: nat) {
    a.interval > 0 && a.period > 0 && a.period == a.interval * minor
  }

  /** Extra time the table spends on an action whose interval does not divide the number of slots: it
      starts again in slot 0 before its period is over. */
  function Overrun(c: real, k: nat, slots: nat): real
    requires k > 0
  {
    c * (Attempts(k, slots) as real - slots as real / k as real)
  }

  function Overruns(regs: seq<Action>, slots: nat): seq<real>
    requires Intervals(regs)
  {
    seq(|regs|, i requires 0 <= i < |regs| => Overrun(regs[i].cost, regs[i].interval, slots))
  }

  lemma RealShare(c: real, slots: nat, k: nat, minor: nat)
    requires k > 0 && minor > 0 && k * minor > 0
    ensures 1000.0 * (slots * minor) as real * (c / 1000.0 / (k * minor) as real) == c * (slots as real / k as real)
  {
    var s, kr, m := slots as real, k as real, minor as real;
    assert (k * minor) as real == kr * m;
    assert (slots * minor) as real == s * m;
    var u := c / 1000.0 / (kr * m);
    var v := s / kr;
    assert u * (kr * m) == c / 1000.0;
    assert v * kr == s;
    assert 1000.0 * (s * m) * u == 1000.0 * v * (u * (kr * m));
  }

  lemma Distribute3(c: real, x: real, y: real)
    ensures c * x == c * y + c * (x - y)
  {}

  /** One action's time over the major cycle: its share of it, and its overrun. */
  lemma WorkSplit(c: real, slots: nat, k: nat, minor: nat, period: nat)
    requires k > 0 && minor > 0 && period == k * minor && period > 0
    ensures c * Attempts(k, slots) as real
         == 1000.0 * (slots * minor) as real * (c / 1000.0 / period as real) + Overrun(c, k, slots)
  {
    RealShare(c, slots, k, minor);
    Distribute3(c, Attempts(k, slots) as real, slots as real / k as real);
  }

  ghost predicate Splits(a: Action, slots: nat, majorUs: real)
    requires a.interval > 0
  {
    a.cost * Attempts(a.interval, slots) as real == majorUs * Share(a) + Overrun(a.cost, a.interval, slots)
  }

  ghost predicate SplitAll(regs: seq<Action>, slots: nat, majorUs: real)
    requires Intervals(regs)
  {
    forall i :: 0 <= i < |regs| ==> Splits(regs[i], slots, majorUs)
  }

  ghost predicate AllPlaced(regs: seq<Action>, minor: nat) {
    Intervals(regs) && forall i :: 0 <= i < |regs| ==> Placed(regs[i], minor)
  }

  ghost predicate NoNegativeCost(regs: seq<Action>) {
    forall i :: 0 <= i < |regs| ==> regs[i].cost >= 0.0
  }

  lemma AllSplit(regs: seq<Action>, minor: nat, slots: nat)
    requires AllPlaced(regs, minor)
    ensures SplitAll(regs, slots, 1000.0 * (slots * minor) as real)
  {
    forall i | 0 <= i < |regs| ensures Splits(regs[i], slots, 1000.0 * (slots * minor) as real) {
      var a := regs[i];
      WorkSplit(a.cost, slots, a.interval, minor, a.period);
    }
  }

  lemma SplitAt(regs: seq<Action>, slots: nat, majorUs: real, i: nat)
    requires Intervals(regs) && i < |regs| && Splits(regs[i], slots, majorUs)
    ensures WorkOver(regs, slots)[i] == Scaled(majorUs, Shares(regs))[i] + Overruns(regs, slots)[i]
  {
    ScaledAt(majorUs, Shares(regs), i);
  }

  lemma CostIsShareAndOverrun(schedule: seq<seq<Action>>, regs: seq<Action>, majorUs: real)
    requires TableOf(schedule, regs) && SplitAll(regs, |schedule|, majorUs)
    ensures TableCost(schedule) == Sum(Scaled(majorUs, Shares(regs))) + Sum(Overruns(regs, |schedule|))
  {
    var slots := |schedule|;
    var work, over, shares := WorkOver(regs, slots), Overruns(regs, slots), Scaled(majorUs, Shares(regs));
    forall i | 0 <= i < |regs| ensures work[i] == shares[i] + over[i] {
      SplitAt(regs, slots, majorUs, i);
    }
    SumAdd(work, shares, over);
    CostByAction(schedule, regs);
  }

  lemma ScaleSign(c: real, d: real, k: real)
    requires c > 0.0 && k > 0.0 && d * k >= 0.0
    ensures c * d >= 0.0 && (c * d == 0.0 <==> d * k == 0.0)
  {
    assert d >= 0.0;
    assert d > 0.0 ==> c * d > 0.0 && d * k > 0.0;
  }

  lemma GapScaled(n: nat, slots: nat, k: nat)
    requires k > 0
    ensures (n as real - slots as real / k as real) * k as real == (n * k - slots) as real
  {
    var v := slots as real / k as real;
    assert v * k as real == slots as real;
    assert (n as real - v) * k as real == n as real * k as real - v * k as real;
  }

  lemma GapSign(c: real, k: nat, slots: nat, n: nat)
    requires k > 0 && c > 0.0 && n * k >= slots
    ensures c * (n as real - slots as real / k as real) >= 0.0
    ensures c * (n as real - slots as real / k as real) == 0.0 <==> n * k == slots
  {
    GapScaled(n, slots, k);
    ScaleSign(c, n as real - slots as real / k as real, k as real);
  }

  lemma OverrunSign(c: real, k: nat, slots: nat)
    requires k > 0 && c >= 0.0
    ensures Overrun(c, k, slots) >= 0.0
    ensures Overrun(c, k, slots) == 0.0 <==> c == 0.0 || slots % k == 0
  {
    AttemptsCeil(k, slots);
    CeilCovers(slots, k);
    if c > 0.0 {
      GapSign(c, k, slots, Attempts(k, slots));
    }
  }

  /** Every action that costs something has an interval that divides the number of slots. */
  ghost predicate CostlyDivide(regs: seq<Action>, slots: nat)
    requires Intervals(regs)
  {
    forall i :: 0 <= i < |regs| ==> regs[i].cost == 0.0 || slots % regs[i].interval == 0
  }

  lemma OverrunsSign(regs: seq<Action>, slots: nat)
    requires Intervals(regs) && NoNegativeCost(regs)
    ensures Sum(Overruns(regs, slots)) >= 0.0
    ensures Sum(Overruns(regs, slots)) == 0.0 <==> CostlyDivide(regs, slots)
  {
    var xs := Overruns(regs, slots);
    forall i | 0 <= i < |regs|
      ensures xs[i] >= 0.0 && (xs[i] == 0.0 <==> regs[i].cost == 0.0 || slots % regs[i].interval == 0)
    {
      OverrunSign(regs[i].cost, regs[i].interval, slots);
    }
    SumZeroIff(xs);
    assert CostlyDivide(regs, slots) <==> forall i :: 0 <= i < |xs| ==> xs[i] == 0.0;
  }

  lemma CostOfSplit(schedule: seq<seq<Action>>, regs: seq<Action>, majorUs: real)
    requires TableOf(schedule, regs) && SplitAll(regs, |schedule|, majorUs) && NoNegativeCost(regs)
    ensures TableCost(schedule) >= Sum(Scaled(majorUs, Shares(regs)))
    ensures TableCost(schedule) == Sum(Scaled(majorUs, Shares(regs))) <==> CostlyDivide(regs, |schedule|)
  {
    CostIsShareAndOverrun(schedule, regs, majorUs);
    OverrunsSign(regs, |schedule|);
  }

  /** The worst-case time of the table is never less than the major cycle's length times the utilisation (the
      shares summed, each scaled to the cycle), and equals it exactly when the interval of every action that costs
      something divides the number of slots. */
  lemma CostIsUtilisationIff(schedule: seq<seq<Action>>, regs: seq<Action>, minor: nat, majorUs: real)
    requires TableOf(schedule, regs) && AllPlaced(regs, minor) && NoNegativeCost(regs)
    requires majorUs == 1000.0 * (|schedule| * minor) as real
    ensures TableCost(schedule) >= Sum(Scaled(majorUs, Shares(regs)))
    ensures TableCost(schedule) == Sum(Scaled(majorUs, Shares(regs))) <==> CostlyDivide(regs, |schedule|)
  {
    AllSplit(regs, minor, |schedule|);
    CostOfSplit(schedule, regs, majorUs);
  }

  /** No slot costs more than slot 0. */
  lemma SlotZeroHeaviest(schedule: seq<seq<Action>>, regs: seq<Action>, s: nat)
    requires TableOf(schedule, regs) && NoNegativeCost(regs) && s < |schedule|
    ensures CostOf(schedule[s]) <= CostOf(schedule[0])
  {
    DueCost(regs, s);
    DueCost(regs, 0);
    SumLe(Work(regs, s), Work(regs, 0));
  }
}
