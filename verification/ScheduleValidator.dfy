/** validate_schedule: per-action checks and the 70% utilisation test, with the double's infinities and
    not-a-number kept apart from its finite values. */
module ScheduleValidator {
  import opened Common
  import opened Divisibility
  import opened ScheduleCalculator
  import opened Sums
  import opened CyclicExecutive

  const MAX_CPU_UTILIZATION: real := 0.70

  /** An action object of the configuration file; any field may be missing. */
  datatype RawAction = RawAction(name: Option<string>, period: Option<nat>, wcet: Option<nat>) {
    predicate Complete() { name.Some? && period.Some? && wcet.Some? }

    /** The checks on one action alone. The product period * 1000 is a uint32. */
    predicate Faulty(minor: nat)
      requires minor > 0
    {
      !Complete() || wcet.value > period.value * 1000 % U32 || period.value % minor != 0
    }
  }

  function Plus(a: Double, b: Double): Double {
    if a.NaN? || b.NaN? then NaN
    else if a.Fin? && b.Fin? then Fin(a.v + b.v)
    else if a.Fin? || a == b then b
    else if b.Fin? then a
    else NaN
  }

  /** `d > limit`: false of not-a-number. */
  predicate Exceeds(d: Double, limit: real) {
    d.PosInf? || (d.Fin? && d.v > limit)
  }

  /** (wcet / 1000.0) / period. */
  function UtilOf(a: RawAction): Double
    requires a.Complete()
  {
    if a.period.value > 0 then Fin(a.wcet.value as real / 1000.0 / a.period.value as real)
    else if a.wcet.value > 0 then PosInf
    else NaN
  }

  /** The running total; incomplete actions are skipped. */
  function Total(actions: seq<RawAction>): Double {
    if actions == [] then Fin(0.0)
    else
      var last := actions[|actions| - 1];
      var before := Total(actions[..|actions| - 1]);
      if last.Complete() then Plus(before, UtilOf(last)) else before
  }

  predicate AnyFaulty(actions: seq<RawAction>, minor: nat)
    requires minor > 0
  {
    exists i :: 0 <= i < |actions| && actions[i].Faulty(minor)
  }

  predicate Accepts(actions: seq<RawAction>, minor: nat)
    requires minor > 0
  {
    !AnyFaulty(actions, minor) && !Exceeds(Total(actions), MAX_CPU_UTILIZATION)
  }

  method CheckActions(actions: seq<RawAction>, minor: nat) returns (hasError: bool)
    requires minor > 0
    ensures hasError <==> !Accepts(actions, minor)
  {
    hasError := false;
    var total := Fin(0.0);
    for i := 0 to |actions|
      invariant total == Total(actions[..i])
      invariant hasError <==> AnyFaulty(actions[..i], minor)
    {
      var a := actions[i];
      assert actions[..i + 1][..i] == actions[..i];
      assert AnyFaulty(actions[..i + 1], minor) <==> AnyFaulty(actions[..i], minor) || a.Faulty(minor) by {
        assert actions[..i + 1][i] == a;
        assert forall j :: 0 <= j < i ==> actions[..i + 1][j] == actions[..i][j];
      }
      if !a.Complete() {
        hasError := true;
      } else {
        if a.wcet.value > a.period.value * 1000 % U32 {
          hasError := true;
        }
        if a.period.value % minor != 0 {
          hasError := true;
        }
        total := Plus(total, UtilOf(a));
      }
    }
    assert actions[..|actions|] == actions;
    if Exceeds(total, MAX_CPU_UTILIZATION) {
      hasError := true;
    }
  }

  /** The tool's exit code: 0 when the parameters can be calculated and no action fails a check. A missing
      action list is only a warning. */
  method Validate(periods: seq<nat>, actions: Option<seq<RawAction>>) returns (code: int)
    requires forall i :: 0 <= i < |periods| ==> periods[i] < U32
    ensures code == 0 || code == 1
    ensures code == 0 ==> Periods(periods) && MajorOf(periods).Ok? && GcdAll(periods) > 0
    ensures Periods(periods) && MajorOf(periods).Ok? && GcdAll(periods) > 0 ==>
              (code == 0 <==> (actions.Some? ==> Accepts(actions.value, GcdAll(periods))))
  {
    var params := Calculate(periods);
    if params.Err? {
      return 1;
    }
    if actions.None? {
      return 0;
    }
    var hasError := CheckActions(actions.value, params.value.minor);
    return if hasError then 1 else 0;
  }

  // ----- what acceptance means -----

  predicate HasZeroPeriod(actions: seq<RawAction>) {
    exists i :: 0 <= i < |actions| && actions[i].period == Some(0)
  }

  /** The utilisation the test is about: the sum of wcet / period. */
  function Exact(a: RawAction): real {
    if a.Complete() && a.period.value > 0 then a.wcet.value as real / 1000.0 / a.period.value as real else 0.0
  }

  function ExactAll(actions: seq<RawAction>): seq<real> {
    seq(|actions|, i requires 0 <= i < |actions| => Exact(actions[i]))
  }

  /** With no faulty action the total is the exact sum, unless a zero period turns it into not-a-number. */
  lemma {:induction false} TotalShape(actions: seq<RawAction>, minor: nat)
    requires minor > 0 && !AnyFaulty(actions, minor)
    ensures Total(actions) == if HasZeroPeriod(actions) then NaN else Fin(Sum(ExactAll(actions)))
  {
    if actions != [] {
      var init, last := actions[..|actions| - 1], actions[|actions| - 1];
      assert forall i :: 0 <= i < |init| ==> init[i] == actions[i];
      assert !last.Faulty(minor);
      TotalShape(init, minor);
      assert ExactAll(actions)[..|actions| - 1] == ExactAll(init);
      assert HasZeroPeriod(actions) <==> HasZeroPeriod(init) || last.period == Some(0);
    }
  }

  /** Exactly what is accepted: no faulty action, and either a true utilisation of at most 70% or any action
      with period zero, which switches the test off. */
  lemma AcceptsIff(actions: seq<RawAction>, minor: nat)
    requires minor > 0
    ensures Accepts(actions, minor) <==> (
              && !AnyFaulty(actions, minor)
              && (HasZeroPeriod(actions) || Sum(ExactAll(actions)) <= MAX_CPU_UTILIZATION))
  {
    if !AnyFaulty(actions, minor) {
      TotalShape(actions, minor);
    }
  }

  /** One action "0 ms, 0 us" lets a 100% load through. */
  lemma ZeroPeriodHidesOverload() returns (actions: seq<RawAction>)
    ensures Accepts(actions, 10) && Sum(ExactAll(actions)) == 1.0
  {
    var idle, busy := RawAction(Some("idle"), Some(0), Some(0)), RawAction(Some("busy"), Some(10), Some(10000));
    actions := [idle, busy];
    var xs := ExactAll(actions);
    assert xs == [0.0, 1.0];
    assert xs[..1] == [0.0] && [0.0][..0] == [];
    assert Sum([0.0]) == 0.0;
    assert actions[0].period == Some(0);
    assert !AnyFaulty(actions, 10);
    AcceptsIff(actions, 10);
  }

  /** `regs` are the accepted actions as registered with the executive. */
  ghost predicate Registered(actions: seq<RawAction>, regs: seq<Action>, minor: nat)
    requires minor > 0
  {
    && |regs| == |actions|
    && forall i :: 0 <= i < |regs| ==>
         && actions[i].Complete()
         && regs[i] == Action(actions[i].name.value, actions[i].period.value, actions[i].period.value / minor,
                              actions[i].wcet.value as real)
  }

  lemma RegisteredFacts(actions: seq<RawAction>, regs: seq<Action>, minor: nat, i: nat)
    requires minor > 0 && Registered(actions, regs, minor) && !AnyFaulty(actions, minor)
    requires i < |regs| && actions[i].period.value > 0
    ensures Placed(regs[i], minor) && Share(regs[i]) == Exact(actions[i])
  {
    var p := actions[i].period.value;
    assert !actions[i].Faulty(minor);
    Quotient(minor, p);
    assert p / minor > 0 && p == p / minor * minor;
  }

  lemma AcceptedUtilisation(actions: seq<RawAction>, regs: seq<Action>, minor: nat)
    requires minor > 0 && Accepts(actions, minor) && Registered(actions, regs, minor)
    requires forall i :: 0 <= i < |actions| ==> actions[i].period.value > 0
    ensures AllPlaced(regs, minor)
    ensures Sum(Shares(regs)) <= MAX_CPU_UTILIZATION
  {
    forall i | 0 <= i < |regs|
      ensures Placed(regs[i], minor) && Share(regs[i]) == Exact(actions[i])
    {
      RegisteredFacts(actions, regs, minor, i);
    }
    assert Shares(regs) == ExactAll(actions);
    assert !HasZeroPeriod(actions);
    AcceptsIff(actions, minor);
  }

  /** Length in microseconds of one turn of the table. */
  function TurnUs(slots: nat, minor: nat): real { 1000.0 * (slots * minor) as real }

  /** Accepted actions of which those with a cost have intervals that divide the number of slots: the table costs
      exactly their shares of a turn. */
  lemma {:induction false} DividingCost(
    actions: seq<RawAction>, regs: seq<Action>, schedule: seq<seq<Action>>, minor: nat, turnUs: real)
    requires minor > 0 && Accepts(actions, minor) && Registered(actions, regs, minor)
    requires TableOf(schedule, regs) && CostlyDivide(regs, |schedule|) && turnUs == TurnUs(|schedule|, minor)
    ensures TableCost(schedule) == Sum(Scaled(turnUs, Shares(regs)))
    ensures Sum(Shares(regs)) <= MAX_CPU_UTILIZATION
  {
    forall i | 0 <= i < |actions| ensures actions[i].period.value > 0 {
      assert regs[i].interval > 0;
    }
    AcceptedUtilisation(actions, regs, minor);
    assert NoNegativeCost(regs);
    CostIsUtilisationIff(schedule, regs, minor, turnUs);
  }

  lemma {:induction false} DividingFits(
    actions: seq<RawAction>, regs: seq<Action>, schedule: seq<seq<Action>>, minor: nat, turnUs: real)
    requires minor > 0 && Accepts(actions, minor) && Registered(actions, regs, minor)
    requires TableOf(schedule, regs) && CostlyDivide(regs, |schedule|) && turnUs == TurnUs(|schedule|, minor)
    ensures TableCost(schedule) <= 0.70 * turnUs
  {
    DividingCost(actions, regs, schedule, minor, turnUs);
    ScaledBound(turnUs, Shares(regs), 0.70);
  }

  /** The cycle was calculated from `ps`, whose least common multiple fits 32 bits; the validator accepts the actions,
      their periods are in `ps`, and `schedule` is the table they are registered in. */
  ghost predicate Validated(ps: seq<nat>, actions: seq<RawAction>, regs: seq<Action>, schedule: seq<seq<Action>>) {
    && Periods(ps) && MajorOf(ps).Ok? && LcmAll(ps) < U32 && GcdAll(ps) > 0
    && Accepts(actions, GcdAll(ps)) && Registered(actions, regs, GcdAll(ps))
    && (forall i :: 0 <= i < |regs| ==> regs[i].period in ps)
    && |schedule| == MajorOf(ps).value / GcdAll(ps) && TableOf(schedule, regs)
  }

  /** End to end: if the validator accepts and every period is in the list the cycle was calculated from,
      whose least common multiple fits 32 bits, then the worst-case time of the executive's table is at most
      70% of the major cycle. */
  lemma {:induction false} ValidatedScheduleFits(
    ps: seq<nat>, actions: seq<RawAction>, regs: seq<Action>, schedule: seq<seq<Action>>, majorUs: real)
    requires Validated(ps, actions, regs, schedule) && majorUs == 1000.0 * MajorOf(ps).value as real
    ensures TableCost(schedule) <= 0.70 * majorUs
  {
    CalculatedScheduleIsPeriodicIff(ps, regs);
    MajorMultipleOfMinor(ps);
    DividingFits(actions, regs, schedule, GcdAll(ps), majorUs);
  }

  /** The validator does not check that a period divides the major cycle. With the single period 10 in the
      list, an action of period 1000 ms and 100 ms cost is accepted at 10% utilisation, but the table runs
      it in every 10 ms cycle. */
  lemma LongPeriodAcceptedButOverloads()
    returns (actions: seq<RawAction>, regs: seq<Action>, schedule: seq<seq<Action>>)
    ensures MajorOf([10]) == Ok(10) && GcdAll([10]) == 10
    ensures Accepts(actions, 10) && Registered(actions, regs, 10)
    ensures |schedule| == 1 && TableOf(schedule, regs) && TableCost(schedule) == 100_000.0
  {
    var scan := Action("scan", 1000, 100, 100_000.0);
    var raw := RawAction(Some("scan"), Some(1000), Some(100_000));
    actions, regs, schedule := [raw], [scan], [[scan]];
    LongPeriodAccepted(raw);
    OneRegistered(raw, scan);
    OneSlot(scan);
  }

  lemma LongPeriodAccepted(a: RawAction)
    requires a == RawAction(Some("scan"), Some(1000), Some(100_000))
    ensures Accepts([a], 10)
  {
    SumOne(ExactAll([a]), 0);
    AcceptsIff([a], 10);
  }

  lemma OneRegistered(raw: RawAction, a: Action)
    requires raw == RawAction(Some("scan"), Some(1000), Some(100_000)) && a == Action("scan", 1000, 100, 100_000.0)
    ensures Registered([raw], [a], 10)
  {}

  lemma OneSlot(a: Action)
    requires a.interval > 0
    ensures TableOf([[a]], [a]) && TableCost([[a]]) == a.cost
  {
    OneDue(a);
    OneCost(a);
  }

  lemma OneDue(a: Action)
    requires a.interval > 0
    ensures TableOf([[a]], [a])
  {
    var init: seq<Action> := [a][..0];
    assert init == [] && DueAt(init, 0) == [];
    MulModUnique(0, a.interval, 0, 0);
    assert DueAt([a], 0) == DueAt(init, 0) + [a];
  }

  lemma OneCost(a: Action)
    ensures TableCost([[a]]) == a.cost
  {
    assert [a][..0] == [];
    assert CostOf([a]) == CostOf([]) + a.cost;
    assert [[a]][..0] == [];
    assert TableCost([[a]]) == TableCost([]) + CostOf([a]);
  }

  // ----- exactly when acceptance bounds the table -----

  /** The validator accepts `actions`, and `schedule` is the table of `slots` slots they are registered in. */
  ghost predicate Deployed(actions: seq<RawAction>, regs: seq<Action>, schedule: seq<seq<Action>>,
                           minor: nat, slots: nat)
    requires minor > 0
  {
    && Accepts(actions, minor) && Registered(actions, regs, minor)
    && |schedule| == slots && TableOf(schedule, regs)
  }

  ghost predicate Fits(schedule: seq<seq<Action>>, minor: nat, slots: nat) {
    TableCost(schedule) <= 0.70 * TurnUs(slots, minor)
  }

  ghost predicate PeriodsAre(actions: seq<RawAction>, periods: seq<nat>) {
    |actions| == |periods| && forall i :: 0 <= i < |actions| ==> actions[i].period == Some(periods[i])
  }

  ghost predicate PeriodsIn(actions: seq<RawAction>, periods: seq<nat>) {
    forall i :: 0 <= i < |actions| ==> actions[i].period.Some? && actions[i].period.value in periods
  }

  /** Whatever accepted costs the actions of these periods have, the table takes at most 70% of its turn. */
  ghost predicate FitsAllCosts(periods: seq<nat>, minor: nat, slots: nat)
    requires minor > 0
  {
    forall actions, regs, schedule ::
      Deployed(actions, regs, schedule, minor, slots) && PeriodsAre(actions, periods) ==> Fits(schedule, minor, slots)
  }

  /** Whatever accepted actions there are, any number of them at each of these periods. */
  ghost predicate FitsAllActions(periods: seq<nat>, minor: nat, slots: nat)
    requires minor > 0
  {
    forall actions, regs, schedule ::
      Deployed(actions, regs, schedule, minor, slots) && PeriodsIn(actions, periods) ==> Fits(schedule, minor, slots)
  }

  /** The budget wraps to zero, so that only actions without cost are accepted at this period. */
  predicate Capped(period: nat) { period * 1000 % U32 == 0 }

  /** One action of this period may have 70% of it as its cost, as at every period below 2^32 us. */
  predicate Roomy(period: nat) { 700 * period <= period * 1000 % U32 }

  ghost predicate AllRoomy(periods: seq<nat>) {
    forall i :: 0 <= i < |periods| ==> Roomy(periods[i])
  }

  /** Of the periods at which an action can cost something, every interval divides the number of slots. */
  ghost predicate UncappedDivide(periods: seq<nat>, minor: nat, slots: nat)
    requires Laid(periods, minor)
  {
    forall i :: 0 <= i < |periods| ==> Capped(periods[i]) || slots % (periods[i] / minor) == 0
  }

  lemma DeployedFits(periods: seq<nat>, minor: nat, slots: nat,
                     actions: seq<RawAction>, regs: seq<Action>, schedule: seq<seq<Action>>)
    requires Laid(periods, minor) && UncappedDivide(periods, minor, slots)
    requires Deployed(actions, regs, schedule, minor, slots) && PeriodsIn(actions, periods)
    ensures Fits(schedule, minor, slots)
  {
    forall i | 0 <= i < |regs| ensures regs[i].cost == 0.0 || slots % regs[i].interval == 0 {
      assert !actions[i].Faulty(minor);
      var j :| 0 <= j < |periods| && periods[j] == actions[i].period.value;
    }
    DividingFits(actions, regs, schedule, minor, TurnUs(slots, minor));
  }

  // A load of exactly 70% on one interval.

  lemma FullShare(p: nat)
    requires p > 0
    ensures (700 * p) as real / 1000.0 / p as real == 0.70
  {
    var x := (700 * p) as real / 1000.0;
    assert x == 0.70 * p as real;
    assert x / p as real * p as real == x;
    SameFactor(x / p as real, 0.70, p as real);
  }

  lemma SameFactor(u: real, v: real, p: real)
    requires p > 0.0 && u * p == v * p
    ensures u == v
  {}

  lemma ScaleLeIff(x: nat, y: nat, m: nat)
    requires m > 0
    ensures 700 * (x * m) <= 700 * (y * m) <==> x <= y
  {
    if x <= y {
      MulMono(x, y, m);
    } else {
      MulMono(y + 1, x, m);
      assert (y + 1) * m == y * m + m;
    }
  }

  lemma Reorder(p: nat, k: nat, m: nat, n: nat)
    requires p == k * m
    ensures 700 * p * n == 700 * (n * k * m)
  {
    assert (k * m) * n == n * k * m;
  }

  lemma FullLoad(period: nat, minor: nat, slots: nat, k: nat, n: nat)
    requires minor > 0 && period == k * minor && k > 0 && n == Attempts(k, slots)
    ensures 700 * period * n <= 700 * (slots * minor) <==> slots % k == 0
  {
    AttemptsCeil(k, slots);
    CeilCovers(slots, k);
    Reorder(period, k, minor, n);
    ScaleLeIff(n * k, slots, minor);
  }

  lemma TurnLimit(cost: nat, n: nat, turnUs: real)
    requires turnUs == 1000.0 * n as real
    ensures cost as real <= 0.70 * turnUs <==> cost <= 700 * n
  {
    assert 0.70 * turnUs == (700 * n) as real;
  }

  lemma FullLoadFitsIff(schedule: seq<seq<Action>>, period: nat, minor: nat, slots: nat, k: nat, n: nat)
    requires minor > 0 && period == k * minor && k > 0 && n == Attempts(k, slots)
    requires TableCost(schedule) == (700 * period * n) as real
    ensures Fits(schedule, minor, slots) <==> slots % k == 0
  {
    FullLoad(period, minor, slots, k, n);
    TurnLimit(700 * period * n, slots * minor, TurnUs(slots, minor));
  }

  function Table(regs: seq<Action>, slots: nat): (schedule: seq<seq<Action>>)
    requires Intervals(regs)
    ensures |schedule| == slots && TableOf(schedule, regs)
  {
    seq(slots, s requires 0 <= s => DueAt(regs, s))
  }

  /** Action `i` costs `w`, the others nothing. */
  function Only(periods: seq<nat>, i: nat, w: nat): (r: seq<RawAction>)
    ensures |r| == |periods|
  {
    seq(|periods|, j requires 0 <= j < |periods| =>
      RawAction(Some(""), Some(periods[j]), Some(if j == i then w else 0)))
  }

  function OnlyRegistered(periods: seq<nat>, minor: nat, i: nat, w: nat): seq<Action>
    requires minor > 0
  {
    seq(|periods|, j requires 0 <= j < |periods| =>
      Action("", periods[j], periods[j] / minor, if j == i then w as real else 0.0))
  }

  lemma OnlyAccepted(periods: seq<nat>, minor: nat, i: nat)
    requires Laid(periods, minor) && i < |periods| && Roomy(periods[i])
    ensures Accepts(Only(periods, i, 700 * periods[i]), minor)
  {
    var p := periods[i];
    var actions := Only(periods, i, 700 * p);
    var xs := ExactAll(actions);
    SumOne(xs, i);
    FullShare(p);
    assert !AnyFaulty(actions, minor);
    AcceptsIff(actions, minor);
  }

  lemma NoWorkAt(regs: seq<Action>, slots: nat, j: nat)
    requires Intervals(regs) && j < |regs| && regs[j].cost == 0.0
    ensures WorkOver(regs, slots)[j] == 0.0
  {
    UnitTimes(Attempts(regs[j].interval, slots));
  }

  lemma WorkAt(regs: seq<Action>, slots: nat, i: nat, w: nat)
    requires Intervals(regs) && i < |regs| && regs[i].cost == w as real
    ensures WorkOver(regs, slots)[i] == (w * Attempts(regs[i].interval, slots)) as real
  {
    MulAsReal(w, Attempts(regs[i].interval, slots));
  }

  lemma OnlyCost(regs: seq<Action>, slots: nat, i: nat, w: nat)
    requires Intervals(regs) && i < |regs|
    requires forall j :: 0 <= j < |regs| ==> regs[j].cost == if j == i then w as real else 0.0
    ensures Sum(WorkOver(regs, slots)) == (w * Attempts(regs[i].interval, slots)) as real
  {
    var xs := WorkOver(regs, slots);
    forall j | 0 <= j < |xs| && j != i ensures xs[j] == 0.0 {
      NoWorkAt(regs, slots, j);
    }
    WorkAt(regs, slots, i, w);
    SumOne(xs, i);
  }

  lemma UnitTimes(n: nat)
    ensures 0.0 * n as real == 0.0 && 1.0 * n as real == n as real
  {}

  lemma MulAsReal(a: nat, b: nat)
    ensures (a * b) as real == a as real * b as real
  {}

  lemma OnlyFits(periods: seq<nat>, minor: nat, slots: nat, i: nat)
    requires Laid(periods, minor) && i < |periods| && Roomy(periods[i]) && FitsAllCosts(periods, minor, slots)
    ensures slots % (periods[i] / minor) == 0
  {
    var w := 700 * periods[i];
    var actions, regs := Only(periods, i, w), OnlyRegistered(periods, minor, i, w);
    var schedule := Table(regs, slots);
    OnlyAccepted(periods, minor, i);
    OnlyCost(regs, slots, i, w);
    CostByAction(schedule, regs);
    assert Deployed(actions, regs, schedule, minor, slots) && PeriodsAre(actions, periods);
    Quotient(minor, periods[i]);
    FullLoadFitsIff(schedule, periods[i], minor, slots, periods[i] / minor, Attempts(periods[i] / minor, slots));
  }

  /** Exactly when acceptance bounds the table of actions with these periods, one each: every accepted assignment of
      costs keeps it within 70% of its turn if and only if every interval divides the number of slots. Periods at which
      the 32-bit test refuses a cost of 70% can only make it hold more often. */
  lemma FitsAllCostsIff(periods: seq<nat>, minor: nat, slots: nat)
    requires Laid(periods, minor)
    ensures IntervalsDivide(periods, minor, slots) ==> FitsAllCosts(periods, minor, slots)
    ensures AllRoomy(periods) ==> (FitsAllCosts(periods, minor, slots) <==> IntervalsDivide(periods, minor, slots))
  {
    if IntervalsDivide(periods, minor, slots) {
      forall actions, regs, schedule |
        Deployed(actions, regs, schedule, minor, slots) && PeriodsAre(actions, periods)
        ensures Fits(schedule, minor, slots)
      {
        DeployedFits(periods, minor, slots, actions, regs, schedule);
      }
    }
    if AllRoomy(periods) && FitsAllCosts(periods, minor, slots) {
      forall i | 0 <= i < |periods| ensures slots % (periods[i] / minor) == 0 {
        OnlyFits(periods, minor, slots, i);
      }
    }
  }

  /** `n` actions of one microsecond. */
  function Many(period: nat, n: nat): (r: seq<RawAction>)
    ensures |r| == n
  {
    seq(n, _ => RawAction(Some(""), Some(period), Some(1)))
  }

  function ManyRegistered(period: nat, minor: nat, n: nat): seq<Action>
    requires minor > 0
  {
    seq(n, _ => Action("", period, period / minor, 1.0))
  }

  lemma ManyAccepted(period: nat, minor: nat)
    requires minor > 0 && period % minor == 0 && period > 0 && !Capped(period)
    ensures Accepts(Many(period, 700 * period), minor)
  {
    var actions := Many(period, 700 * period);
    var xs, u := ExactAll(actions), 1.0 / 1000.0 / period as real;
    SumSame(xs, u);
    assert u * period as real == 1.0 / 1000.0;
    assert Sum(xs) == 700.0 * (u * period as real);
    assert !AnyFaulty(actions, minor);
    AcceptsIff(actions, minor);
  }

  lemma UnitWork(regs: seq<Action>, slots: nat, j: nat, u: real)
    requires Intervals(regs) && j < |regs| && regs[j].cost == 1.0 && u == Attempts(regs[j].interval, slots) as real
    ensures WorkOver(regs, slots)[j] == u
  {
    UnitTimes(Attempts(regs[j].interval, slots));
  }

  lemma ManyCost(regs: seq<Action>, slots: nat, k: nat)
    requires Intervals(regs) && k > 0 && forall j :: 0 <= j < |regs| ==> regs[j].cost == 1.0 && regs[j].interval == k
    ensures Sum(WorkOver(regs, slots)) == (|regs| * Attempts(k, slots)) as real
  {
    var xs, u := WorkOver(regs, slots), Attempts(k, slots) as real;
    forall j | 0 <= j < |xs| ensures xs[j] == u {
      UnitWork(regs, slots, j, u);
    }
    SameWork(xs, Attempts(k, slots));
  }

  lemma SameWork(xs: seq<real>, n: nat)
    requires forall j :: 0 <= j < |xs| ==> xs[j] == n as real
    ensures Sum(xs) == (|xs| * n) as real
  {
    SumSame(xs, n as real);
    MulAsReal(|xs|, n);
  }

  lemma ManyFits(periods: seq<nat>, minor: nat, slots: nat, i: nat)
    requires Laid(periods, minor) && i < |periods| && !Capped(periods[i]) && FitsAllActions(periods, minor, slots)
    ensures slots % (periods[i] / minor) == 0
  {
    var p := periods[i];
    var actions, regs := Many(p, 700 * p), ManyRegistered(p, minor, 700 * p);
    var schedule := Table(regs, slots);
    ManyAccepted(p, minor);
    ManyCost(regs, slots, p / minor);
    CostByAction(schedule, regs);
    assert Deployed(actions, regs, schedule, minor, slots) && PeriodsIn(actions, periods);
    Quotient(minor, p);
    FullLoadFitsIff(schedule, p, minor, slots, p / minor, Attempts(p / minor, slots));
  }

  /** The same for any number of actions at each period, and without exception: acceptance bounds the table if and only
      if the intervals of all periods at which an action can cost something divide the number of slots. */
  lemma FitsAllActionsIff(periods: seq<nat>, minor: nat, slots: nat)
    requires Laid(periods, minor)
    ensures FitsAllActions(periods, minor, slots) <==> UncappedDivide(periods, minor, slots)
  {
    if UncappedDivide(periods, minor, slots) {
      forall actions, regs, schedule |
        Deployed(actions, regs, schedule, minor, slots) && PeriodsIn(actions, periods)
        ensures Fits(schedule, minor, slots)
      {
        DeployedFits(periods, minor, slots, actions, regs, schedule);
      }
    }
    if FitsAllActions(periods, minor, slots) {
      forall i | 0 <= i < |periods| && !Capped(periods[i]) ensures slots % (periods[i] / minor) == 0 {
        ManyFits(periods, minor, slots, i);
      }
    }
  }

  /** For the calculated cycle and actions of its own periods: acceptance bounds the table if the true least common
      multiple of the periods fits 32 bits; if an action can cost something at each of them, only then. */
  lemma CalculatedFitsIff(ps: seq<nat>, minor: nat, slots: nat)
    requires Periods(ps) && MajorOf(ps).Ok? && minor == GcdAll(ps) > 0 && slots == MajorOf(ps).value / minor
    ensures LcmAll(ps) < U32 ==> FitsAllActions(ps, minor, slots)
    ensures slots > 0 && (forall i :: 0 <= i < |ps| ==> !Capped(ps[i])) ==>
              (FitsAllActions(ps, minor, slots) <==> LcmAll(ps) < U32)
  {
    IntervalsDivideIff(ps);
    FitsAllActionsIff(ps, minor, slots);
  }

  // ----- the budget test in 32 bits -----

  /** Whether an action exceeds its own period, as the test should say it. */
  predicate OverBudget(a: RawAction)
    requires a.Complete()
  {
    a.wcet.value > a.period.value * 1000
  }

  /** The test on one action is right exactly when its cost does not lie between the wrapped and the true budget. */
  lemma BudgetTestIff(a: RawAction, minor: nat)
    requires minor > 0 && a.Complete() && a.period.value % minor == 0
    ensures var wrapped, budget := a.period.value * 1000 % U32, a.period.value * 1000;
            (a.Faulty(minor) <==> OverBudget(a)) <==> !(wrapped < a.wcet.value <= budget)
    ensures OverBudget(a) ==> a.Faulty(minor)
  {
    ModLe(a.period.value * 1000);
  }

  lemma ModLe(n: nat)
    ensures n % U32 <= n
  {}

  /** The test lets every 32-bit cost within the budget pass if and only if the budget fits 32 bits, that is up to
      a period of 4294967 ms. */
  lemma BudgetRespectedIff(name: string, period: nat, minor: nat)
    requires minor > 0 && period % minor == 0
    ensures (forall w: nat :: w < U32 && w <= period * 1000 ==> !RawAction(Some(name), Some(period), Some(w)).Faulty(minor))
       <==> period * 1000 < U32
  {
    if period * 1000 >= U32 {
      var w := U32 - 1;
      var a := RawAction(Some(name), Some(period), Some(w));
      WrappedBudget(period);
      assert period * 1000 % U32 < w;
      assert a.Faulty(minor);
    }
  }

  /** A budget in microseconds is a multiple of eight, so it never wraps to 2^32 - 1. */
  lemma WrappedBudget(period: nat)
    ensures period * 1000 % U32 < U32 - 1
  {
    var q := period * 1000 / U32;
    assert period * 1000 % U32 == 8 * (125 * period - 0x2000_0000 * q);
  }
}
