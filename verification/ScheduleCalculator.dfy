/** ScheduleCalculator: minor cycle (gcd), major cycle (lcm) and slot count from a list of periods,
    in 32-bit arithmetic. */
module ScheduleCalculator {
  import opened Common
  import opened Divisibility

  const MAX_MAJOR_CYCLE_MS: nat := 1000

  datatype Params = Params(minor: nat, major: nat, slots: nat)

  datatype Result<+T> = Ok(value: T) | Err(reason: string)

  predicate Period(p: nat) { 0 < p < U32 }

  predicate Periods(ps: seq<nat>) {
    ps != [] && forall i :: 0 <= i < |ps| ==> Period(ps[i])
  }

  // ----- what the parameters should be -----

  function GcdAll(ps: seq<nat>): nat
    requires ps != []
  {
    if |ps| == 1 then ps[0] else Gcd(GcdAll(ps[..|ps| - 1]), ps[|ps| - 1])
  }

  function LcmAll(ps: seq<nat>): (m: nat)
    requires Periods(ps)
    ensures m > 0
  {
    if |ps| == 1 then ps[0]
    else
      LcmMultiple(LcmAll(ps[..|ps| - 1]), ps[|ps| - 1]);
      Lcm(LcmAll(ps[..|ps| - 1]), ps[|ps| - 1])
  }

  ghost predicate DividesEach(d: nat, ps: seq<nat>) {
    forall i :: 0 <= i < |ps| ==> Divides(d, ps[i])
  }

  ghost predicate MultipleOfEach(m: nat, ps: seq<nat>) {
    forall i :: 0 <= i < |ps| ==> Divides(ps[i], m)
  }

  lemma DividesEachTrans(d: nat, e: nat, ps: seq<nat>)
    requires Divides(d, e) && DividesEach(e, ps)
    ensures DividesEach(d, ps)
  {
    forall i | 0 <= i < |ps| ensures Divides(d, ps[i]) {
      DividesTrans(d, e, ps[i]);
    }
  }

  lemma MultipleOfEachTrans(m: nat, n: nat, ps: seq<nat>)
    requires MultipleOfEach(m, ps) && Divides(m, n)
    ensures MultipleOfEach(n, ps)
  {
    forall i | 0 <= i < |ps| ensures Divides(ps[i], n) {
      DividesTrans(ps[i], m, n);
    }
  }

  lemma EachSnoc(d: nat, m: nat, ps: seq<nat>)
    requires ps != []
    ensures DividesEach(d, ps) <==> DividesEach(d, ps[..|ps| - 1]) && Divides(d, ps[|ps| - 1])
    ensures MultipleOfEach(m, ps) <==> MultipleOfEach(m, ps[..|ps| - 1]) && Divides(ps[|ps| - 1], m)
  {
    var init := ps[..|ps| - 1];
    assert forall i :: 0 <= i < |init| ==> init[i] == ps[i];
  }

  /** `GcdAll` is the greatest common divisor: it divides every period, and every common divisor divides it. */
  lemma {:induction false} GcdAllMeaning(ps: seq<nat>, d: nat)
    requires Periods(ps)
    ensures GcdAll(ps) > 0 && DividesEach(GcdAll(ps), ps)
    ensures DividesEach(d, ps) ==> Divides(d, GcdAll(ps))
  {
    if |ps| == 1 {
      DividesMul(ps[0], 1);
    } else {
      var init, last := ps[..|ps| - 1], ps[|ps| - 1];
      var h, g := GcdAll(init), GcdAll(ps);
      GcdAllMeaning(init, d);
      GcdDivides(h, last);
      DividesEachTrans(g, h, init);
      EachSnoc(g, 0, ps);
      EachSnoc(d, 0, ps);
      if DividesEach(d, ps) {
        GcdGreatest(d, h, last);
      }
    }
  }

  /** `LcmAll` is the least common multiple: every period divides it, and it divides every common multiple. */
  lemma {:induction false} LcmAllMeaning(ps: seq<nat>, m: nat)
    requires Periods(ps)
    ensures MultipleOfEach(LcmAll(ps), ps)
    ensures MultipleOfEach(m, ps) ==> Divides(LcmAll(ps), m)
  {
    if |ps| == 1 {
      DividesMul(ps[0], 1);
    } else {
      var init, last := ps[..|ps| - 1], ps[|ps| - 1];
      var h, l := LcmAll(init), LcmAll(ps);
      LcmAllMeaning(init, m);
      LcmMultiple(h, last);
      MultipleOfEachTrans(h, l, init);
      EachSnoc(0, l, ps);
      EachSnoc(0, m, ps);
      if MultipleOfEach(m, ps) {
        LcmLeast(h, last, m);
      }
    }
  }

  // ----- what the code computes -----

  /** lcm as computed: the product wraps. */
  function Lcm32(a: nat, b: nat): nat {
    if a == 0 || b == 0 then 0 else Lcm(a, b) % U32
  }

  /** The major-cycle loop: each new lcm is checked against the limit, the first period is not. */
  function MajorOf(ps: seq<nat>): Result<nat>
    requires ps != []
  {
    if |ps| == 1 then Ok(ps[0])
    else match MajorOf(ps[..|ps| - 1])
      case Err(e) => Err(e)
      case Ok(m) =>
        var l := Lcm32(m, ps[|ps| - 1]);
        if l > MAX_MAJOR_CYCLE_MS then Err("Major cycle exceeds maximum allowed value") else Ok(l)
  }

  method ComputeGcd(x: nat, y: nat) returns (g: nat)
    ensures g == Gcd(x, y)
  {
    var a, b := x, y;
    while b != 0
      invariant Gcd(a, b) == Gcd(x, y)
      decreases b
    {
      a, b := b, a % b;
    }
    g := a;
  }

  method ComputeLcm(a: nat, b: nat) returns (l: nat)
    ensures l == Lcm32(a, b)
  {
    if a == 0 || b == 0 {
      return 0;
    }
    var g := ComputeGcd(a, b);
    GcdDivides(a, b);
    l := a / g * b % U32;
  }

  method MinorCycle(ps: seq<nat>) returns (minor: nat)
    requires ps != []
    ensures minor == GcdAll(ps)
  {
    minor := ps[0];
    for i := 1 to |ps|
      invariant minor == GcdAll(ps[..i])
    {
      assert ps[..i + 1][..i] == ps[..i];
      minor := ComputeGcd(minor, ps[i]);
    }
    assert ps[..|ps|] == ps;
  }

  method MajorCycle(ps: seq<nat>) returns (major: Result<nat>)
    requires ps != []
    ensures major == MajorOf(ps)
  {
    var m := ps[0];
    for i := 1 to |ps|
      invariant MajorOf(ps[..i]) == Ok(m)
    {
      assert ps[..i + 1][..i] == ps[..i];
      m := ComputeLcm(m, ps[i]);
      if m > MAX_MAJOR_CYCLE_MS {
        FailsForever(ps, i + 1);
        return Err("Major cycle exceeds maximum allowed value");
      }
    }
    assert ps[..|ps|] == ps;
    major := Ok(m);
  }

  method HasZero(ps: seq<nat>) returns (zero: bool)
    ensures zero <==> exists i :: 0 <= i < |ps| && ps[i] == 0
  {
    for i := 0 to |ps|
      invariant forall j :: 0 <= j < i ==> ps[j] > 0
    {
      if ps[i] == 0 {
        return true;
      }
    }
    return false;
  }

  method Calculate(ps: seq<nat>) returns (r: Result<Params>)
    requires forall i :: 0 <= i < |ps| ==> ps[i] < U32
    ensures r.Ok? <==> Periods(ps) && MajorOf(ps).Ok?
    ensures r.Ok? ==> GcdAll(ps) > 0
    ensures r.Ok? ==>
              r.value == Params(GcdAll(ps), MajorOf(ps).value, MajorOf(ps).value / GcdAll(ps))
  {
    if ps == [] {
      return Err("Period list cannot be empty");
    }
    var zero := HasZero(ps);
    if zero {
      return Err("Period cannot be zero");
    }
    GcdAllMeaning(ps, 1);
    var minor := MinorCycle(ps);
    var major := MajorCycle(ps);
    match major
    case Err(e) => r := Err(e);
    case Ok(m) => r := Ok(Params(minor, m, m / minor));
  }

  lemma {:induction false} FailsForever(ps: seq<nat>, k: nat)
    requires 0 < k <= |ps| && MajorOf(ps[..k]).Err?
    ensures MajorOf(ps) == MajorOf(ps[..k])
    decreases |ps|
  {
    if k == |ps| {
      assert ps[..k] == ps;
    } else {
      assert ps[..|ps| - 1][..k] == ps[..k];
      FailsForever(ps[..|ps| - 1], k);
    }
  }

  lemma LcmAllPrefix(ps: seq<nat>)
    requires Periods(ps) && |ps| > 1
    ensures LcmAll(ps[..|ps| - 1]) <= LcmAll(ps)
  {
    var init := ps[..|ps| - 1];
    LcmMultiple(LcmAll(init), ps[|ps| - 1]);
    DividesLe(LcmAll(init), LcmAll(ps));
  }

  /** As long as the true least common multiple fits 32 bits, the loop computes it, and rejects exactly
      those above the limit; a single period is never rejected. */
  lemma {:induction false} MajorWithoutOverflow(ps: seq<nat>)
    requires Periods(ps) && LcmAll(ps) < U32
    ensures MajorOf(ps) == Ok(LcmAll(ps)) || (MajorOf(ps).Err? && |ps| > 1 && LcmAll(ps) > MAX_MAJOR_CYCLE_MS)
    ensures |ps| > 1 && LcmAll(ps) > MAX_MAJOR_CYCLE_MS ==> MajorOf(ps).Err?
  {
    if |ps| > 1 {
      LcmAllPrefix(ps);
      MajorWithoutOverflow(ps[..|ps| - 1]);
      LcmFits(LcmAll(ps[..|ps| - 1]), ps[|ps| - 1]);
    }
  }

  lemma LcmFits(a: nat, b: nat)
    requires a > 0 && b > 0 && Lcm(a, b) < U32
    ensures Lcm32(a, b) == Lcm(a, b)
  {}

  lemma U32IsPow2()
    ensures Pow2(32) == U32
  {
    assert Pow2(8) == 256;
    assert Pow2(16) == 65536;
    assert Pow2(24) == 16777216;
  }

  /** A wrapped lcm is wrong but never zero: no 32-bit number contributes a factor 2^32. */
  lemma Lcm32Positive(a: nat, b: nat)
    requires Period(a) && Period(b)
    ensures Period(Lcm32(a, b))
  {
    if Lcm32(a, b) == 0 {
      U32IsPow2();
      LcmMultiple(a, b);
      PowerOfTwoInLcm(32, a, b);
      if Divides(U32, a) {
        DividesLe(U32, a);
      } else {
        DividesLe(U32, b);
      }
      assert false;
    }
  }

  lemma {:induction false} MajorFits(ps: seq<nat>)
    requires Periods(ps) && MajorOf(ps).Ok?
    ensures Period(MajorOf(ps).value)
  {
    if |ps| > 1 {
      MajorFits(ps[..|ps| - 1]);
      Lcm32Positive(MajorOf(ps[..|ps| - 1]).value, ps[|ps| - 1]);
    }
  }

  /** Exactly when an accepted major cycle is right: it is a multiple of every period if and only if the
      true least common multiple fits 32 bits, and then it is that least common multiple. */
  lemma MajorRightIff(ps: seq<nat>)
    requires Periods(ps) && MajorOf(ps).Ok?
    ensures MajorOf(ps).value > 0
    ensures MultipleOfEach(MajorOf(ps).value, ps) <==> LcmAll(ps) < U32
    ensures LcmAll(ps) < U32 ==> MajorOf(ps).value == LcmAll(ps)
  {
    var m := MajorOf(ps).value;
    MajorFits(ps);
    LcmAllMeaning(ps, m);
    if LcmAll(ps) < U32 {
      MajorWithoutOverflow(ps);
    } else if MultipleOfEach(m, ps) {
      DividesLe(LcmAll(ps), m);
    }
  }

  /** Two periods whose lcm wraps to 2: the schedule is accepted, and period 3 does not divide its major cycle. */
  lemma OverflowAccepted()
    ensures MajorOf([3, 1431655766]) == Ok(2) && !Divides(3, 2)
    ensures Periods([3, 1431655766])
  {
    var ps := [3, 1431655766];
    assert ps[..1] == [3];
    assert Gcd(3, 1431655766) == Gcd(1431655766, 3) == Gcd(3, 2) == Gcd(2, 1) == Gcd(1, 0) == 1;
    assert Lcm(3, 1431655766) == 3 * 1431655766;
    assert Lcm32(3, 1431655766) == 2;
  }

  /** Exactly when accepted periods leave the executive without a slot: when the wrapped major cycle is shorter than
      the minor one, which takes a true multiple beyond 32 bits. */
  lemma NoSlotsIff(ps: seq<nat>)
    requires Periods(ps) && MajorOf(ps).Ok?
    ensures GcdAll(ps) > 0
    ensures MajorOf(ps).value / GcdAll(ps) == 0 <==> MajorOf(ps).value < GcdAll(ps)
    ensures MajorOf(ps).value < GcdAll(ps) ==> LcmAll(ps) >= U32
  {
    var minor, major := GcdAll(ps), MajorOf(ps).value;
    GcdAllMeaning(ps, 1);
    MajorRightIff(ps);
    QuotientZeroIff(major, minor);
    if LcmAll(ps) < U32 {
      assert Divides(minor, ps[0]) && Divides(ps[0], major);
      DividesTrans(minor, ps[0], major);
      DividesLe(minor, major);
    }
  }

  lemma QuotientZeroIff(n: nat, d: nat)
    requires d > 0
    ensures n / d == 0 <==> n < d
  {}

  /** Two accepted periods with a minor cycle of 3, a major cycle of 2 and no slot. */
  lemma NoSlots()
    ensures Periods([6, 2147483649])
    ensures MajorOf([6, 2147483649]) == Ok(2) && GcdAll([6, 2147483649]) == 3
  {
    var ps := [6, 2147483649];
    assert ps[..1] == [6];
    assert Gcd(6, 2147483649) == Gcd(2147483649, 6) == Gcd(6, 3) == Gcd(3, 0) == 3;
    assert Lcm(6, 2147483649) == 2 * 2147483649;
    assert Lcm32(6, 2147483649) == 2;
  }

  /** A single period is accepted, above the limit too. */
  lemma SinglePeriodUnchecked(p: nat)
    requires Period(p)
    ensures MajorOf([p]) == Ok(p) && LcmAll([p]) == p
  {}

  /** Exactly when acceptance enforces the limit on the true multiple: when that multiple fits 32 bits, and the list
      is not a single period above the limit. */
  lemma LimitEnforcedIff(ps: seq<nat>)
    requires Periods(ps) && MajorOf(ps).Ok?
    ensures LcmAll(ps) <= MAX_MAJOR_CYCLE_MS <==>
              LcmAll(ps) < U32 && (|ps| > 1 || ps[0] <= MAX_MAJOR_CYCLE_MS)
  {
    if LcmAll(ps) < U32 {
      MajorWithoutOverflow(ps);
    }
  }

  lemma MajorMultipleOfMinor(ps: seq<nat>)
    requires Periods(ps) && MajorOf(ps).Ok? && LcmAll(ps) < U32
    ensures GcdAll(ps) > 0 && MajorOf(ps).value / GcdAll(ps) * GcdAll(ps) == MajorOf(ps).value
  {
    GcdAllMeaning(ps, 1);
    MajorRightIff(ps);
    assert Divides(GcdAll(ps), ps[0]) && Divides(ps[0], MajorOf(ps).value);
    DividesTrans(GcdAll(ps), ps[0], MajorOf(ps).value);
    Quotient(GcdAll(ps), MajorOf(ps).value);
  }

  // ----- slots and intervals -----

  /** Every period is a positive number of minor cycles, its interval. */
  predicate Laid(periods: seq<nat>, minor: nat) {
    minor > 0 && forall i :: 0 <= i < |periods| ==> periods[i] % minor == 0 && periods[i] / minor > 0
  }

  ghost predicate IntervalsDivide(periods: seq<nat>, minor: nat, slots: nat)
    requires Laid(periods, minor)
  {
    forall i :: 0 <= i < |periods| ==> slots % (periods[i] / minor) == 0
  }

  lemma DividesScaled(minor: nat, k: nat, slots: nat)
    requires minor > 0 && k > 0
    ensures slots % k == 0 <==> Divides(k * minor, slots * minor)
  {
    var d := k * minor;
    if slots % k == 0 {
      Quotient(k, slots);
      assert slots * minor == d * (slots / k) by { assert (k * (slots / k)) * minor == (k * minor) * (slots / k); }
      DividesMul(d, slots / k);
    }
    if Divides(d, slots * minor) {
      var q := slots * minor / d;
      Quotient(d, slots * minor);
      assert slots * minor == k * minor * q;
      CancelRight(slots, k, q, minor);
      DividesMul(k, q);
    }
  }

  lemma IntervalsDivideMeaning(periods: seq<nat>, minor: nat, slots: nat)
    requires Laid(periods, minor)
    ensures IntervalsDivide(periods, minor, slots) <==> MultipleOfEach(slots * minor, periods)
  {
    forall i | 0 <= i < |periods|
      ensures slots % (periods[i] / minor) == 0 <==> Divides(periods[i], slots * minor)
    {
      Quotient(minor, periods[i]);
      DividesScaled(minor, periods[i] / minor, slots);
    }
  }

  lemma CalculatedLaid(ps: seq<nat>)
    requires Periods(ps)
    ensures Laid(ps, GcdAll(ps))
  {
    GcdAllMeaning(ps, 1);
    forall i | 0 <= i < |ps| ensures ps[i] % GcdAll(ps) == 0 && ps[i] / GcdAll(ps) > 0 {
      assert Divides(GcdAll(ps), ps[i]);
      DividesLe(GcdAll(ps), ps[i]);
      QuotientZeroIff(ps[i], GcdAll(ps));
    }
  }

  /** One turn of the slots, a multiple of the minor cycle, against the list of periods. */
  lemma TurnRightIff(ps: seq<nat>, turn: nat)
    requires Periods(ps) && MajorOf(ps).Ok? && GcdAll(ps) > 0
    requires turn == MajorOf(ps).value / GcdAll(ps) * GcdAll(ps) && turn > 0
    ensures MultipleOfEach(turn, ps) <==> LcmAll(ps) < U32
  {
    if LcmAll(ps) < U32 {
      MajorMultipleOfMinor(ps);
      MajorRightIff(ps);
    } else if MultipleOfEach(turn, ps) {
      LcmAllMeaning(ps, turn);
      DividesLe(LcmAll(ps), turn);
      MajorFits(ps);
      DivMulLe(MajorOf(ps).value, GcdAll(ps));
      assert false;
    }
  }

  lemma DivMulLe(n: nat, d: nat)
    requires d > 0
    ensures n / d * d <= n
  {}

  /** Of accepted periods that leave a slot, every interval divides the number of slots if and only if the true
      multiple fits 32 bits. */
  lemma IntervalsDivideIff(ps: seq<nat>)
    requires Periods(ps) && MajorOf(ps).Ok?
    ensures Laid(ps, GcdAll(ps))
    ensures var slots := MajorOf(ps).value / GcdAll(ps);
            && (LcmAll(ps) < U32 ==> slots > 0)
            && (slots > 0 ==> (IntervalsDivide(ps, GcdAll(ps), slots) <==> LcmAll(ps) < U32))
  {
    CalculatedLaid(ps);
    NoSlotsIff(ps);
    var minor, slots := GcdAll(ps), MajorOf(ps).value / GcdAll(ps);
    if slots > 0 {
      SlotsDivideIff(ps, minor, slots, slots * minor);
    }
  }

  lemma SlotsDivideIff(ps: seq<nat>, minor: nat, slots: nat, turn: nat)
    requires Periods(ps) && MajorOf(ps).Ok? && Laid(ps, minor)
    requires minor == GcdAll(ps) && slots == MajorOf(ps).value / minor && slots > 0 && turn == slots * minor
    ensures IntervalsDivide(ps, minor, slots) <==> LcmAll(ps) < U32
  {
    IntervalsDivideMeaning(ps, minor, slots);
    PositiveProduct(slots, minor);
    TurnRightIff(ps, turn);
  }

  lemma PositiveProduct(a: nat, b: nat)
    requires a > 0 && b > 0
    ensures a * b > 0
  {}
}
