/** Histogram: observations are counted per bucket and exported cumulatively. */
module Histograms {
  import opened Common

  /** The order of doubles; NaN is not comparable. */
  predicate Le(a: Double, b: Double) {
    !a.NaN? && !b.NaN? && (a.NegInf? || b.PosInf? || (a.Fin? && b.Fin? && a.v <= b.v))
  }

  lemma LeOrder(a: Double, b: Double, c: Double)
    ensures Le(a, b) && Le(b, c) ==> Le(a, c)
    ensures !a.NaN? && !b.NaN? ==> Le(a, b) || Le(b, a)
  {}

  ghost predicate Ascending(bs: seq<Double>) {
    && (forall i :: 0 <= i < |bs| ==> !bs[i].NaN?)
    && (forall i, j :: 0 <= i < j < |bs| ==> Le(bs[i], bs[j]))
  }

  ghost predicate NoNaN(bs: seq<Double>) {
    forall i :: 0 <= i < |bs| ==> !bs[i].NaN?
  }

  function Insert(b: Double, bs: seq<Double>): seq<Double> {
    if bs == [] || Le(b, bs[0]) then [b] + bs else [bs[0]] + Insert(b, bs[1..])
  }

  function Sort(bs: seq<Double>): seq<Double> {
    if bs == [] then [] else Insert(bs[0], Sort(bs[1..]))
  }

  lemma {:induction false} InsertAscends(b: Double, bs: seq<Double>)
    requires !b.NaN? && Ascending(bs)
    ensures Ascending(Insert(b, bs)) && multiset(Insert(b, bs)) == multiset(bs) + multiset{b}
    decreases bs
  {
    if bs == [] {
    } else if Le(b, bs[0]) {
      forall i | 0 <= i < |bs| ensures Le(b, bs[i]) {
        LeOrder(b, bs[0], bs[i]);
      }
    } else {
      var rest := Insert(b, bs[1..]);
      InsertAscends(b, bs[1..]);
      assert bs == [bs[0]] + bs[1..];
      LeOrder(b, bs[0], bs[0]);
      forall i | 0 <= i < |rest| ensures Le(bs[0], rest[i]) {
        assert rest[i] in multiset(rest);
        assert rest[i] == b || rest[i] in bs[1..];
      }
    }
  }

  lemma {:induction false} SortAscends(bs: seq<Double>)
    requires NoNaN(bs)
    ensures Ascending(Sort(bs)) && multiset(Sort(bs)) == multiset(bs) && |Sort(bs)| == |bs|
    decreases bs
  {
    if bs != [] {
      SortAscends(bs[1..]);
      InsertAscends(bs[0], Sort(bs[1..]));
      assert bs == [bs[0]] + bs[1..];
      assert |Sort(bs)| == |multiset(Sort(bs))| == |multiset(bs)|;
    }
  }

  /** The bucket of a value: the first boundary it does not exceed; the first bucket for NaN; one past the last for
      the rest. */
  function Slot(bs: seq<Double>, v: Double): nat
    requires bs != []
  {
    if v.NaN? || Le(v, bs[0]) then 0 else if |bs| == 1 then 1 else Slot(bs[1..], v) + 1
  }

  predicate AtMost(v: Double, b: Double) { v.NaN? || Le(v, b) }

  lemma {:induction false} SlotMeaning(bs: seq<Double>, v: Double, i: nat)
    requires bs != [] && Ascending(bs) && i <= |bs|
    ensures Slot(bs, v) <= |bs|
    ensures i < |bs| ==> (Slot(bs, v) <= i <==> AtMost(v, bs[i]))
    decreases bs
  {
    if v.NaN? || Le(v, bs[0]) {
      if 0 < i < |bs| {
        LeOrder(v, bs[0], bs[i]);
      }
    } else if |bs| > 1 {
      SlotMeaning(bs[1..], v, if i == 0 then 0 else i - 1);
    }
  }

  /** The first boundary that a value does not exceed is its slot. */
  lemma SlotFound(bs: seq<Double>, v: Double, i: nat)
    requires bs != [] && Ascending(bs) && i <= |bs|
    requires forall j :: 0 <= j < i ==> !AtMost(v, bs[j])
    requires i < |bs| ==> AtMost(v, bs[i])
    ensures Slot(bs, v) == i
  {
    SlotMeaning(bs, v, i);
    if i > 0 {
      SlotMeaning(bs, v, i - 1);
    }
  }

  // ----- counting -----

  function InSlot(bs: seq<Double>, obs: seq<Double>, i: nat): nat
    requires bs != []
  {
    if obs == [] then 0 else InSlot(bs, obs[..|obs| - 1], i) + if Slot(bs, obs[|obs| - 1]) == i then 1 else 0
  }

  function UpToSlot(bs: seq<Double>, obs: seq<Double>, i: int): nat
    requires bs != []
  {
    if obs == [] then 0 else UpToSlot(bs, obs[..|obs| - 1], i) + if Slot(bs, obs[|obs| - 1]) <= i then 1 else 0
  }

  /** How many observations are at most b. */
  function CountLe(obs: seq<Double>, b: Double): nat {
    if obs == [] then 0 else CountLe(obs[..|obs| - 1], b) + if Le(obs[|obs| - 1], b) then 1 else 0
  }

  function CountNaN(obs: seq<Double>): nat {
    if obs == [] then 0 else CountNaN(obs[..|obs| - 1]) + if obs[|obs| - 1].NaN? then 1 else 0
  }

  lemma {:induction false} UpToSlotStep(bs: seq<Double>, obs: seq<Double>, i: nat)
    requires bs != []
    ensures UpToSlot(bs, obs, i) == UpToSlot(bs, obs, i - 1) + InSlot(bs, obs, i)
    decreases obs
  {
    if obs != [] {
      UpToSlotStep(bs, obs[..|obs| - 1], i);
    }
  }

  lemma {:induction false} UpToSlotBounds(bs: seq<Double>, obs: seq<Double>)
    requires bs != [] && Ascending(bs)
    ensures UpToSlot(bs, obs, -1) == 0 && UpToSlot(bs, obs, |bs|) == |obs|
    decreases obs
  {
    if obs != [] {
      UpToSlotBounds(bs, obs[..|obs| - 1]);
      SlotMeaning(bs, obs[|obs| - 1], 0);
    }
  }

  lemma {:induction false} UpToSlotCounts(bs: seq<Double>, obs: seq<Double>, i: nat)
    requires bs != [] && Ascending(bs) && i < |bs|
    ensures UpToSlot(bs, obs, i) == CountLe(obs, bs[i]) + CountNaN(obs)
    decreases obs
  {
    if obs != [] {
      UpToSlotCounts(bs, obs[..|obs| - 1], i);
      SlotMeaning(bs, obs[|obs| - 1], i);
    }
  }

  lemma {:induction false} CountNaNZeroIff(obs: seq<Double>)
    ensures CountNaN(obs) == 0 <==> NaN !in obs
    decreases obs
  {
    if obs != [] {
      CountNaNZeroIff(obs[..|obs| - 1]);
      assert obs == obs[..|obs| - 1] + [obs[|obs| - 1]];
    }
  }

  /** What is exported for a sequence of observations: the boundaries, then +Inf. */
  function Exported(bs: seq<Double>, obs: seq<Double>): seq<nat>
    requires bs != []
  {
    seq(|bs| + 1, i requires 0 <= i <= |bs| => UpToSlot(bs, obs, i))
  }

  /** A boundary's figure is the number of observations not above it exactly when no NaN was observed; +Inf is
      always the total. */
  lemma CumulativeRightIff(bs: seq<Double>, obs: seq<Double>, i: nat)
    requires bs != [] && Ascending(bs) && i < |bs|
    ensures Exported(bs, obs)[i] == CountLe(obs, bs[i]) <==> NaN !in obs
    ensures Exported(bs, obs)[|bs|] == |obs|
  {
    UpToSlotCounts(bs, obs, i);
    CountNaNZeroIff(obs);
    UpToSlotBounds(bs, obs);
  }

  class Histogram {
    var buckets: seq<Double>
    var counts: seq<nat>
    var count: nat
    ghost var observed: seq<Double>

    ghost predicate Valid()
      reads this
    {
      && buckets != [] && Ascending(buckets)
      && |counts| == |buckets| + 1
      && count == |observed|
      && forall i :: 0 <= i < |counts| ==> counts[i] == InSlot(buckets, observed, i)
    }

    /** The last boundary is read on every observation, so there must be one. */
    constructor (boundaries: seq<Double>)
      requires boundaries != [] && NoNaN(boundaries)
      ensures Valid() && observed == [] && multiset(buckets) == multiset(boundaries)
    {
      SortAscends(boundaries);
      buckets := Sort(boundaries);
      counts := seq(|boundaries| + 1, _ => 0);
      count, observed := 0, [];
    }

    method Observe(value: Double)
      requires Valid()
      modifies this
      ensures Valid() && buckets == old(buckets) && observed == old(observed) + [value]
    {
      count := count + 1;
      var slot, i := 0, 0;
      while i < |buckets|
        invariant 0 <= i <= |buckets| && slot == 0
        invariant forall j :: 0 <= j < i ==> !Le(value, buckets[j])
        invariant buckets == old(buckets) && counts == old(counts)
        invariant observed == old(observed) && count == |observed| + 1
      {
        if Le(value, buckets[i]) {
          slot := i;
          break;
        }
        i := i + 1;
      }
      var last := buckets[|buckets| - 1];
      if !value.NaN? && !Le(value, last) {
        slot := |buckets|;
      }
      LeOrder(value, buckets[0], last);
      SlotFound(buckets, value, slot);
      observed := observed + [value];
      assert observed[..|observed| - 1] == old(observed);
      counts := counts[slot := counts[slot] + 1];
    }

    method Export() returns (figures: seq<nat>)
      requires Valid()
      ensures figures == Exported(buckets, observed)
    {
      figures := [];
      var cumulative := 0;
      UpToSlotBounds(buckets, observed);
      for i := 0 to |buckets|
        invariant |figures| == i && cumulative == UpToSlot(buckets, observed, i - 1)
        invariant forall j :: 0 <= j < i ==> figures[j] == UpToSlot(buckets, observed, j)
      {
        UpToSlotStep(buckets, observed, i);
        cumulative := cumulative + counts[i];
        figures := figures + [cumulative];
      }
      UpToSlotStep(buckets, observed, |buckets|);
      cumulative := cumulative + counts[|counts| - 1];
      figures := figures + [cumulative];
    }
  }
}
