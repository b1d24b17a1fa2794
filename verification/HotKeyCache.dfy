/** HotKeyCache: one value per registered key, guarded by the same seqlock, read with bounded retry.
    The slot already holds a value of the key's type. */
module HotKeyCache {
  import opened Common
  import opened Seqlock

  const MAX_READ_RETRIES: nat := 10

  /** A slot of `|first|` words and the values written to it since. */
  ghost predicate WrittenWhole(hist: seq<Program>, first: seq<Word>, values: seq<seq<Word>>) {
    && |hist| == |values|
    && forall i :: 0 <= i < |values| ==> |values[i]| == |first| && hist[i] == WordStores(values[i])
  }

  function Addresses(width: nat): seq<nat> {
    seq(width, i => i)
  }

  lemma {:induction false} LastValueStays(first: seq<Word>, hist: seq<Program>, values: seq<seq<Word>>)
    requires WrittenWhole(hist, first, values)
    ensures MemAfter(first, hist) == ([first] + values)[|values|]
  {
    if hist != [] {
      var last := |hist| - 1;
      LastValueStays(first, hist[..last], values[..last]);
      assert ([first] + values[..last])[last] == ([first] + values)[last];
      ApplyWords(MemAfter(first, hist[..last]), values[last]);
    }
  }

  /** In every interleaving a value returned by `get` is one of the values ever stored, whole: number n,
      for an n between the writes complete when the call began and those complete now. A call that
      returns nothing has made all ten attempts. */
  lemma GetReturnsWholeValue(first: seq<Word>, t: State, id: nat, values: seq<seq<Word>>) returns (n: nat)
    requires Reachable(first, t) && WrittenWhole(t.hist, first, values)
    requires id in t.readers
    requires t.readers[id].discipline == Restart(MAX_READ_RETRIES)
    requires t.readers[id].addrs == Addresses(|first|)
    requires t.readers[id].tick2 - t.readers[id].tick1 < U64
    ensures t.readers[id].pc.Exited? ==>
              t.readers[id].born <= n <= |values| && t.readers[id].temps == ([first] + values)[n]
    ensures t.readers[id].pc.GaveUp? ==> t.readers[id].attempts == MAX_READ_RETRIES
    ensures t.readers[id].attempts <= MAX_READ_RETRIES
  {
    RestartAlwaysSnapshots(first, t, id);
    n := 0;
    if t.readers[id].pc.Exited? {
      Snapshot(first, t, id);
      n := t.readers[id].tick1 / 2;
      LastValueStays(first, t.hist[..n], values[..n]);
      assert ([first] + values[..n])[n] == ([first] + values)[n];
    }
  }

  /** A `get` that no write disturbs returns the last value at its first attempt. */
  lemma GetAnswers(first: seq<Word>, t: State, call: Event, values: seq<seq<Word>>) returns (u: State)
    requires Reachable(first, t) && t.writer.Idle? && WrittenWhole(t.hist, first, values)
    requires call.Call? && Enabled(t, call) && call.discipline == Restart(MAX_READ_RETRIES)
    requires call.addrs == Addresses(|first|)
    ensures Steps(t, [call] + Alone(call.id, |first| + 3), u)
    ensures call.id in u.readers && u.readers[call.id].pc.Exited?
    ensures u.readers[call.id].temps == ([first] + values)[|values|]
  {
    u := CallAnswers(first, t, call);
    LastValueStays(first, t.hist, values);
    LastValueWidth(first, values);
    assert FetchAll(MemAfter(first, t.hist), Addresses(|first|)) == MemAfter(first, t.hist);
  }

  lemma LastValueWidth(first: seq<Word>, values: seq<seq<Word>>)
    requires forall i :: 0 <= i < |values| ==> |values[i]| == |first|
    ensures |([first] + values)[|values|]| == |first|
  {}

  /** A `get` returns nothing only if each of its ten attempts was disturbed: the counter was odd, or moved between the
      two loads, while the call lasted. */
  lemma NothingOnlyUnderWrites(first: seq<Word>, t: State, id: nat)
    requires Reachable(first, t) && id in t.readers && t.readers[id].discipline == Restart(MAX_READ_RETRIES)
    requires t.readers[id].pc.GaveUp?
    ensures |t.readers[id].missed| == MAX_READ_RETRIES
    ensures forall i :: 0 <= i < MAX_READ_RETRIES ==>
              Disturbed(t.readers[id].missed[i], 2 * t.readers[id].born, t.ticks)
  {
    OnlyWritesDisturb(first, t, id);
  }
}
