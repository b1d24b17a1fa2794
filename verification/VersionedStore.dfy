/** DataStore's versioned access: the value and its version live in two maps with separate locks. A writer
    stores the value, releases that lock, and only then increments the version; a reader keeps its read lock
    on the value while it loads the version. Values are integers; only their identity matters. */
module VersionedStore {
  import opened Common

  datatype Versioned = Versioned(value: int, version: nat)

  // ----- one caller at a time -----

  class DataStore {
    var data: map<string, int>
    var versions: map<string, nat>
    ghost var writes: map<string, seq<int>>

    /** The version counts the writes, and the value is the last of them. */
    ghost predicate Valid()
      reads this
    {
      && data.Keys == versions.Keys == writes.Keys
      && forall k :: k in writes ==>
           writes[k] != [] && data[k] == writes[k][|writes[k]| - 1] && versions[k] == |writes[k]|
    }

    constructor ()
      ensures Valid() && writes == map[]
    {
      data, versions, writes := map[], map[], map[];
    }

    method SetVersioned(id: string, value: int)
      requires Valid()
      modifies this
      ensures Valid()
      ensures writes == old(writes)[id := (if id in old(writes) then old(writes[id]) else []) + [value]]
    {
      data := data[id := value];
      if id !in versions {
        versions := versions[id := 1];
      } else {
        versions := versions[id := versions[id] + 1];
      }
      writes := writes[id := (if id in writes then writes[id] else []) + [value]];
    }

    /** A missing key is an error. */
    method GetVersioned(id: string) returns (r: Option<Versioned>)
      requires Valid()
      ensures r == if id in writes then Some(Versioned(writes[id][|writes[id]| - 1], |writes[id]|)) else None
    {
      if id !in data {
        return None;
      }
      var version := if id in versions then versions[id] else 0;
      return Some(Versioned(data[id], version));
    }
  }

  // ----- one key, concurrent callers -----

  /** `Locked`: holds the read lock and has copied the value of write `n`. `Done`: has also loaded the version,
      while `inflight` writers were between their two steps, and released the lock. `born` is the number of
      writes stored, `seen` the version, when the call began. */
  datatype Reader =
    | Locked(n: nat, value: int, born: nat, seen: nat)
    | Done(n: nat, value: int, version: nat, inflight: nat, born: nat, seen: nat)

  /** `stores` lists the values stored, in order; `inflight` writers have stored but not incremented. */
  datatype State = State(stores: seq<int>, version: Option<nat>, inflight: nat, readers: map<nat, Reader>) {
    function Version(): nat { if version.Some? then version.value else 0 }
  }

  datatype Event = Store(value: int) | Increment | Lock(id: nat) | LoadVersion(id: nat)

  const INITIAL := State([], None, 0, map[])

  /** A store needs the write lock, so no reader may hold the read lock; at most `writers` calls of
      setVersioned are in progress. A read of a key never stored fails and is not an event. */
  predicate Enabled(s: State, e: Event, writers: nat) {
    match e
    case Store(_) => s.inflight < writers && forall id :: id in s.readers ==> !s.readers[id].Locked?
    case Increment => s.inflight > 0
    case Lock(id) => s.stores != [] && (id in s.readers ==> s.readers[id].Done?)
    case LoadVersion(id) => id in s.readers && s.readers[id].Locked?
  }

  function Next(s: State, e: Event, writers: nat): State
    requires Enabled(s, e, writers)
  {
    match e
    case Store(v) => s.(stores := s.stores + [v], inflight := s.inflight + 1)
    case Increment =>
      s.(version := if s.version.None? then Some(1) else Some(s.version.value + 1), inflight := s.inflight - 1)
    case Lock(id) =>
      var n := |s.stores|;
      s.(readers := s.readers[id := Locked(n, s.stores[n - 1], n, s.Version())])
    case LoadVersion(id) =>
      var r := s.readers[id];
      s.(readers := s.readers[id := Done(r.n, r.value, s.Version(), s.inflight, r.born, r.seen)])
  }

  ghost predicate Steps(s: State, es: seq<Event>, writers: nat, t: State)
    decreases es
  {
    if es == [] then s == t
    else Enabled(s, es[0], writers) && Steps(Next(s, es[0], writers), es[1..], writers, t)
  }

  ghost predicate ReaderInv(r: Reader, s: State, writers: nat) {
    && 0 < r.n <= |s.stores| && r.value == s.stores[r.n - 1]
    && r.born <= r.n && r.seen <= s.Version()
    && (r.Locked? ==> r.n == |s.stores|)
    && (r.Done? ==> r.n == r.version + r.inflight && r.inflight <= writers && r.seen <= r.version <= s.Version())
  }

  ghost predicate Inv(s: State, writers: nat) {
    && |s.stores| == s.Version() + s.inflight
    && s.inflight <= writers
    && forall id :: id in s.readers ==> ReaderInv(s.readers[id], s, writers)
  }

  lemma StepKeepsInv(s: State, e: Event, writers: nat)
    requires Inv(s, writers) && Enabled(s, e, writers)
    ensures Inv(Next(s, e, writers), writers)
    ensures s.Version() <= Next(s, e, writers).Version() && |s.stores| <= |Next(s, e, writers).stores|
  {
    var t := Next(s, e, writers);
    forall id | id in t.readers
      ensures ReaderInv(t.readers[id], t, writers)
    {
      if id in s.readers {
        assert ReaderInv(s.readers[id], s, writers);
      }
    }
  }

  lemma {:induction false} RunKeepsInv(s: State, es: seq<Event>, writers: nat, t: State)
    requires Inv(s, writers) && Steps(s, es, writers, t)
    ensures Inv(t, writers)
    ensures s.Version() <= t.Version() && |s.stores| <= |t.stores|
    decreases es
  {
    if es != [] {
      StepKeepsInv(s, es[0], writers);
      RunKeepsInv(Next(s, es[0], writers), es[1..], writers, t);
    }
  }

  ghost predicate Reachable(writers: nat, t: State) {
    exists es :: Steps(INITIAL, es, writers, t)
  }

  lemma ReachableInv(writers: nat, t: State)
    requires Reachable(writers, t)
    ensures Inv(t, writers)
  {
    var es :| Steps(INITIAL, es, writers, t);
    RunKeepsInv(INITIAL, es, writers, t);
  }

  /** In every interleaving a read that returns version v returns the whole value of some write n with
      v <= n <= v + p, where p bounds the concurrent writers; more exactly, n exceeds v by the writers that
      were between their two steps when the version was loaded. */
  lemma ReadWithinWriters(writers: nat, t: State, id: nat)
    requires Reachable(writers, t) && id in t.readers && t.readers[id].Done?
    ensures var r := t.readers[id];
            && 0 < r.n <= |t.stores| && r.value == t.stores[r.n - 1]
            && r.n == r.version + r.inflight
            && r.version <= r.n <= r.version + writers
  {
    ReachableInv(writers, t);
    assert ReaderInv(t.readers[id], t, writers);
  }

  /** A read answers: from every reachable state in which something is stored, a reader that is not in the middle of a
      call gets, left alone, the value stored last and the current version in two steps. */
  lemma ReadAnswers(writers: nat, s: State, id: nat) returns (t: State)
    requires Reachable(writers, s) && s.stores != [] && (id in s.readers ==> s.readers[id].Done?)
    ensures Steps(s, [Lock(id), LoadVersion(id)], writers, t)
    ensures id in t.readers && t.readers[id].Done?
    ensures t.readers[id].value == s.stores[|s.stores| - 1] && t.readers[id].n == |s.stores|
    ensures t.readers[id].version == s.Version() && t.readers[id].inflight == s.inflight
    ensures s.inflight == 0 ==> t.readers[id].version == |s.stores|
  {
    ReachableInv(writers, s);
    var s1 := Next(s, Lock(id), writers);
    t := Next(s1, LoadVersion(id), writers);
    assert [Lock(id), LoadVersion(id)][1..] == [LoadVersion(id)];
    assert Steps(t, [], writers, t);
    assert Steps(s1, [LoadVersion(id)], writers, t);
  }

  lemma {:induction false} SeenAfter(s: State, es: seq<Event>, writers: nat, t: State, id: nat, n: nat, v: nat)
    requires Inv(s, writers) && Steps(s, es, writers, t) && n <= |s.stores| && v <= s.Version()
    requires id in s.readers && n <= s.readers[id].born && v <= s.readers[id].seen
    ensures id in t.readers && n <= t.readers[id].born && v <= t.readers[id].seen
    decreases es
  {
    if es != [] {
      StepKeepsInv(s, es[0], writers);
      SeenAfter(Next(s, es[0], writers), es[1..], writers, t, id, n, v);
    }
  }

  /** Successive reads never go back, neither in version nor in the write they return. */
  lemma ReadsMonotonic(
    writers: nat, s: State, id1: nat, id2: nat, es2: seq<Event>, t: State)
    requires Reachable(writers, s) && id1 in s.readers && s.readers[id1].Done?
    requires Enabled(s, Lock(id2), writers) && Steps(Next(s, Lock(id2), writers), es2, writers, t)
    requires id2 in t.readers && t.readers[id2].Done?
    ensures s.readers[id1].version <= t.readers[id2].version
    ensures s.readers[id1].n <= t.readers[id2].n
  {
    ReachableInv(writers, s);
    assert ReaderInv(s.readers[id1], s, writers);
    StepKeepsInv(s, Lock(id2), writers);
    RunKeepsInv(Next(s, Lock(id2), writers), es2, writers, t);
    SeenAfter(Next(s, Lock(id2), writers), es2, writers, t, id2, |s.stores|, s.Version());
    assert ReaderInv(t.readers[id2], t, writers);
  }

  /** What equal versions do and do not say. The two reads are at most p writes apart, and they returned the
      same write exactly when the same number of writers was between its two steps at both loads. */
  lemma EqualVersions(writers: nat, t: State, a: nat, b: nat)
    requires Reachable(writers, t)
    requires a in t.readers && t.readers[a].Done? && b in t.readers && t.readers[b].Done?
    requires t.readers[a].version == t.readers[b].version
    ensures t.readers[a].n <= t.readers[b].n + writers && t.readers[b].n <= t.readers[a].n + writers
    ensures t.readers[a].n == t.readers[b].n <==> t.readers[a].inflight == t.readers[b].inflight
  {
    ReadWithinWriters(writers, t, a);
    ReadWithinWriters(writers, t, b);
  }

  lemma {:induction false} StepsSnoc(s: State, es: seq<Event>, writers: nat, t: State, e: Event)
    requires Steps(s, es, writers, t) && Enabled(t, e, writers)
    ensures Steps(s, es + [e], writers, Next(t, e, writers))
    decreases es
  {
    if es == [] {
      assert [e][1..] == [];
    } else {
      assert (es + [e])[1..] == es[1..] + [e];
      StepsSnoc(Next(s, es[0], writers), es[1..], writers, t, e);
    }
  }

  lemma Extend(writers: nat, t: State, e: Event) returns (t': State)
    requires Reachable(writers, t) && Enabled(t, e, writers)
    ensures t' == Next(t, e, writers) && Reachable(writers, t')
  {
    var es :| Steps(INITIAL, es, writers, t);
    StepsSnoc(INITIAL, es, writers, t, e);
    t' := Next(t, e, writers);
  }

  /** With a single writer two reads can carry the same version and different values: the second runs after
      the next store and before its increment. */
  lemma EqualVersionsDifferentValues() returns (t: State)
    ensures Reachable(1, t)
    ensures 0 in t.readers && t.readers[0].Done? && 1 in t.readers && t.readers[1].Done?
    ensures t.readers[0].version == t.readers[1].version && t.readers[0].value != t.readers[1].value
  {
    assert Steps(INITIAL, [], 1, INITIAL);
    t := INITIAL;
    t := Extend(1, t, Store(10));
    t := Extend(1, t, Increment);
    t := Extend(1, t, Lock(0));
    t := Extend(1, t, LoadVersion(0));
    t := Extend(1, t, Store(20));
    t := Extend(1, t, Lock(1));
    t := Extend(1, t, LoadVersion(1));
  }
}
