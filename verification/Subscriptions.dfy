/** ConnectionManager: which connection subscribed to which key, kept in both directions. */
module Subscriptions {

  datatype Connection = Connection(subscriptions: set<string>, lastActivity: int)

  type Connections = map<nat, Connection>
  type Index = map<string, set<nat>>

  /** What comes of a send: delivered, the socket is not open, or the send throws. */
  datatype Outcome = Delivered | NotOpen | Throws

  predicate Subscribed(cs: Connections, c: nat, key: string) {
    c in cs && key in cs[c].subscriptions
  }

  predicate Listed(index: Index, c: nat, key: string) {
    key in index && c in index[key]
  }

  /** The index is the exact inverse of the subscriptions and holds no key without subscribers. */
  ghost predicate Mirror(cs: Connections, index: Index) {
    && (forall c: nat, key :: Subscribed(cs, c, key) <==> Listed(index, c, key))
    && (forall key :: key in index ==> index[key] != {})
  }

  /** The index is determined by the subscriptions. */
  lemma IndexDetermined(cs: Connections, a: Index, b: Index)
    requires Mirror(cs, a) && Mirror(cs, b)
    ensures a == b
  {
    SameIndexKeys(cs, a, b);
    SameIndexKeys(cs, b, a);
    assert a.Keys == b.Keys;
    forall key | key in a ensures a[key] == b[key] {
      forall c ensures c in a[key] <==> c in b[key] {
        assert Listed(a, c, key) <==> Subscribed(cs, c, key);
        assert Listed(b, c, key) <==> Subscribed(cs, c, key);
      }
    }
  }

  lemma SameIndexKeys(cs: Connections, a: Index, b: Index)
    requires Mirror(cs, a) && Mirror(cs, b)
    ensures a.Keys <= b.Keys
  {
    forall key | key in a ensures key in b {
      var c :| c in a[key];
      assert Listed(a, c, key) && Subscribed(cs, c, key) && Listed(b, c, key);
    }
  }

  // ----- the operations on the subscriptions alone -----

  function WithKey(cs: Connections, c: nat, key: string, now: int): Connections {
    if c in cs then cs[c := Connection(cs[c].subscriptions + {key}, now)] else cs
  }

  function WithoutKey(cs: Connections, c: nat, key: string, now: int): Connections {
    if c in cs then cs[c := Connection(cs[c].subscriptions - {key}, now)] else cs
  }

  function Subscribers(cs: Connections, key: string): set<nat> {
    set c | c in cs && key in cs[c].subscriptions
  }

  /** Subscribers that cannot be reached are removed, the others have just been active. */
  function Notified(cs: Connections, key: string, outcome: nat -> Outcome, now: int): Connections {
    map c | c in cs && (key in cs[c].subscriptions ==> outcome(c) == Delivered) ::
      if key in cs[c].subscriptions then cs[c].(lastActivity := now) else cs[c]
  }

  /** What a notification leaves: everyone but the subscribers it did not reach, with their subscriptions, and with a new
      time of activity exactly those it reached. */
  ghost predicate LeftAfter(was: Connections, cs: Connections, key: string, outcome: nat -> Outcome, now: int) {
    && (forall c :: c in cs <==> c in was && ((c, key) in Pairs(was) ==> outcome(c) == Delivered))
    && forall c :: c in cs ==>
         && cs[c].subscriptions == was[c].subscriptions
         && cs[c].lastActivity == if (c, key) in Pairs(was) then now else was[c].lastActivity
  }

  lemma NotifiedMeans(cs: Connections, key: string, outcome: nat -> Outcome, now: int)
    ensures LeftAfter(cs, Notified(cs, key, outcome, now), key, outcome, now)
  {}

  function StillActive(cs: Connections, timeout: int, now: int): Connections {
    map c | c in cs && now - cs[c].lastActivity <= timeout :: cs[c]
  }

  // ----- the index follows -----

  function Listing(index: Index, c: nat, key: string): Index {
    index[key := (if key in index then index[key] else {}) + {c}]
  }

  function Unlisting(index: Index, c: nat, key: string): Index {
    if key !in index then index
    else if index[key] - {c} == {} then index - {key}
    else index[key := index[key] - {c}]
  }

  lemma SubscribeMirrors(cs: Connections, index: Index, c: nat, key: string, now: int)
    requires Mirror(cs, index) && c in cs
    ensures Mirror(WithKey(cs, c, key, now), Listing(index, c, key))
  {
    var cs2, index2 := WithKey(cs, c, key, now), Listing(index, c, key);
    forall d: nat, k ensures Subscribed(cs2, d, k) <==> Listed(index2, d, k) {
      assert Subscribed(cs, d, k) <==> Listed(index, d, k);
    }
  }

  lemma UnlistedPairs(index: Index, c: nat, key: string, d: nat, k: string)
    ensures Listed(Unlisting(index, c, key), d, k) <==> Listed(index, d, k) && !(d == c && k == key)
  {
    if k == key && key in index {
      assert d in index[key] - {c} <==> d in index[key] && d != c;
    }
  }

  lemma UnsubscribeMirrors(cs: Connections, index: Index, c: nat, key: string, now: int)
    requires Mirror(cs, index) && c in cs
    ensures Mirror(WithoutKey(cs, c, key, now), Unlisting(index, c, key))
  {
    var cs2, index2 := WithoutKey(cs, c, key, now), Unlisting(index, c, key);
    forall d: nat, k ensures Subscribed(cs2, d, k) <==> Listed(index2, d, k) {
      assert Subscribed(cs, d, k) <==> Listed(index, d, k);
      UnlistedPairs(index, c, key, d, k);
    }
  }

  /** A connection without subscriptions does not show in the index. */
  lemma BareConnectionMirrors(cs: Connections, cs2: Connections, index: Index, c: nat)
    requires Mirror(cs, index)
    requires c in cs ==> cs[c].subscriptions == {}
    requires c in cs2 ==> cs2[c].subscriptions == {}
    requires forall d: nat :: d != c ==>
               (d in cs <==> d in cs2) && (d in cs ==> cs[d].subscriptions == cs2[d].subscriptions)
    ensures Mirror(cs2, index)
  {
    forall d: nat, k ensures Subscribed(cs2, d, k) <==> Listed(index, d, k) {
      assert Subscribed(cs, d, k) <==> Listed(index, d, k);
      assert Subscribed(cs, d, k) <==> Subscribed(cs2, d, k);
    }
  }

  /** A change of activity times does not show in the index. */
  lemma TouchMirrors(cs: Connections, index: Index, c: nat, now: int)
    requires Mirror(cs, index) && c in cs
    ensures Mirror(cs[c := cs[c].(lastActivity := now)], index)
  {
    var cs2 := cs[c := cs[c].(lastActivity := now)];
    forall d: nat, k ensures Subscribed(cs2, d, k) <==> Listed(index, d, k) {
      assert Subscribed(cs, d, k) <==> Listed(index, d, k);
    }
  }

  lemma ListedAreSubscribers(cs: Connections, index: Index, key: string)
    requires Mirror(cs, index)
    ensures (if key in index then index[key] else {}) == Subscribers(cs, key)
  {
    forall c: nat ensures c in Subscribers(cs, key) <==> Listed(index, c, key) {
      assert Subscribed(cs, c, key) <==> Listed(index, c, key);
    }
  }

  // ----- counting pairs -----

  function Pairs(cs: Connections): set<(nat, string)> {
    set c, key | c in cs && key in cs[c].subscriptions :: (c, key)
  }

  function PairsByKey(index: Index): set<(nat, string)> {
    set key, c | key in index && c in index[key] :: (c, key)
  }

  /** Counted from either side there are the same subscriptions. */
  lemma SamePairs(cs: Connections, index: Index)
    requires Mirror(cs, index)
    ensures Pairs(cs) == PairsByKey(index)
  {
    forall c: nat, key ensures (c, key) in Pairs(cs) <==> (c, key) in PairsByKey(index) {
      assert Subscribed(cs, c, key) <==> Listed(index, c, key);
    }
  }

  function PairsOf(c: nat, keys: set<string>): set<(nat, string)> {
    set key | key in keys :: (c, key)
  }

  lemma {:induction false} PairsOfSize(c: nat, keys: set<string>)
    ensures |PairsOf(c, keys)| == |keys|
    decreases |keys|
  {
    if keys == {} {
      assert PairsOf(c, keys) == {};
    } else {
      var key :| key in keys;
      PairsOfSize(c, keys - {key});
      assert PairsOf(c, keys) == PairsOf(c, keys - {key}) + {(c, key)};
    }
  }

  function PairsAmong(cs: Connections, ids: set<nat>): set<(nat, string)> {
    set c, key | c in ids && c in cs && key in cs[c].subscriptions :: (c, key)
  }

  lemma PairsAmongMore(cs: Connections, ids: set<nat>, c: nat)
    requires c in cs && c !in ids
    ensures |PairsAmong(cs, ids + {c})| == |PairsAmong(cs, ids)| + |cs[c].subscriptions|
  {
    PairsOfSize(c, cs[c].subscriptions);
    assert PairsAmong(cs, ids + {c}) == PairsAmong(cs, ids) + PairsOf(c, cs[c].subscriptions);
    assert PairsAmong(cs, ids) !! PairsOf(c, cs[c].subscriptions);
  }

  // ----- notifying one subscriber after the other -----

  ghost predicate NotifiedSome(was: Connections, cs: Connections, done: set<nat>, outcome: nat -> Outcome, now: int) {
    && (forall c :: c in cs <==> c in was && (c in done ==> outcome(c) == Delivered))
    && (forall c :: c in cs ==> cs[c] == if c in done then was[c].(lastActivity := now) else was[c])
  }

  lemma NotifiedLeft(was: Connections, cs: Connections, key: string, done: set<nat>, outcome: nat -> Outcome, now: int)
    requires NotifiedSome(was, cs, done, outcome, now) && done <= Subscribers(was, key)
    ensures Subscribers(cs, key) - done == Subscribers(was, key) - done
  {}

  function SentOne(cs: Connections, c: nat, outcome: Outcome, now: int): Connections {
    if c in cs && outcome == Delivered then cs[c := cs[c].(lastActivity := now)] else cs - {c}
  }

  lemma NotifiedOne(was: Connections, cs: Connections, done: set<nat>, c: nat, outcome: nat -> Outcome, now: int)
    requires NotifiedSome(was, cs, done, outcome, now) && c in was && c !in done
    ensures NotifiedSome(was, SentOne(cs, c, outcome(c), now), done + {c}, outcome, now)
  {}

  lemma OneLess<T>(all: set<T>, done: set<T>, c: T)
    requires c in all - done
    ensures all - (done + {c}) == (all - done) - {c}
  {}

  lemma NotifiedAll(was: Connections, cs: Connections, key: string, done: set<nat>, outcome: nat -> Outcome, now: int)
    requires NotifiedSome(was, cs, done, outcome, now) && done <= Subscribers(was, key)
    requires Subscribers(was, key) - done == {}
    ensures cs == Notified(was, key, outcome, now) && done == Subscribers(was, key)
  {
    assert done == Subscribers(was, key) by {
      forall c | c in Subscribers(was, key) ensures c in done {
        assert c in done || c in Subscribers(was, key) - done;
      }
    }
  }

  /** Exactly the members of ids with a delivered message, each once. */
  ghost predicate Received(receivers: seq<nat>, ids: set<nat>, outcome: nat -> Outcome) {
    && (forall i, j :: 0 <= i < j < |receivers| ==> receivers[i] != receivers[j])
    && (forall c :: c in receivers <==> c in ids && outcome(c) == Delivered)
  }

  lemma ReceivedOne(receivers: seq<nat>, done: set<nat>, c: nat, outcome: nat -> Outcome)
    requires Received(receivers, done, outcome) && c !in done
    ensures Received(if outcome(c) == Delivered then receivers + [c] else receivers, done + {c}, outcome)
  {}

  ghost predicate CleanedSome(was: Connections, cs: Connections, done: set<nat>, timeout: int, now: int) {
    && (forall c :: c in cs <==> c in was && (c in done ==> now - was[c].lastActivity <= timeout))
    && (forall c :: c in cs ==> cs[c] == was[c])
  }

  lemma CleanedOne(was: Connections, cs: Connections, done: set<nat>, c: nat, timeout: int, now: int)
    requires CleanedSome(was, cs, done, timeout, now) && c in was && c !in done
    ensures CleanedSome(was, if now - cs[c].lastActivity > timeout then cs - {c} else cs, done + {c}, timeout, now)
    ensures |cs - {c}| == |cs| - 1
  {
    assert cs.Keys == (cs - {c}).Keys + {c};
  }

  lemma CleanedLeft(was: Connections, cs: Connections, done: set<nat>, timeout: int, now: int)
    requires CleanedSome(was, cs, done, timeout, now)
    ensures cs.Keys - done == was.Keys - done
    ensures was.Keys - done == {} ==> cs == StillActive(was, timeout, now)
  {
    if was.Keys - done == {} {
      assert forall c :: c in was ==> c in done || c in was.Keys - done;
    }
  }

  class ConnectionManager {
    var connections: Connections
    var keySubscriptions: Index
    var counter: nat

    ghost predicate Valid()
      reads this
    {
      && Mirror(connections, keySubscriptions)
      && forall c :: c in connections ==> c <= counter
    }

    constructor ()
      ensures Valid() && connections == map[]
    {
      connections, keySubscriptions, counter := map[], map[], 0;
    }

    method AddConnection(now: int) returns (c: nat)
      requires Valid()
      modifies this
      ensures Valid() && c !in old(connections)
      ensures connections == old(connections)[c := Connection({}, now)]
    {
      counter := counter + 1;
      c := counter;
      BareConnectionMirrors(connections, connections[c := Connection({}, now)], keySubscriptions, c);
      connections := connections[c := Connection({}, now)];
    }

    method Subscribe(c: nat, key: string, now: int) returns (ok: bool)
      requires Valid()
      modifies this
      ensures Valid() && connections == WithKey(old(connections), c, key, now)
      ensures ok <==> c in old(connections)
      ensures connections.Keys == old(connections).Keys
      ensures Pairs(connections) == Pairs(old(connections)) + if ok then {(c, key)} else {}
      ensures forall d :: d in connections ==>
                connections[d].lastActivity == if d == c then now else old(connections)[d].lastActivity
    {
      if c !in connections {
        return false;
      }
      SubscribeMirrors(connections, keySubscriptions, c, key, now);
      connections := connections[c := Connection(connections[c].subscriptions + {key}, now)];
      if key !in keySubscriptions {
        keySubscriptions := keySubscriptions[key := {}];
      }
      keySubscriptions := keySubscriptions[key := keySubscriptions[key] + {c}];
      assert keySubscriptions == Listing(old(keySubscriptions), c, key);
      return true;
    }

    method Unsubscribe(c: nat, key: string, now: int) returns (ok: bool)
      requires Valid()
      modifies this
      ensures Valid() && connections == WithoutKey(old(connections), c, key, now) && counter == old(counter)
      ensures ok <==> c in old(connections)
      ensures connections.Keys == old(connections).Keys
      ensures Pairs(connections) == Pairs(old(connections)) - {(c, key)}
      ensures forall d :: d in connections ==>
                connections[d].lastActivity == if d == c then now else old(connections)[d].lastActivity
    {
      if c !in connections {
        return false;
      }
      UnsubscribeMirrors(connections, keySubscriptions, c, key, now);
      connections := connections[c := Connection(connections[c].subscriptions - {key}, now)];
      if key in keySubscriptions {
        keySubscriptions := keySubscriptions[key := keySubscriptions[key] - {c}];
        if keySubscriptions[key] == {} {
          keySubscriptions := keySubscriptions - {key};
        }
      }
      assert keySubscriptions == Unlisting(old(keySubscriptions), c, key);
      return true;
    }

    /** Unsubscribes from one key after the other, each leaving the set that is being walked. */
    method RemoveConnection(c: nat, now: int)
      requires Valid()
      modifies this
      ensures Valid() && connections == old(connections) - {c} && counter == old(counter)
    {
      if c !in connections {
        return;
      }
      while connections[c].subscriptions != {}
        invariant Valid() && c in connections && counter == old(counter)
        invariant connections - {c} == old(connections) - {c}
        decreases |connections[c].subscriptions|
      {
        var key :| key in connections[c].subscriptions;
        ghost var before := connections[c].subscriptions;
        var _ := Unsubscribe(c, key, now);
        assert connections[c].subscriptions == before - {key};
      }
      BareConnectionMirrors(connections, connections - {c}, keySubscriptions, c);
      connections := connections - {c};
    }

    method SendTo(c: nat, outcome: Outcome, now: int)
      requires Valid() && c in connections
      modifies this
      ensures Valid() && connections == SentOne(old(connections), c, outcome, now)
    {
      if outcome == Delivered {
        TouchMirrors(connections, keySubscriptions, c, now);
        connections := connections[c := connections[c].(lastActivity := now)];
      } else {
        RemoveConnection(c, now);
      }
    }

    /** The subscribers are walked while unreachable ones leave the set. */
    method NotifySubscribers(key: string, outcome: nat -> Outcome, now: int)
      returns (sent: nat, ghost receivers: seq<nat>)
      requires Valid()
      modifies this
      ensures Valid() && connections == Notified(old(connections), key, outcome, now)
      ensures LeftAfter(old(connections), connections, key, outcome, now)
      ensures Received(receivers, Subscribers(old(connections), key), outcome) && sent == |receivers|
    {
      sent, receivers := 0, [];
      ghost var was, all := connections, Subscribers(connections, key);
      var done := {};
      ListedAreSubscribers(connections, keySubscriptions, key);
      var left := if key in keySubscriptions then keySubscriptions[key] else {};
      assert all - done == all;
      while left != {}
        invariant Valid()
        invariant done <= all && left == all - done
        invariant NotifiedSome(was, connections, done, outcome, now)
        invariant Received(receivers, done, outcome) && sent == |receivers|
        decreases |left|
      {
        var c :| c in left;
        NotifiedOne(was, connections, done, c, outcome, now);
        ReceivedOne(receivers, done, c, outcome);
        OneLess(all, done, c);
        SendTo(c, outcome(c), now);
        if outcome(c) == Delivered {
          sent, receivers := sent + 1, receivers + [c];
        }
        done := done + {c};
        ListedAreSubscribers(connections, keySubscriptions, key);
        NotifiedLeft(was, connections, key, done, outcome, now);
        left := (if key in keySubscriptions then keySubscriptions[key] else {}) - done;
      }
      NotifiedAll(was, connections, key, done, outcome, now);
      NotifiedMeans(was, key, outcome, now);
    }

    method GetSubscriberCount(key: string) returns (n: nat)
      requires Valid()
      ensures n == |Subscribers(connections, key)|
    {
      ListedAreSubscribers(connections, keySubscriptions, key);
      n := if key in keySubscriptions then |keySubscriptions[key]| else 0;
    }

    method GetStats() returns (total: nat, subscriptions: nat, keys: nat)
      requires Valid()
      ensures total == |connections| && keys == |keySubscriptions|
      ensures subscriptions == |Pairs(connections)| == |PairsByKey(keySubscriptions)|
    {
      total, subscriptions, keys := |connections|, 0, |keySubscriptions|;
      var left := connections.Keys;
      while left != {}
        invariant left <= connections.Keys
        invariant subscriptions == |PairsAmong(connections, connections.Keys - left)|
        decreases |left|
      {
        var c :| c in left;
        PairsAmongMore(connections, connections.Keys - left, c);
        assert connections.Keys - (left - {c}) == (connections.Keys - left) + {c};
        subscriptions := subscriptions + |connections[c].subscriptions|;
        left := left - {c};
      }
      assert PairsAmong(connections, connections.Keys - {}) == Pairs(connections);
      SamePairs(connections, keySubscriptions);
    }

    /** Connections idle for longer than the timeout go, the others stay untouched. */
    method CleanupInactiveConnections(timeout: int, now: int) returns (cleaned: nat)
      requires Valid()
      modifies this
      ensures Valid() && connections == StillActive(old(connections), timeout, now)
      ensures forall c :: c in connections <==> c in old(connections) && now - old(connections)[c].lastActivity <= timeout
      ensures forall c :: c in connections ==> connections[c] == old(connections)[c]
      ensures cleaned == |old(connections)| - |connections|
    {
      cleaned := 0;
      ghost var was := connections;
      var done := {};
      var left := connections.Keys;
      assert was.Keys - done == was.Keys;
      while left != {}
        invariant Valid() && left == was.Keys - done
        invariant CleanedSome(was, connections, done, timeout, now)
        invariant cleaned == |was| - |connections|
        decreases |left|
      {
        var c :| c in left;
        CleanedOne(was, connections, done, c, timeout, now);
        OneLess(was.Keys, done, c);
        if now - connections[c].lastActivity > timeout {
          RemoveConnection(c, now);
          cleaned := cleaned + 1;
        }
        done := done + {c};
        CleanedLeft(was, connections, done, timeout, now);
        left := connections.Keys - done;
      }
      CleanedLeft(was, connections, done, timeout, now);
    }
  }
}
