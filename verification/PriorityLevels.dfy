/** Five FIFO queues, one per priority, popped from the most urgent non-empty one: the structure behind
    TaskQueue and BehaviorPriorityQueue, against a single list of requests in order of arrival. */
module PriorityLevels {
  import opened Common

  const LEVELS: nat := 5

  datatype Popped<T> = Popped(item: Option<T>, rest: Levels<T>)

  datatype Levels<T> = Levels(
    emergency: seq<T>, safety: seq<T>, urgent: seq<T>, normal: seq<T>, maintenance: seq<T>)
  {
    function Get(k: nat): seq<T> {
      if k == 0 then emergency
      else if k == 1 then safety
      else if k == 2 then urgent
      else if k == 3 then normal
      else if k == 4 then maintenance
      else []
    }

    function With(k: nat, q: seq<T>): Levels<T> {
      if k == 0 then this.(emergency := q)
      else if k == 1 then this.(safety := q)
      else if k == 2 then this.(urgent := q)
      else if k == 3 then this.(normal := q)
      else if k == 4 then this.(maintenance := q)
      else this
    }

    function Push(k: nat, x: T): Levels<T> {
      With(k, Get(k) + [x])
    }

    /** The levels are tried in order of urgency. */
    function Pop(): Popped<T> {
      if emergency != [] then Popped(Some(emergency[0]), this.(emergency := emergency[1..]))
      else if safety != [] then Popped(Some(safety[0]), this.(safety := safety[1..]))
      else if urgent != [] then Popped(Some(urgent[0]), this.(urgent := urgent[1..]))
      else if normal != [] then Popped(Some(normal[0]), this.(normal := normal[1..]))
      else if maintenance != [] then Popped(Some(maintenance[0]), this.(maintenance := maintenance[1..]))
      else Popped(None, this)
    }

    function Peek(): Option<T> {
      if emergency != [] then Some(emergency[0])
      else if safety != [] then Some(safety[0])
      else if urgent != [] then Some(urgent[0])
      else if normal != [] then Some(normal[0])
      else if maintenance != [] then Some(maintenance[0])
      else None
    }

    function Flat(): seq<T> {
      emergency + safety + urgent + normal + maintenance
    }

    function Size(): nat {
      |emergency| + |safety| + |urgent| + |normal| + |maintenance|
    }
  }

  function Empty<T>(): Levels<T> { Levels([], [], [], [], []) }

  // ----- the specification: one list in order of arrival -----

  datatype Entry<T> = Entry(item: T, level: nat, arrival: nat)

  ghost predicate InOrder<T>(pending: seq<Entry<T>>) {
    && (forall i :: 0 <= i < |pending| ==> pending[i].level < LEVELS)
    && (forall i, j :: 0 <= i < j < |pending| ==> pending[i].arrival < pending[j].arrival)
  }

  /** The first of the most urgent entries. */
  function Best<T>(pending: seq<Entry<T>>): (b: nat)
    requires pending != []
    ensures b < |pending|
    ensures forall j :: 0 <= j < |pending| ==> pending[b].level <= pending[j].level
    ensures forall j :: 0 <= j < b ==> pending[b].level < pending[j].level
  {
    if |pending| == 1 then 0
    else
      var b := Best(pending[..|pending| - 1]);
      if pending[|pending| - 1].level < pending[b].level then |pending| - 1 else b
  }

  function Drop<T>(s: seq<T>, i: nat): seq<T>
    requires i < |s|
  {
    s[..i] + s[i + 1..]
  }

  function Select<T>(pending: seq<Entry<T>>, k: nat): seq<T> {
    if pending == [] then []
    else
      var last := pending[|pending| - 1];
      Select(pending[..|pending| - 1], k) + (if last.level == k then [last.item] else [])
  }

  /** The five queues hold the list, each its own level, in order. */
  ghost predicate Represents<T>(l: Levels<T>, pending: seq<Entry<T>>) {
    forall k :: 0 <= k < LEVELS ==> l.Get(k) == Select(pending, k)
  }

  lemma {:induction false} SelectConcat<T>(a: seq<Entry<T>>, b: seq<Entry<T>>, k: nat)
    ensures Select(a + b, k) == Select(a, k) + Select(b, k)
  {
    if b == [] {
      assert a + b == a;
    } else {
      var init := b[..|b| - 1];
      assert (a + b)[..|a + b| - 1] == a + init;
      SelectConcat(a, init, k);
    }
  }

  lemma {:induction false} SelectNone<T>(pending: seq<Entry<T>>, k: nat)
    requires forall i :: 0 <= i < |pending| ==> pending[i].level != k
    ensures Select(pending, k) == []
  {
    if pending != [] {
      SelectNone(pending[..|pending| - 1], k);
    }
  }

  lemma SelectOne<T>(e: Entry<T>, k: nat)
    ensures Select([e], k) == if e.level == k then [e.item] else []
  {
    assert [e][..0] == [];
  }

  lemma PushRepresents<T>(l: Levels<T>, pending: seq<Entry<T>>, e: Entry<T>)
    requires Represents(l, pending) && e.level < LEVELS
    ensures Represents(l.Push(e.level, e.item), pending + [e])
  {
    forall k | 0 <= k < LEVELS ensures l.Push(e.level, e.item).Get(k) == Select(pending + [e], k) {
      WithGet(l, e.level, l.Get(e.level) + [e.item], k);
      SelectConcat(pending, [e], k);
      SelectOne(e, k);
      assert l.Get(k) == Select(pending, k);
    }
  }

  /** What the levels hold around the entry at `b`. */
  lemma SelectAround<T>(pending: seq<Entry<T>>, b: nat, k: nat)
    requires b < |pending|
    ensures Select(pending, k)
         == Select(pending[..b], k) + (if pending[b].level == k then [pending[b].item] else []) + Select(pending[b + 1..], k)
    ensures Select(Drop(pending, b), k) == Select(pending[..b], k) + Select(pending[b + 1..], k)
  {
    var left, e, right := pending[..b], pending[b], pending[b + 1..];
    assert pending == left + [e] + right;
    SelectConcat(left + [e], right, k);
    SelectConcat(left, [e], k);
    SelectOne(e, k);
    SelectConcat(left, right, k);
  }

  lemma SelectBest<T>(pending: seq<Entry<T>>)
    requires pending != []
    ensures var b, k := Best(pending), pending[Best(pending)].level;
            && (forall j :: 0 <= j < k ==> Select(pending, j) == [])
            && Select(pending, k) == [pending[b].item] + Select(Drop(pending, b), k)
            && (forall j :: 0 <= j < LEVELS && j != k ==> Select(Drop(pending, b), j) == Select(pending, j))
  {
    var b := Best(pending);
    var k := pending[b].level;
    forall j | 0 <= j < k ensures Select(pending, j) == [] {
      SelectNone(pending, j);
    }
    SelectNone(pending[..b], k);
    SelectAround(pending, b, k);
    forall j | 0 <= j < LEVELS && j != k ensures Select(Drop(pending, b), j) == Select(pending, j) {
      SelectAround(pending, b, j);
    }
  }

  lemma PopNonEmpty<T>(l: Levels<T>, pending: seq<Entry<T>>, b: nat, k: nat)
    requires Represents(l, pending) && pending != [] && b == Best(pending) && k == pending[b].level < LEVELS
    ensures l.Get(k) != []
    ensures l.Pop() == Popped(Some(pending[b].item), l.With(k, l.Get(k)[1..])) && l.Peek() == Some(pending[b].item)
    ensures Represents(l.With(k, l.Get(k)[1..]), Drop(pending, b))
  {
    SelectBest(pending);
    assert forall j :: 0 <= j < k ==> l.Get(j) == Select(pending, j);
    assert l.Get(k) == Select(pending, k);
    PopAt(l, k);
    var rest := l.With(k, l.Get(k)[1..]);
    forall j | 0 <= j < LEVELS ensures rest.Get(j) == Select(Drop(pending, b), j) {
      assert l.Get(j) == Select(pending, j);
      WithGet(l, k, l.Get(k)[1..], j);
    }
  }

  lemma WithGet<T>(l: Levels<T>, k: nat, q: seq<T>, j: nat)
    requires k < LEVELS
    ensures l.With(k, q).Get(j) == if j == k then q else l.Get(j)
  {}

  /** Popping the five queues takes the first of the most urgent entries, and nothing else. */
  lemma PopIsBest<T>(l: Levels<T>, pending: seq<Entry<T>>)
    requires Represents(l, pending) && forall i :: 0 <= i < |pending| ==> pending[i].level < LEVELS
    ensures pending == [] ==> l.Pop() == Popped(None, l) && l.Peek() == None
    ensures pending != [] ==>
              && l.Pop().item == Some(pending[Best(pending)].item) == l.Peek()
              && Represents(l.Pop().rest, Drop(pending, Best(pending)))
  {
    if pending == [] {
      assert l.Get(0) == [] && l.Get(1) == [] && l.Get(2) == [] && l.Get(3) == [] && l.Get(4) == [];
    } else {
      PopNonEmpty(l, pending, Best(pending), pending[Best(pending)].level);
    }
  }

  lemma PopAt<T>(l: Levels<T>, k: nat)
    requires k < LEVELS && l.Get(k) != [] && forall j :: 0 <= j < k ==> l.Get(j) == []
    ensures l.Pop() == Popped(Some(l.Get(k)[0]), l.With(k, l.Get(k)[1..])) && l.Peek() == Some(l.Get(k)[0])
  {
    assert k > 0 ==> l.Get(0) == [];
    assert k > 1 ==> l.Get(1) == [];
    assert k > 2 ==> l.Get(2) == [];
    assert k > 3 ==> l.Get(3) == [];
  }

  // ----- the order in which everything comes out -----

  function SelectEntries<T>(pending: seq<Entry<T>>, k: nat): seq<Entry<T>> {
    if pending == [] then []
    else
      var last := pending[|pending| - 1];
      SelectEntries(pending[..|pending| - 1], k) + (if last.level == k then [last] else [])
  }

  /** Level by level, each in order of arrival. */
  function ByUrgency<T>(pending: seq<Entry<T>>): seq<Entry<T>> {
    SelectEntries(pending, 0) + SelectEntries(pending, 1) + SelectEntries(pending, 2)
    + SelectEntries(pending, 3) + SelectEntries(pending, 4)
  }

  function Items<T>(entries: seq<Entry<T>>): seq<T> {
    seq(|entries|, i requires 0 <= i < |entries| => entries[i].item)
  }

  /** More urgent, or as urgent and earlier. */
  predicate Before<T>(a: Entry<T>, b: Entry<T>) {
    a.level < b.level || (a.level == b.level && a.arrival < b.arrival)
  }

  lemma {:induction false} SelectedLevel<T>(pending: seq<Entry<T>>, k: nat)
    requires InOrder(pending)
    ensures forall i :: 0 <= i < |SelectEntries(pending, k)| ==>
              SelectEntries(pending, k)[i].level == k && SelectEntries(pending, k)[i] in pending
    ensures InOrder(SelectEntries(pending, k))
  {
    if pending != [] {
      SelectedLevel(pending[..|pending| - 1], k);
      var init := SelectEntries(pending[..|pending| - 1], k);
      forall i | 0 <= i < |init| ensures init[i].arrival < pending[|pending| - 1].arrival && init[i] in pending {
        assert init[i] in pending[..|pending| - 1];
      }
    }
  }

  /** `ByUrgency` is the list sorted strictly by (urgency, arrival) ... */
  lemma ByUrgencySorted<T>(pending: seq<Entry<T>>)
    requires InOrder(pending)
    ensures forall i, j :: 0 <= i < j < |ByUrgency(pending)| ==> Before(ByUrgency(pending)[i], ByUrgency(pending)[j])
  {
    SelectedLevel(pending, 0);
    SelectedLevel(pending, 1);
    SelectedLevel(pending, 2);
    SelectedLevel(pending, 3);
    SelectedLevel(pending, 4);
  }

  lemma MultisetOfFive<T>(a: seq<T>, b: seq<T>, c: seq<T>, d: seq<T>, e: seq<T>)
    ensures multiset(a + b + c + d + e) == multiset(a) + multiset(b) + multiset(c) + multiset(d) + multiset(e)
  {}

  /** How often `x` was selected at level `k`. */
  ghost function Times<T>(pending: seq<Entry<T>>, k: nat, x: Entry<T>): nat {
    multiset(SelectEntries(pending, k))[x]
  }

  lemma TimesSnoc<T>(pending: seq<Entry<T>>, last: Entry<T>, k: nat, x: Entry<T>)
    ensures Times(pending + [last], k, x)
         == Times(pending, k, x) + (if last.level == k && last == x then 1 else 0)
  {
    assert (pending + [last])[..|pending|] == pending;
  }

  lemma {:induction false} TimesAll<T>(pending: seq<Entry<T>>, x: Entry<T>)
    requires forall i :: 0 <= i < |pending| ==> pending[i].level < LEVELS
    ensures Times(pending, 0, x) + Times(pending, 1, x) + Times(pending, 2, x) + Times(pending, 3, x)
          + Times(pending, 4, x) == multiset(pending)[x]
  {
    if pending != [] {
      var init, last := pending[..|pending| - 1], pending[|pending| - 1];
      TimesAll(init, x);
      assert pending == init + [last];
      assert multiset(init + [last])[x] == multiset(init)[x] + if last == x then 1 else 0;
      TimesSnoc(init, last, 0, x);
      TimesSnoc(init, last, 1, x);
      TimesSnoc(init, last, 2, x);
      TimesSnoc(init, last, 3, x);
      TimesSnoc(init, last, 4, x);
    }
  }

  /** ... and it holds every entry as often as the list does. */
  lemma ByUrgencyPermutes<T>(pending: seq<Entry<T>>, x: Entry<T>)
    requires forall i :: 0 <= i < |pending| ==> pending[i].level < LEVELS
    ensures multiset(ByUrgency(pending))[x] == multiset(pending)[x]
  {
    MultisetOfFive(SelectEntries(pending, 0), SelectEntries(pending, 1), SelectEntries(pending, 2),
                   SelectEntries(pending, 3), SelectEntries(pending, 4));
    TimesAll(pending, x);
  }

  lemma {:induction false} SelectIsItems<T>(pending: seq<Entry<T>>, k: nat)
    ensures Select(pending, k) == Items(SelectEntries(pending, k))
  {
    if pending != [] {
      SelectIsItems(pending[..|pending| - 1], k);
    }
  }

  /** Reading the five queues one after the other gives the sorted list. */
  lemma FlatIsByUrgency<T>(l: Levels<T>, pending: seq<Entry<T>>)
    requires Represents(l, pending)
    ensures l.Flat() == Items(ByUrgency(pending))
  {
    SelectIsItems(pending, 0);
    SelectIsItems(pending, 1);
    SelectIsItems(pending, 2);
    SelectIsItems(pending, 3);
    SelectIsItems(pending, 4);
    assert l.Get(0) == l.emergency && l.Get(1) == l.safety && l.Get(2) == l.urgent
        && l.Get(3) == l.normal && l.Get(4) == l.maintenance;
  }

  /** What repeated popping returns. */
  function Drain<T>(l: Levels<T>): seq<T>
    decreases l.Size()
  {
    var p := l.Pop();
    if p.item.None? then [] else [p.item.value] + Drain(p.rest)
  }

  lemma ConsOfFive<T>(x: T, a: seq<T>, b: seq<T>, c: seq<T>, d: seq<T>, e: seq<T>)
    ensures [x] + a + b + c + d + e == [x] + (a + b + c + d + e)
  {
    Regroup([x], a, b);
    Regroup([x], a + b, c);
    Regroup([x], a + b + c, d);
    Regroup([x], a + b + c + d, e);
  }

  lemma NilOfFive<T>(b: seq<T>, c: seq<T>, d: seq<T>, e: seq<T>)
    ensures [] + b + c + d + e == b + c + d + e
  {
    assert [] + b == b;
  }

  lemma ConsOfFour<T>(x: T, b: seq<T>, c: seq<T>, d: seq<T>, e: seq<T>)
    ensures [] + ([x] + b) + c + d + e == [x] + ([] + b + c + d + e)
  {
    NilOfFive([x] + b, c, d, e);
    NilOfFive(b, c, d, e);
    Regroup([x], b, c);
    Regroup([x], b + c, d);
    Regroup([x], b + c + d, e);
  }

  lemma PopFlat<T>(l: Levels<T>)
    ensures l.Pop().item.None? ==> l.Flat() == []
    ensures l.Pop().item.Some? ==> l.Flat() == [l.Pop().item.value] + l.Pop().rest.Flat()
  {
    var p := l.Pop();
    if l.emergency != [] {
      assert l.emergency == [p.item.value] + p.rest.emergency;
      ConsOfFive(p.item.value, p.rest.emergency, l.safety, l.urgent, l.normal, l.maintenance);
    } else if l.safety != [] {
      assert l.safety == [p.item.value] + p.rest.safety;
      ConsOfFour(p.item.value, p.rest.safety, l.urgent, l.normal, l.maintenance);
    } else if l.urgent != [] {
      assert l.urgent == [p.item.value] + p.rest.urgent;
      assert [] + [] + l.urgent == l.urgent && [] + [] + p.rest.urgent == p.rest.urgent;
      Regroup([p.item.value], p.rest.urgent, l.normal);
      Regroup([p.item.value], p.rest.urgent + l.normal, l.maintenance);
    } else if l.normal != [] {
      assert l.normal == [p.item.value] + p.rest.normal;
      assert [] + [] + [] + l.normal == l.normal && [] + [] + [] + p.rest.normal == p.rest.normal;
      Regroup([p.item.value], p.rest.normal, l.maintenance);
    }
  }

  /** Popping until empty yields the queues in their reading order. */
  lemma {:induction false} DrainIsFlat<T>(l: Levels<T>)
    ensures Drain(l) == l.Flat()
    decreases l.Size()
  {
    PopFlat(l);
    if l.Pop().item.Some? {
      DrainIsFlat(l.Pop().rest);
    }
  }
}
