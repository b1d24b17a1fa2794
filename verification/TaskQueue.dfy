/** TaskQueue: tasks in five vectors and a map from task id to priority, against one list of tasks in order
    of arrival. */
module TaskQueues {
  import opened Common
  import opened PriorityLevels

  datatype Task = Task(id: string, body: int)

  /** The vector a priority selects; a value outside the enumeration falls back to NORMAL_TASK. */
  function LevelOf(priority: nat): (k: nat)
    ensures k < LEVELS
  {
    if priority < LEVELS then priority else 3
  }

  predicate NotNamed(tasks: seq<Task>, id: string) {
    forall i :: 0 <= i < |tasks| ==> tasks[i].id != id
  }

  /** The inner queue's remove: erase the first task with this id. */
  method EraseTask(tasks: seq<Task>, id: string) returns (found: bool, rest: seq<Task>)
    ensures found <==> !NotNamed(tasks, id)
    ensures !found ==> rest == tasks
    ensures found ==>
              exists i :: 0 <= i < |tasks| && tasks[i].id == id && NotNamed(tasks[..i], id) && rest == Drop(tasks, i)
  {
    var i := 0;
    while i < |tasks| && tasks[i].id != id
      invariant i <= |tasks| && NotNamed(tasks[..i], id)
    {
      i := i + 1;
    }
    if i < |tasks| {
      return true, Drop(tasks, i);
    }
    assert tasks[..i] == tasks;
    return false, tasks;
  }

  class TaskQueue {
    var levels: Levels<Task>
    var priorities: map<string, nat>
    ghost var pending: seq<Entry<Task>>
    ghost var arrivals: nat

    ghost predicate Valid()
      reads this
    {
      Represents(levels, pending) && Agree(priorities, pending, arrivals)
    }

    constructor ()
      ensures Valid() && pending == []
    {
      levels := Empty();
      priorities := map[];
      pending, arrivals := [], 0;
    }

    /** A task already queued is refused. */
    method Enqueue(task: Task, priority: nat) returns (ok: bool)
      requires Valid()
      modifies this
      ensures Valid()
      ensures ok <==> old(NotPending(pending, task.id))
      ensures !ok ==> pending == old(pending) && levels == old(levels) && priorities == old(priorities)
      ensures ok ==> pending == old(pending) + [Entry(task, LevelOf(priority), old(arrivals))]
      ensures ok ==> priorities == old(priorities)[task.id := priority]
    {
      if task.id in priorities {
        return false;
      }
      EnqueueStep(levels, priorities, pending, arrivals, task, priority);
      Append(task, priority);
      return true;
    }

    /** Puts the task into the queue of its priority and its id into the map. */
    method Append(task: Task, priority: nat)
      modifies this
      ensures levels == old(levels).Push(LevelOf(priority), task)
      ensures priorities == old(priorities)[task.id := priority]
      ensures pending == old(pending) + [Entry(task, LevelOf(priority), old(arrivals))] && arrivals == old(arrivals) + 1
    {
      levels := levels.Push(LevelOf(priority), task);
      priorities := priorities[task.id := priority];
      pending := pending + [Entry(task, LevelOf(priority), arrivals)];
      arrivals := arrivals + 1;
    }

    /** Takes the earliest of the most urgent tasks. */
    method Dequeue() returns (task: Option<Task>)
      requires Valid()
      modifies this
      ensures Valid()
      ensures old(pending) == [] ==> task == None && pending == []
      ensures old(pending) != [] ==>
                task == Some(old(pending[Best(pending)].item)) && pending == old(Drop(pending, Best(pending)))
    {
      DequeueStep(levels, priorities, pending, arrivals);
      task := levels.Pop().item;
      if task.Some? {
        TakeNext(task.value.id);
      }
    }

    /** Takes the next task out of its queue and its id out of the map. */
    method TakeNext(id: string)
      requires pending != []
      modifies this`levels, this`priorities, this`pending
      ensures levels == old(levels).Pop().rest && priorities == old(priorities) - {id}
      ensures pending == old(Drop(pending, Best(pending)))
    {
      levels, priorities := levels.Pop().rest, priorities - {id};
      pending := Drop(pending, Best(pending));
    }

    method Peek() returns (task: Option<Task>)
      requires Valid()
      ensures pending == [] ==> task == None
      ensures pending != [] ==> task == Some(pending[Best(pending)].item)
    {
      PopIsBest(levels, pending);
      task := levels.Peek();
    }

    /** Removing a queued task keeps the order of all the others; an unknown id changes nothing. */
    method Remove(id: string) returns (ok: bool)
      requires Valid()
      modifies this
      ensures Valid()
      ensures ok <==> !old(NotPending(pending, id))
      ensures !ok ==> pending == old(pending) && levels == old(levels) && priorities == old(priorities)
      ensures ok ==> exists i :: 0 <= i < |old(pending)| && old(pending)[i].item.id == id && pending == Drop(old(pending), i)
    {
      if id !in priorities {
        return false;
      }
      ghost var i := IndexOf(priorities, pending, arrivals, id);
      var k := LevelOf(priorities[id]);
      var rest;
      ok, rest := EraseTask(levels.Get(k), id);
      EraseRepresents(levels, pending, i, k, ok, rest);
      DropAgrees(priorities, pending, arrivals, i);
      levels := levels.With(k, rest);
      priorities := priorities - {id};
      pending := Drop(pending, i);
    }

    method GetAllTasks() returns (tasks: seq<Task>)
      requires Valid()
      ensures tasks == Items(ByUrgency(pending))
      ensures Listed(tasks, priorities)
    {
      FlatIsByUrgency(levels, pending);
      ListedByPriority(priorities, pending, arrivals);
      tasks := levels.Flat();
    }

    method Size() returns (n: nat)
      requires Valid()
      ensures n == |pending|
    {
      FlatIsByUrgency(levels, pending);
      ByUrgencySize(pending);
      n := levels.Size();
    }

    method Clear()
      requires Valid()
      modifies this
      ensures Valid() && pending == [] && priorities == map[]
    {
      levels := Empty();
      priorities := map[];
      pending := [];
    }
  }

  // ----- the map and the list -----

  ghost predicate NotPending(pending: seq<Entry<Task>>, id: string) {
    forall i :: 0 <= i < |pending| ==> pending[i].item.id != id
  }

  ghost predicate DistinctIds(pending: seq<Entry<Task>>) {
    forall i, j :: 0 <= i < j < |pending| ==> pending[i].item.id != pending[j].item.id
  }

  /** Each queued id is in the map, with a priority that selects its level. */
  ghost predicate Mapped(priorities: map<string, nat>, pending: seq<Entry<Task>>) {
    forall i :: 0 <= i < |pending| ==>
      pending[i].item.id in priorities && LevelOf(priorities[pending[i].item.id]) == pending[i].level
  }

  /** The list is in order of arrival without repeated ids, and the map holds exactly the queued ids. */
  ghost predicate Agree(priorities: map<string, nat>, pending: seq<Entry<Task>>, arrivals: nat) {
    && InOrder(pending) && DistinctIds(pending) && Mapped(priorities, pending)
    && (forall i :: 0 <= i < |pending| ==> pending[i].arrival < arrivals)
    && (forall id :: id in priorities ==> !NotPending(pending, id))
  }

  lemma IndexOf(priorities: map<string, nat>, pending: seq<Entry<Task>>, arrivals: nat, id: string) returns (i: nat)
    requires Agree(priorities, pending, arrivals) && id in priorities
    ensures i < |pending| && pending[i].item.id == id && pending[i].level == LevelOf(priorities[id])
    ensures !NotPending(pending, id)
  {
    assert !NotPending(pending, id);
    i :| 0 <= i < |pending| && pending[i].item.id == id;
  }

  lemma PushAgrees(
    priorities: map<string, nat>, pending: seq<Entry<Task>>, arrivals: nat, e: Entry<Task>, priority: nat)
    requires Agree(priorities, pending, arrivals) && e.item.id !in priorities
    requires e.level == LevelOf(priority) && e.arrival == arrivals
    ensures NotPending(pending, e.item.id)
    ensures Agree(priorities[e.item.id := priority], pending + [e], arrivals + 1)
  {
    var more, list := priorities[e.item.id := priority], pending + [e];
    forall id | id in more ensures !NotPending(list, id) {
      if id == e.item.id {
        assert list[|pending|].item.id == id;
      } else {
        var i := IndexOf(priorities, pending, arrivals, id);
        assert list[i] == pending[i];
      }
    }
  }

  lemma EnqueueStep(l: Levels<Task>, priorities: map<string, nat>, pending: seq<Entry<Task>>, arrivals: nat,
                    task: Task, priority: nat)
    requires Represents(l, pending) && Agree(priorities, pending, arrivals) && task.id !in priorities
    ensures NotPending(pending, task.id)
    ensures Represents(l.Push(LevelOf(priority), task), pending + [Entry(task, LevelOf(priority), arrivals)])
    ensures Agree(priorities[task.id := priority], pending + [Entry(task, LevelOf(priority), arrivals)], arrivals + 1)
  {
    var e := Entry(task, LevelOf(priority), arrivals);
    PushRepresents(l, pending, e);
    PushAgrees(priorities, pending, arrivals, e, priority);
  }

  function Back(i: nat, j: nat): nat { if j < i then j else j + 1 }

  lemma DropIndex<T>(s: seq<T>, i: nat)
    requires i < |s|
    ensures forall j {:trigger Drop(s, i)[j]} :: 0 <= j < |s| - 1 ==> Drop(s, i)[j] == s[Back(i, j)]
  {}

  lemma DropInOrder(pending: seq<Entry<Task>>, i: nat)
    requires i < |pending| && InOrder(pending) && DistinctIds(pending)
    ensures InOrder(Drop(pending, i)) && DistinctIds(Drop(pending, i))
  {
    DropIndex(pending, i);
  }

  lemma DropAgrees(priorities: map<string, nat>, pending: seq<Entry<Task>>, arrivals: nat, i: nat)
    requires Agree(priorities, pending, arrivals) && i < |pending|
    ensures Agree(priorities - {pending[i].item.id}, Drop(pending, i), arrivals)
  {
    var rest, left := Drop(pending, i), priorities - {pending[i].item.id};
    DropIndex(pending, i);
    DropInOrder(pending, i);
    forall j | 0 <= j < |rest|
      ensures rest[j].item.id in left && LevelOf(left[rest[j].item.id]) == rest[j].level && rest[j].arrival < arrivals
    {
      assert rest[j] == pending[Back(i, j)];
    }
    forall id | id in left ensures !NotPending(rest, id) {
      var j := IndexOf(priorities, pending, arrivals, id);
      var j' := if j < i then j else j - 1;
      assert rest[j'] == pending[Back(i, j')] == pending[j];
    }
  }

  lemma DequeueStep(l: Levels<Task>, priorities: map<string, nat>, pending: seq<Entry<Task>>, arrivals: nat)
    requires Represents(l, pending) && Agree(priorities, pending, arrivals)
    ensures l.Pop().item.None? <==> pending == []
    ensures pending != [] ==>
              && l.Pop().item.value == pending[Best(pending)].item
              && Represents(l.Pop().rest, Drop(pending, Best(pending)))
              && Agree(priorities - {l.Pop().item.value.id}, Drop(pending, Best(pending)), arrivals)
  {
    PopIsBest(l, pending);
    if pending != [] {
      DropAgrees(priorities, pending, arrivals, Best(pending));
    }
  }

  lemma {:induction false} SelectedNames(pending: seq<Entry<Task>>, k: nat, id: string)
    requires NotPending(pending, id)
    ensures NotNamed(Select(pending, k), id)
  {
    if pending != [] {
      SelectedNames(pending[..|pending| - 1], k, id);
    }
  }

  lemma FirstNamed(a: seq<Task>, x: Task, b: seq<Task>, j: nat)
    requires j < |a + [x] + b| && (a + [x] + b)[j].id == x.id
    requires NotNamed(a, x.id) && NotNamed((a + [x] + b)[..j], x.id)
    ensures Drop(a + [x] + b, j) == a + b
  {
    assert (a + [x] + b)[|a|] == x;
    assert j == |a|;
  }

  /** Erasing by id in its level is dropping the entry from the list. */
  lemma EraseRepresents(l: Levels<Task>, pending: seq<Entry<Task>>, i: nat, k: nat, found: bool, rest: seq<Task>)
    requires Represents(l, pending) && DistinctIds(pending) && i < |pending| && pending[i].level == k < LEVELS
    requires found <==> !NotNamed(l.Get(k), pending[i].item.id)
    requires found ==>
               exists j :: 0 <= j < |l.Get(k)| && l.Get(k)[j].id == pending[i].item.id
                        && NotNamed(l.Get(k)[..j], pending[i].item.id) && rest == Drop(l.Get(k), j)
    ensures found && Represents(l.With(k, rest), Drop(pending, i))
  {
    var x := pending[i].item;
    var a, b := Select(pending[..i], k), Select(pending[i + 1..], k);
    SelectAround(pending, i, k);
    assert l.Get(k) == a + [x] + b;
    assert l.Get(k)[|a|] == x;
    SelectedNames(pending[..i], k, x.id);
    var j :| 0 <= j < |l.Get(k)| && l.Get(k)[j].id == x.id && NotNamed(l.Get(k)[..j], x.id) && rest == Drop(l.Get(k), j);
    FirstNamed(a, x, b, j);
    forall m | 0 <= m < LEVELS ensures l.With(k, rest).Get(m) == Select(Drop(pending, i), m) {
      WithGet(l, k, rest, m);
      SelectAround(pending, i, m);
    }
  }

  lemma {:induction false} ByUrgencySize(pending: seq<Entry<Task>>)
    requires forall i :: 0 <= i < |pending| ==> pending[i].level < LEVELS
    ensures |ByUrgency(pending)| == |pending|
  {
    if pending != [] {
      ByUrgencySize(pending[..|pending| - 1]);
    }
  }

  // ----- by priority -----

  /** The tasks are in the map, in ascending order of their priorities' numbers; an unknown priority counts as 3. */
  ghost predicate Listed(tasks: seq<Task>, priorities: map<string, nat>) {
    && (forall i :: 0 <= i < |tasks| ==> tasks[i].id in priorities)
    && forall i, j :: 0 <= i < j < |tasks| ==>
         (if priorities[tasks[i].id] < 5 then priorities[tasks[i].id] else 3) <=
         (if priorities[tasks[j].id] < 5 then priorities[tasks[j].id] else 3)
  }

  lemma {:induction false} SelectedFrom(pending: seq<Entry<Task>>, k: nat, e: Entry<Task>)
    requires e in SelectEntries(pending, k)
    ensures e in pending
  {
    if pending != [] && e != pending[|pending| - 1] {
      SelectedFrom(pending[..|pending| - 1], k, e);
    }
  }

  lemma UrgentFrom(pending: seq<Entry<Task>>, e: Entry<Task>)
    requires e in ByUrgency(pending)
    ensures e in pending
  {
    var k := if e in SelectEntries(pending, 0) then 0 else if e in SelectEntries(pending, 1) then 1
             else if e in SelectEntries(pending, 2) then 2 else if e in SelectEntries(pending, 3) then 3 else 4;
    SelectedFrom(pending, k, e);
  }

  /** What is listed, and so what comes out, is ordered by the priorities the tasks were queued with. */
  lemma ListedByPriority(priorities: map<string, nat>, pending: seq<Entry<Task>>, arrivals: nat)
    requires Agree(priorities, pending, arrivals)
    ensures Listed(Items(ByUrgency(pending)), priorities)
  {
    var es := ByUrgency(pending);
    ByUrgencySorted(pending);
    forall i | 0 <= i < |es| ensures es[i].item.id in priorities && LevelOf(priorities[es[i].item.id]) == es[i].level {
      UrgentFrom(pending, es[i]);
    }
    forall i, j | 0 <= i < j < |es| ensures es[i].level <= es[j].level {
      assert Before(es[i], es[j]);
    }
  }

  // ----- draining -----

  /** The tasks a caller gets by dequeuing until the queue is empty. */
  ghost function DrainOrder(pending: seq<Entry<Task>>): seq<Task>
    decreases |pending|
  {
    if pending == [] then []
    else [pending[Best(pending)].item] + DrainOrder(Drop(pending, Best(pending)))
  }

  lemma {:induction false} DrainOrderIsDrain(l: Levels<Task>, pending: seq<Entry<Task>>)
    requires Represents(l, pending) && forall i :: 0 <= i < |pending| ==> pending[i].level < LEVELS
    ensures DrainOrder(pending) == Drain(l)
    decreases |pending|
  {
    PopIsBest(l, pending);
    if pending != [] {
      var rest := Drop(pending, Best(pending));
      DropIndex(pending, Best(pending));
      DrainOrderIsDrain(l.Pop().rest, rest);
    }
  }

  /** Dequeuing until empty returns exactly what getAllTasks lists: every queued task once, sorted by urgency
      and, within a priority, by arrival. */
  lemma DrainsInListedOrder(l: Levels<Task>, pending: seq<Entry<Task>>)
    requires Represents(l, pending) && InOrder(pending)
    ensures DrainOrder(pending) == Items(ByUrgency(pending))
  {
    DrainOrderIsDrain(l, pending);
    DrainIsFlat(l);
    FlatIsByUrgency(l, pending);
  }
}
