/** The seqlock protocol shared by RTDataStore and HotKeyCache: one writer and any number of readers
    of one slot, as a state machine over interleaved atomic steps. A write is a list of single-word
    stores between two increments of the sequence counter; a read is a list of single-word loads
    between two loads of the counter. Steps are sequentially consistent. */
module Seqlock {
  import opened Common

  type Word = int

  datatype Store = Store(addr: nat, word: Word)

  type Program = seq<Store>

  // ----- memory -----

  function Put(mem: seq<Word>, st: Store): seq<Word> {
    if st.addr < |mem| then mem[st.addr := st.word] else mem
  }

  /** Memory after the stores of `prog`, in order. */
  function Apply(mem: seq<Word>, prog: Program): seq<Word> {
    if prog == [] then mem else Put(Apply(mem, prog[..|prog| - 1]), prog[|prog| - 1])
  }

  /** Memory after the complete writes of `hist`, in order: what a reader should see. */
  function MemAfter(mem: seq<Word>, hist: seq<Program>): seq<Word> {
    if hist == [] then mem else Apply(MemAfter(mem, hist[..|hist| - 1]), hist[|hist| - 1])
  }

  function Fetch(mem: seq<Word>, addr: nat): Word {
    if addr < |mem| then mem[addr] else 0
  }

  function FetchAll(mem: seq<Word>, addrs: seq<nat>): (r: seq<Word>)
    ensures |r| == |addrs|
  {
    seq(|addrs|, i requires 0 <= i < |addrs| => Fetch(mem, addrs[i]))
  }

  /** Stores `words` at addresses 0, 1, 2, ... */
  function WordStores(words: seq<Word>): Program {
    seq(|words|, i requires 0 <= i < |words| => Store(i, words[i]))
  }

  lemma {:induction false} ApplyWords(mem: seq<Word>, words: seq<Word>)
    requires |words| <= |mem|
    ensures Apply(mem, WordStores(words)) == words + mem[|words|..]
  {
    if words != [] {
      var last := |words| - 1;
      ApplyWords(mem, words[..last]);
      assert WordStores(words)[..last] == WordStores(words[..last]);
    }
  }

  // ----- the machine -----

  /** What a reader does when the first load finds a write in progress.
      `DoWhile`: jump to the loop condition, which compares with whatever the second variable holds.
      `Restart(limit)`: begin the next of at most `limit` attempts. */
  datatype Discipline = DoWhile | Restart(limit: nat)

  datatype Pc = LoadFirst | Reading(k: nat) | Compare | Exited | GaveUp

  /** Why an attempt failed, with the unbounded counter: its first load found a write in progress, or its two loads
      differed. */
  datatype Miss = InProgress(at: nat) | Moved(at: nat, to: nat)

  /** One call of a reader. `tick1`, `tick2`, `born` and `missed` are bookkeeping the code does not have: the
      unbounded counter at the two loads, the number of writes complete when the call began, and the failed
      attempts. `loaded` says whether `seq2` was ever assigned. */
  datatype Reader = Reader(
    discipline: Discipline, addrs: seq<nat>, pc: Pc,
    seq1: nat, seq2: nat, temps: seq<Word>, attempts: nat,
    tick1: nat, tick2: nat, loaded: bool, born: nat, missed: seq<Miss>)

  datatype Writer = Idle | Writing(prog: Program, done: nat)

  /** `ticks` counts increments of the counter without bound; `hist` lists the completed writes. */
  datatype State = State(
    init: seq<Word>, mem: seq<Word>, ticks: nat, writer: Writer,
    hist: seq<Program>, readers: map<nat, Reader>)
  {
    function Seq(): nat { ticks % U64 }
  }

  datatype Event =
    | Begin(prog: Program)
    | StoreNext
    | End
    | Call(id: nat, discipline: Discipline, addrs: seq<nat>, garbage: nat, temps: seq<Word>)
    | ReadStep(id: nat)

  function Initial(mem: seq<Word>): State {
    State(mem, mem, 0, Idle, [], map[])
  }

  predicate Enabled(s: State, e: Event) {
    match e
    case Begin(_) => s.writer.Idle?
    case StoreNext => s.writer.Writing? && s.writer.done < |s.writer.prog|
    case End => s.writer.Writing? && s.writer.done == |s.writer.prog|
    case Call(_, _, addrs, _, temps) => |temps| == |addrs|
    case ReadStep(id) => id in s.readers && !s.readers[id].pc.Exited? && !s.readers[id].pc.GaveUp?
  }

  /** One step of a reader against the current memory and counter. */
  function Advance(r: Reader, s: State): Reader {
    match r.pc
    case LoadFirst =>
      if r.discipline.Restart? && r.attempts >= r.discipline.limit then r.(pc := GaveUp)
      else
        var r1 := r.(seq1 := s.Seq(), tick1 := s.ticks);
        if s.Seq() % 2 == 0 then r1.(pc := Reading(0))
        else if r.discipline.DoWhile? then r1.(pc := Compare)
        else r1.(attempts := r.attempts + 1, missed := r.missed + [InProgress(s.ticks)])
    case Reading(k) =>
      if k < |r.addrs| && k < |r.temps| then
        r.(temps := r.temps[k := Fetch(s.mem, r.addrs[k])], pc := Reading(k + 1))
      else
        r.(seq2 := s.Seq(), tick2 := s.ticks, loaded := true, pc := Compare)
    case Compare =>
      if r.seq1 == r.seq2 then r.(pc := Exited)
      else
        r.(attempts := r.attempts + 1, pc := LoadFirst,
           missed := r.missed + [if r.seq1 % 2 == 1 then InProgress(r.tick1) else Moved(r.tick1, r.tick2)])
    case _ => r
  }

  function Next(s: State, e: Event): State
    requires Enabled(s, e)
  {
    match e
    case Begin(prog) => s.(ticks := s.ticks + 1, writer := Writing(prog, 0))
    case StoreNext =>
      var w := s.writer;
      s.(mem := Put(s.mem, w.prog[w.done]), writer := w.(done := w.done + 1))
    case End => s.(ticks := s.ticks + 1, writer := Idle, hist := s.hist + [s.writer.prog])
    case Call(id, d, addrs, garbage, temps) =>
      s.(readers := s.readers[id := Reader(d, addrs, LoadFirst, 0, garbage, temps, 0, 0, 0, false, |s.hist|, [])])
    case ReadStep(id) => s.(readers := s.readers[id := Advance(s.readers[id], s)])
  }

  /** `Steps(s, es, t)`: the events lead from `s` to `t`, each enabled when it happens. */
  ghost predicate Steps(s: State, es: seq<Event>, t: State)
    decreases es
  {
    if es == [] then s == t
    else Enabled(s, es[0]) && Steps(Next(s, es[0]), es[1..], t)
  }

  // ----- what every step keeps -----

  ghost predicate WriterInv(s: State) {
    match s.writer
    case Idle => s.ticks == 2 * |s.hist| && s.mem == MemAfter(s.init, s.hist)
    case Writing(prog, done) =>
      && done <= |prog|
      && s.ticks == 2 * |s.hist| + 1
      && s.mem == Apply(MemAfter(s.init, s.hist), prog[..done])
  }

  /** The two loads of a finished attempt, and what the loads between them returned. */
  ghost predicate Attempted(r: Reader, s: State) {
    && r.seq1 == r.tick1 % U64
    && r.loaded && r.seq2 == r.tick2 % U64
    && 2 * r.born <= r.tick1 <= r.tick2 <= s.ticks
    && r.tick1 / 2 <= |s.hist|
    && (r.tick1 == r.tick2 ==> r.temps == FetchAll(MemAfter(s.init, s.hist[..r.tick1 / 2]), r.addrs))
  }

  ghost predicate ReaderInv(r: Reader, s: State) {
    && |r.temps| == |r.addrs|
    && 2 * r.born <= s.ticks
    && (r.loaded ==> r.seq2 == r.tick2 % U64 && r.tick2 <= s.ticks)
    && (r.pc.LoadFirst? || r.pc.GaveUp? ==> r.loaded ==> r.tick1 <= s.ticks)
    && (r.pc.Reading? ==>
          && r.pc.k <= |r.addrs|
          && r.seq1 % 2 == 0 && r.seq1 == r.tick1 % U64
          && 2 * r.born <= r.tick1 <= s.ticks
          && (s.ticks == r.tick1 ==> r.temps[..r.pc.k] == FetchAll(s.mem, r.addrs[..r.pc.k])))
    && (r.pc.Compare? || r.pc.Exited? ==>
          && (r.seq1 % 2 == 0 ==> Attempted(r, s))
          && (r.seq1 % 2 == 1 ==>
                && r.discipline.DoWhile?
                && r.seq1 == r.tick1 % U64
                && r.tick1 <= s.ticks
                && (r.loaded ==> r.tick2 <= r.tick1)))
    && (r.pc.Exited? ==> r.seq1 == r.seq2)
    && (r.discipline.Restart? ==>
          && r.attempts <= r.discipline.limit
          && (r.pc.Reading? || r.pc.Compare? || r.pc.Exited? ==> r.attempts < r.discipline.limit)
          && (r.pc.GaveUp? ==> r.attempts == r.discipline.limit))
  }

  ghost predicate Inv(s: State) {
    && WriterInv(s)
    && forall id :: id in s.readers ==> ReaderInv(s.readers[id], s)
  }

  lemma ApplyOne(mem: seq<Word>, prog: Program, k: nat)
    requires k < |prog|
    ensures Apply(mem, prog[..k + 1]) == Put(Apply(mem, prog[..k]), prog[k])
  {
    assert prog[..k + 1][..k] == prog[..k];
  }

  lemma SeqParity(ticks: nat)
    ensures ticks % U64 % 2 == ticks % 2
  {}

  lemma WriterKept(s: State, e: Event)
    requires Inv(s) && Enabled(s, e)
    ensures WriterInv(Next(s, e))
  {
    match e
    case Begin(prog) => assert prog[..0] == [];
    case StoreNext => ApplyOne(MemAfter(s.init, s.hist), s.writer.prog, s.writer.done);
    case End =>
      var t := Next(s, e);
      assert s.writer.prog[..|s.writer.prog|] == s.writer.prog;
      assert t.hist[..|t.hist| - 1] == s.hist;
    case _ =>
  }

  /** Steps of the writer cannot spoil what a reader already knows. */
  lemma ReaderUntouched(r: Reader, s: State, e: Event)
    requires Inv(s) && Enabled(s, e) && ReaderInv(r, s)
    ensures ReaderInv(r, Next(s, e))
  {
    var t := Next(s, e);
    if (r.pc.Compare? || r.pc.Exited?) && r.seq1 % 2 == 0 {
      assert t.hist[..r.tick1 / 2] == s.hist[..r.tick1 / 2];
    }
    if r.pc.Reading? {
      SeqParity(r.tick1);
    }
  }

  lemma LoadFirstKept(r: Reader, s: State)
    requires Inv(s) && ReaderInv(r, s) && r.pc.LoadFirst?
    ensures ReaderInv(Advance(r, s), s)
  {
    var r' := Advance(r, s);
    if r'.pc.Reading? {
      assert r'.temps[..0] == FetchAll(s.mem, r'.addrs[..0]);
    }
  }

  lemma ReadingKept(r: Reader, s: State)
    requires Inv(s) && ReaderInv(r, s) && r.pc.Reading?
    ensures ReaderInv(Advance(r, s), s)
  {
    var k := r.pc.k;
    var r' := Advance(r, s);
    SeqParity(r.tick1);
    if k < |r.addrs| {
      if s.ticks == r.tick1 {
        assert r'.temps[..k + 1] == r.temps[..k] + [Fetch(s.mem, r.addrs[k])];
        assert r.addrs[..k + 1] == r.addrs[..k] + [r.addrs[k]];
        assert FetchAll(s.mem, r.addrs[..k + 1]) == FetchAll(s.mem, r.addrs[..k]) + [Fetch(s.mem, r.addrs[k])];
      }
    } else if s.ticks == r.tick1 {
      assert s.writer.Idle?;
      assert s.hist[..|s.hist|] == s.hist;
      assert r.temps[..k] == r.temps && r.addrs[..k] == r.addrs;
    }
  }

  lemma ReaderKept(s: State, id: nat)
    requires Inv(s) && Enabled(s, ReadStep(id))
    ensures ReaderInv(Next(s, ReadStep(id)).readers[id], Next(s, ReadStep(id)))
  {
    var r := s.readers[id];
    match r.pc
    case LoadFirst => LoadFirstKept(r, s);
    case Reading(_) => ReadingKept(r, s);
    case _ =>
  }

  /** Every step of every actor keeps the invariant. */
  lemma StepKeepsInv(s: State, e: Event)
    requires Inv(s) && Enabled(s, e)
    ensures Inv(Next(s, e))
  {
    WriterKept(s, e);
    var t := Next(s, e);
    forall id | id in t.readers
      ensures ReaderInv(t.readers[id], t)
    {
      if e.ReadStep? && e.id == id {
        ReaderKept(s, id);
      } else if id in s.readers && t.readers[id] == s.readers[id] {
        ReaderUntouched(s.readers[id], s, e);
      }
    }
  }

  lemma {:induction false} RunKeepsInv(s: State, es: seq<Event>, t: State)
    requires Inv(s) && Steps(s, es, t)
    ensures Inv(t)
    ensures t.init == s.init && |s.hist| <= |t.hist| && s.hist == t.hist[..|s.hist|]
    decreases es
  {
    if es != [] {
      StepKeepsInv(s, es[0]);
      RunKeepsInv(Next(s, es[0]), es[1..], t);
    }
  }

  /** States some interleaving leads to, from idle with memory `mem`. */
  ghost predicate Reachable(mem: seq<Word>, t: State) {
    exists es :: Steps(Initial(mem), es, t)
  }

  lemma ReachableInv(mem: seq<Word>, t: State)
    requires Reachable(mem, t)
    ensures Inv(t) && t.init == mem
  {
    var es :| Steps(Initial(mem), es, t);
    RunKeepsInv(Initial(mem), es, t);
  }

  // ----- what a reader may conclude -----

  /** Reader `id` has left its loop with an even first load, and the 64-bit counter did not run all the
      way round between the two loads. */
  ghost predicate EvenExit(mem: seq<Word>, t: State, id: nat) {
    && Reachable(mem, t)
    && id in t.readers && t.readers[id].pc.Exited? && t.readers[id].seq1 % 2 == 0
    && t.readers[id].tick2 - t.readers[id].tick1 < U64
  }

  lemma SameResidue(a: nat, b: nat)
    requires a <= b && b - a < U64 && a % U64 == b % U64
    ensures a == b
  {}

  /** Snapshot theorem. In every interleaving, a read that exits with an even first load returns exactly
      what the first n complete writes left in memory, for one n between the writes complete when the
      call began and those complete now, and n is the number the counter shows. */
  lemma Snapshot(mem: seq<Word>, t: State, id: nat)
    requires EvenExit(mem, t, id)
    ensures var r := t.readers[id];
            var n := r.tick1 / 2;
            && r.tick1 == 2 * n && r.seq1 == 2 * n % U64
            && r.born <= n <= |t.hist|
            && r.temps == FetchAll(MemAfter(mem, t.hist[..n]), r.addrs)
  {
    ReachableInv(mem, t);
    var r := t.readers[id];
    assert ReaderInv(r, t);
    SameResidue(r.tick1, r.tick2);
    SeqParity(r.tick1);
  }

  /** A reader that truly restarts never exits on an odd load, so every value it returns is a snapshot;
      it makes at most `limit` attempts and gives up only after all of them. */
  lemma RestartAlwaysSnapshots(mem: seq<Word>, t: State, id: nat)
    requires Reachable(mem, t)
    requires id in t.readers && t.readers[id].discipline.Restart?
    ensures t.readers[id].pc.Exited? ==> t.readers[id].seq1 % 2 == 0
    ensures t.readers[id].attempts <= t.readers[id].discipline.limit
    ensures t.readers[id].pc.GaveUp? ==> t.readers[id].attempts == t.readers[id].discipline.limit
  {
    ReachableInv(mem, t);
    assert ReaderInv(t.readers[id], t);
  }

  /** The second variable agrees with an odd first load: it was assigned while the counter showed the same value,
      inside the very write now found in progress unless the counter ran all the way round since; or it was
      never assigned and holds that value by chance. */
  predicate StaleMatch(r: Reader) {
    if r.loaded then r.tick1 % U64 == r.tick2 % U64 else r.seq2 == r.seq1
  }

  /** Exactly when the do-while reader, having just found a write in progress, leaves its loop without a
      snapshot. */
  lemma OddExitIff(mem: seq<Word>, t: State, id: nat)
    requires Reachable(mem, t)
    requires id in t.readers && t.readers[id].pc.Compare? && t.readers[id].seq1 % 2 == 1
    ensures Enabled(t, ReadStep(id))
    ensures Next(t, ReadStep(id)).readers[id].pc.Exited? <==> StaleMatch(t.readers[id])
    ensures t.readers[id].discipline.DoWhile?
  {
    ReachableInv(mem, t);
    assert ReaderInv(t.readers[id], t);
  }

  /** Within one turn of the counter a match with an assigned variable means the same write. */
  lemma StaleMatchIsSameWrite(r: Reader)
    requires r.loaded && r.tick2 <= r.tick1 < r.tick2 + U64
    ensures StaleMatch(r) <==> r.tick1 == r.tick2
  {
    if StaleMatch(r) {
      SameResidue(r.tick2, r.tick1);
    }
  }

  /** Every exit of every reader: a snapshot, or the do-while reader's stale match. */
  lemma ExitIsSnapshotOrStale(mem: seq<Word>, t: State, id: nat)
    requires Reachable(mem, t) && id in t.readers && t.readers[id].pc.Exited?
    ensures var r := t.readers[id];
            if r.seq1 % 2 == 0 then r.loaded && r.tick1 <= r.tick2 && r.tick1 % U64 == r.tick2 % U64
            else r.discipline.DoWhile? && StaleMatch(r)
  {
    ReachableInv(mem, t);
    assert ReaderInv(t.readers[id], t);
  }

  lemma {:induction false} BornAfter(s: State, es: seq<Event>, t: State, id: nat, bound: nat)
    requires Steps(s, es, t) && bound <= |s.hist|
    requires id in s.readers && bound <= s.readers[id].born
    ensures id in t.readers && bound <= t.readers[id].born
    decreases es
  {
    if es != [] {
      BornAfter(Next(s, es[0]), es[1..], t, id, bound);
    }
  }

  /** Reads are ordered like the calls: a call that begins after another read has exited returns a write
      at least as late. */
  lemma LaterCallsSeeLaterWrites(
    mem: seq<Word>, s: State, id1: nat, call: Event, es2: seq<Event>, t: State)
    requires EvenExit(mem, s, id1)
    requires call.Call? && Enabled(s, call) && Steps(Next(s, call), es2, t)
    requires call.id in t.readers && t.readers[call.id].pc.Exited? && t.readers[call.id].seq1 % 2 == 0
    ensures s.readers[id1].tick1 / 2 <= t.readers[call.id].tick1 / 2
  {
    Snapshot(mem, s, id1);
    ReachableInv(mem, s);
    StepKeepsInv(s, call);
    RunKeepsInv(Next(s, call), es2, t);
    BornAfter(Next(s, call), es2, t, call.id, |s.hist|);
    assert ReaderInv(t.readers[call.id], t);
  }

  // ----- a reader answers -----

  /** The counter was odd, or moved between the two loads, at times in the given range. */
  predicate Disturbed(m: Miss, from: nat, to: nat) {
    from <= m.at <= to && (if m.InProgress? then m.at % 2 == 1 else m.at < m.to <= to)
  }

  lemma Undisturbed(m: Miss, n: nat)
    ensures !Disturbed(m, 2 * n, 2 * n)
  {}

  /** Every failed attempt of a reader was disturbed by a write, since the call began. */
  ghost predicate MissInv(r: Reader, s: State) {
    && |r.missed| == r.attempts
    && (forall i :: 0 <= i < |r.missed| ==> Disturbed(r.missed[i], 2 * r.born, s.ticks))
    && (r.pc.GaveUp? ==> r.discipline.Restart?)
  }

  ghost predicate MissesOk(s: State) {
    forall id :: id in s.readers ==> MissInv(s.readers[id], s) && FirstLoadInv(s.readers[id], s)
  }

  /** A first load that was odd was made during the call. */
  ghost predicate FirstLoadInv(r: Reader, s: State) {
    r.pc.Compare? ==> 2 * r.born <= r.tick1 <= s.ticks
  }

  lemma AdvanceMisses(r: Reader, s: State)
    requires ReaderInv(r, s) && MissInv(r, s) && FirstLoadInv(r, s)
    ensures MissInv(Advance(r, s), s) && FirstLoadInv(Advance(r, s), s)
  {
    SeqParity(s.ticks);
    if r.pc.Compare? {
      SeqParity(r.tick1);
    }
  }

  lemma MissesKept(s: State, e: Event)
    requires Inv(s) && MissesOk(s) && Enabled(s, e)
    ensures MissesOk(Next(s, e))
  {
    var t := Next(s, e);
    forall id | id in t.readers ensures MissInv(t.readers[id], t) && FirstLoadInv(t.readers[id], t) {
      if e.ReadStep? && e.id == id {
        AdvanceMisses(s.readers[id], s);
      }
    }
  }

  lemma {:induction false} RunMisses(s: State, es: seq<Event>, t: State)
    requires Inv(s) && MissesOk(s) && Steps(s, es, t)
    ensures MissesOk(t)
    decreases es
  {
    if es != [] {
      StepKeepsInv(s, es[0]);
      MissesKept(s, es[0]);
      RunMisses(Next(s, es[0]), es[1..], t);
    }
  }

  /** In every interleaving each attempt a reader has failed was disturbed by a write in progress when it began or
      between its two loads; so a reader that gives up was disturbed as often as it may try, and without a write
      since its call none of its attempts fails. */
  lemma OnlyWritesDisturb(mem: seq<Word>, t: State, id: nat)
    requires Reachable(mem, t) && id in t.readers
    ensures var r := t.readers[id];
            && |r.missed| == r.attempts
            && (forall i :: 0 <= i < |r.missed| ==> Disturbed(r.missed[i], 2 * r.born, t.ticks))
            && (r.pc.GaveUp? ==> r.discipline.Restart? && r.attempts == r.discipline.limit)
            && (t.ticks == 2 * r.born ==> r.attempts == 0)
  {
    var es :| Steps(Initial(mem), es, t);
    RunMisses(Initial(mem), es, t);
    ReachableInv(mem, t);
    assert ReaderInv(t.readers[id], t);
    assert MissInv(t.readers[id], t);
    if t.readers[id].attempts > 0 {
      Undisturbed(t.readers[id].missed[0], t.readers[id].born);
    }
  }

  function Alone(id: nat, k: nat): seq<Event> {
    if k == 0 then [] else [ReadStep(id)] + Alone(id, k - 1)
  }

  function WithReader(s: State, id: nat, r: Reader): State { s.(readers := s.readers[id := r]) }

  lemma AloneStep(s: State, id: nat, r: Reader, k: nat, t: State)
    requires Enabled(WithReader(s, id, r), ReadStep(id))
    requires Steps(WithReader(s, id, Advance(r, s)), Alone(id, k), t)
    ensures Steps(WithReader(s, id, r), Alone(id, k + 1), t)
  {
    var s1 := WithReader(s, id, r);
    assert Next(s1, ReadStep(id)) == WithReader(s, id, Advance(r, s)) by {
      assert s.readers[id := r][id := Advance(r, s)] == s.readers[id := Advance(r, s)];
      SameAdvance(r, s, s1);
    }
    assert Alone(id, k + 1)[1..] == Alone(id, k);
  }

  /** A step of a reader depends on the memory and the counter alone. */
  lemma SameAdvance(r: Reader, s: State, t: State)
    requires s.mem == t.mem && s.ticks == t.ticks
    ensures Advance(r, s) == Advance(r, t)
  {}

  /** The reader after an undisturbed attempt. */
  function Answered(r: Reader, s: State): Reader {
    r.(pc := Exited, seq1 := s.Seq(), tick1 := s.ticks, seq2 := s.Seq(), tick2 := s.ticks, loaded := true,
       temps := FetchAll(s.mem, r.addrs))
  }

  lemma AloneCompares(s: State, id: nat, r: Reader)
    requires |r.temps| == |r.addrs| && r.pc == Reading(|r.addrs|) && r.seq1 == s.Seq() && r.tick1 == s.ticks
    requires r.temps[..|r.addrs|] == FetchAll(s.mem, r.addrs[..|r.addrs|])
    ensures Steps(WithReader(s, id, r), Alone(id, 2), WithReader(s, id, Answered(r, s)))
  {
    var r1 := Advance(r, s);
    var t := WithReader(s, id, Answered(r, s));
    assert r.temps[..|r.addrs|] == r.temps && r.addrs[..|r.addrs|] == r.addrs;
    assert Advance(r1, s) == Answered(r, s);
    AloneStep(s, id, r1, 0, t);
    AloneStep(s, id, r, 1, t);
  }

  lemma {:induction false} AloneLoads(s: State, id: nat, r: Reader, k: nat)
    requires |r.temps| == |r.addrs| && k <= |r.addrs| && r.pc == Reading(|r.addrs| - k)
    requires r.seq1 == s.Seq() && r.tick1 == s.ticks
    requires r.temps[..|r.addrs| - k] == FetchAll(s.mem, r.addrs[..|r.addrs| - k])
    ensures Steps(WithReader(s, id, r), Alone(id, k + 2), WithReader(s, id, Answered(r, s)))
    decreases k
  {
    if k == 0 {
      AloneCompares(s, id, r);
    } else {
      OneLoad(r, s, |r.addrs| - k);
      AloneLoads(s, id, Advance(r, s), k - 1);
      AloneStep(s, id, r, k + 1, WithReader(s, id, Answered(r, s)));
    }
  }

  lemma OneLoad(r: Reader, s: State, i: nat)
    requires |r.temps| == |r.addrs| && i < |r.addrs| && r.pc == Reading(i)
    requires r.temps[..i] == FetchAll(s.mem, r.addrs[..i])
    ensures var r1 := Advance(r, s);
            && r1.pc == Reading(i + 1) && |r1.temps| == |r1.addrs|
            && r1.temps[..i + 1] == FetchAll(s.mem, r1.addrs[..i + 1])
            && Answered(r1, s) == Answered(r, s)
  {
    var r1 := Advance(r, s);
    assert r1.temps[..i + 1] == r.temps[..i] + [Fetch(s.mem, r.addrs[i])];
    assert r.addrs[..i + 1] == r.addrs[..i] + [r.addrs[i]];
  }

  lemma AloneAnswers(s: State, id: nat, r: Reader)
    requires |r.temps| == |r.addrs| && r.pc.LoadFirst? && s.ticks % 2 == 0
    requires r.discipline.Restart? ==> r.attempts < r.discipline.limit
    ensures Steps(WithReader(s, id, r), Alone(id, |r.addrs| + 3), WithReader(s, id, Answered(r, s)))
  {
    SeqParity(s.ticks);
    var r1 := Advance(r, s);
    assert r1.temps[..0] == FetchAll(s.mem, r1.addrs[..0]);
    AloneLoads(s, id, r1, |r.addrs|);
    assert Answered(r1, s) == Answered(r, s);
    AloneStep(s, id, r, |r.addrs| + 2, WithReader(s, id, Answered(r, s)));
  }

  /** From every reachable state without a write in progress, a reader about to begin an attempt and left alone leaves
      its loop in that attempt, after one step per load and three more, with what the completed writes left in
      memory. */
  lemma ReaderAnswers(mem: seq<Word>, t: State, id: nat) returns (u: State)
    requires Reachable(mem, t) && t.writer.Idle?
    requires id in t.readers && t.readers[id].pc.LoadFirst?
    requires t.readers[id].discipline.Restart? ==> t.readers[id].attempts < t.readers[id].discipline.limit
    ensures Steps(t, Alone(id, |t.readers[id].addrs| + 3), u)
    ensures u.hist == t.hist && u.mem == t.mem && id in u.readers
    ensures u.readers[id].temps == FetchAll(MemAfter(mem, t.hist), t.readers[id].addrs)
    ensures u.readers[id].tick1 == 2 * |t.hist| && u.readers[id].attempts == t.readers[id].attempts
    ensures u.readers[id].addrs == t.readers[id].addrs && u.readers[id].born == t.readers[id].born
    ensures EvenExit(mem, u, id)
  {
    ReachableInv(mem, t);
    var r := t.readers[id];
    assert ReaderInv(r, t);
    u := WithReader(t, id, Answered(r, t));
    AloneAnswers(t, id, r);
    assert WithReader(t, id, r) == t by {
      assert t.readers[id := r] == t.readers;
    }
    ReachableMore(mem, t, Alone(id, |r.addrs| + 3), u);
    SeqParity(t.ticks);
  }

  /** From every reachable state without a write in progress a call of either kind answers at its first attempt, if no
      write begins meanwhile. */
  lemma CallAnswers(mem: seq<Word>, t: State, call: Event) returns (u: State)
    requires Reachable(mem, t) && t.writer.Idle? && call.Call? && Enabled(t, call)
    requires call.discipline.Restart? ==> call.discipline.limit > 0
    ensures Steps(t, [call] + Alone(call.id, |call.addrs| + 3), u)
    ensures u.hist == t.hist && u.mem == t.mem && call.id in u.readers
    ensures u.readers[call.id].temps == FetchAll(MemAfter(mem, t.hist), call.addrs)
    ensures u.readers[call.id].attempts == 0 && u.readers[call.id].tick1 == 2 * |t.hist|
    ensures EvenExit(mem, u, call.id)
  {
    var s := Extend(mem, t, call);
    u := ReaderAnswers(mem, s, call.id);
    assert Steps(t, [call], s);
    StepsJoin(t, [call], s, Alone(call.id, |call.addrs| + 3), u);
  }

  // ----- the writer alone -----

  function Stores(k: nat): seq<Event> {
    if k == 0 then [] else [StoreNext] + Stores(k - 1)
  }

  /** The writer alone: a write that nothing interrupts advances the counter by two and applies its stores. */
  lemma {:induction false} UninterruptedStores(s: State, k: nat)
    requires WriterInv(s) && s.writer.Writing? && s.writer.done + k == |s.writer.prog|
    ensures Steps(s, Stores(k),
                  s.(mem := Apply(MemAfter(s.init, s.hist), s.writer.prog),
                     writer := s.writer.(done := |s.writer.prog|)))
    decreases k
  {
    var prog := s.writer.prog;
    if k == 0 {
      assert prog[..s.writer.done] == prog;
    } else {
      ApplyOne(MemAfter(s.init, s.hist), prog, s.writer.done);
      UninterruptedStores(Next(s, StoreNext), k - 1);
      assert Stores(k)[1..] == Stores(k - 1);
    }
  }

  lemma {:induction false} StepsJoin(s: State, es: seq<Event>, t: State, fs: seq<Event>, u: State)
    requires Steps(s, es, t) && Steps(t, fs, u)
    ensures Steps(s, es + fs, u)
    decreases es
  {
    if es == [] {
      assert es + fs == fs;
    } else {
      assert (es + fs)[1..] == es[1..] + fs;
      StepsJoin(Next(s, es[0]), es[1..], t, fs, u);
    }
  }

  lemma ReachableMore(mem: seq<Word>, t: State, fs: seq<Event>, u: State)
    requires Reachable(mem, t) && Steps(t, fs, u)
    ensures Reachable(mem, u)
  {
    var es :| Steps(Initial(mem), es, t);
    StepsJoin(Initial(mem), es, t, fs, u);
  }

  lemma Extend(mem: seq<Word>, t: State, e: Event) returns (t': State)
    requires Reachable(mem, t) && Enabled(t, e)
    ensures t' == Next(t, e) && Reachable(mem, t')
  {
    t' := Next(t, e);
    assert Steps(t, [e], t');
    ReachableMore(mem, t, [e], t');
  }

  function WriteEvents(prog: Program): seq<Event> {
    [Begin(prog)] + Stores(|prog|) + [End]
  }

  lemma UninterruptedWrite(s: State, prog: Program)
    requires WriterInv(s) && s.writer.Idle?
    ensures Steps(s, WriteEvents(prog),
                  s.(mem := Apply(s.mem, prog), ticks := s.ticks + 2, hist := s.hist + [prog]))
  {
    var begun := Next(s, Begin(prog));
    assert prog[..0] == [];
    UninterruptedStores(begun, |prog|);
    var stored := begun.(mem := Apply(s.mem, prog), writer := Writing(prog, |prog|));
    var stores := Stores(|prog|);
    assert Steps(s, [Begin(prog)], begun);
    assert Steps(stored, [End], Next(stored, End));
    StepsJoin(s, [Begin(prog)], begun, stores, stored);
    StepsJoin(s, [Begin(prog)] + stores, stored, [End], Next(stored, End));
  }
}
