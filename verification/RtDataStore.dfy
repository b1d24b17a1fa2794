/** RTDataStore: typed values in a 32-byte union, a type tag and a timestamp, guarded by a seqlock.
    Values are byte images, so a torn read or a read of the wrong union member is a different value. */
module RtDataStore {
  import opened Common
  import opened Seqlock

  datatype DataType = NONE | INT32 | FLOAT | DOUBLE | UINT64 | STRING {
    function Code(): (c: int)
    {
      match this
      case NONE => 0
      case INT32 => 1
      case FLOAT => 2
      case DOUBLE => 3
      case UINT64 => 4
      case STRING => 5
    }

    /** Bytes of the union member a getter of this type loads. */
    function Width(): nat {
      match this
      case NONE => 0
      case INT32 => 4
      case FLOAT => 4
      case DOUBLE => 8
      case UINT64 => 8
      case STRING => 32
    }
  }

  const MAX_KEYS: nat := 512
  const UNION_BYTES: nat := 32
  const TYPE_CELL: nat := 32
  const TIME_CELL: nat := 33
  const SLOT_WORDS: nat := 34
  const TEXT_LIMIT: nat := 31

  const ZERO_SLOT: seq<Word> := seq(SLOT_WORDS, _ => 0)

  function Min(a: nat, b: nat): nat { if a < b then a else b }

  function Take(s: seq<Word>, k: nat): seq<Word> { s[..Min(k, |s|)] }

  // ----- what a setter stores -----

  datatype Write =
    | Scalar(kind: DataType, image: seq<Word>, at: Word)
    | Text(text: seq<Word>, at: Word)
  {
    predicate Valid() {
      Scalar? ==> kind != NONE && kind != STRING && |image| == kind.Width()
    }

    function Kind(): DataType { if Scalar? then kind else STRING }

    /** The union bytes written: a scalar's image, or at most 31 characters and a terminator. */
    function Bytes(): seq<Word> {
      if Scalar? then image else text[..Min(|text|, TEXT_LIMIT)] + [0]
    }

    /** Value, then type, then timestamp. */
    function Stores(): Program {
      WordStores(Bytes()) + [Store(TYPE_CELL, Kind().Code()), Store(TIME_CELL, at)]
    }
  }

  // ----- what a getter loads and returns -----

  /** A getter loads the type first, then its union member. */
  function Probe(kind: DataType): seq<nat> {
    [TYPE_CELL] + seq(kind.Width(), i => i)
  }

  function ScalarResult(kind: DataType, temps: seq<Word>): Option<seq<Word>> {
    if temps != [] && temps[0] == kind.Code() then Some(temps[1..]) else None
  }

  /** The characters put into a caller's buffer of `size` bytes, terminator included. */
  function TextResult(temps: seq<Word>, size: nat): Option<seq<Word>>
    requires size > 0
  {
    if temps != [] && temps[0] == STRING.Code() then Some(Take(temps[1..], Min(size - 1, TEXT_LIMIT)) + [0])
    else None
  }

  /** A buffer read as a C string: the characters before the first zero. */
  function CString(s: seq<Word>): (r: seq<Word>)
    ensures |r| <= |s|
  {
    if s == [] || s[0] == 0 then [] else [s[0]] + CString(s[1..])
  }

  /** What a string getter should report of the last write, if there was one. */
  ghost predicate ReportsText(out: Option<seq<Word>>, last: Option<Write>, size: nat)
    requires size > 0
  {
    && (out.Some? <==> last.Some? && last.value.Text?)
    && (out.Some? ==> CString(out.value) == Take(CString(last.value.text), Min(size - 1, TEXT_LIMIT)))
  }

  // ----- effect of one write on a slot -----

  lemma ApplyTwo(mem: seq<Word>, prog: Program, a: Store, b: Store)
    ensures Apply(mem, prog + [a, b]) == Put(Put(Apply(mem, prog), a), b)
  {
    var two := prog + [a, b];
    assert two[..|prog| + 1] == prog + [a];
    assert (prog + [a])[..|prog|] == prog;
  }

  lemma PutTail(mem: seq<Word>, bytes: seq<Word>, code: Word, at: Word)
    requires |mem| == SLOT_WORDS && |bytes| <= UNION_BYTES
    ensures (bytes + mem[|bytes|..])[TYPE_CELL := code][TIME_CELL := at]
         == bytes + mem[|bytes|..UNION_BYTES] + [code, at]
  {}

  lemma WriteEffect(mem: seq<Word>, w: Write)
    requires |mem| == SLOT_WORDS && w.Valid()
    ensures |w.Bytes()| <= UNION_BYTES
    ensures w.Scalar? ==> |w.Bytes()| == if w.kind == INT32 || w.kind == FLOAT then 4 else 8
    ensures Apply(mem, w.Stores())
         == w.Bytes() + mem[|w.Bytes()|..UNION_BYTES] + [w.Kind().Code(), w.at]
  {
    ApplyTwo(mem, WordStores(w.Bytes()), Store(TYPE_CELL, w.Kind().Code()), Store(TIME_CELL, w.at));
    ApplyWords(mem, w.Bytes());
    PutTail(mem, w.Bytes(), w.Kind().Code(), w.at);
  }

  /** What a getter's loads return: the type cell and a prefix of the union. */
  lemma ProbeLoads(mem: seq<Word>, kind: DataType)
    requires |mem| == SLOT_WORDS
    ensures FetchAll(mem, Probe(kind)) == [mem[TYPE_CELL]] + mem[..kind.Width()]
  {}

  /** Reading back a write: the image if the types agree, an error otherwise, whatever was there before. */
  lemma ScalarReadBack(mem: seq<Word>, w: Write, kind: DataType)
    requires |mem| == SLOT_WORDS && w.Valid() && kind != NONE && kind != STRING
    ensures ScalarResult(kind, FetchAll(Apply(mem, w.Stores()), Probe(kind)))
         == if w.Kind() == kind then Some(w.Bytes()) else None
  {
    WriteEffect(mem, w);
    ProbeLoads(Apply(mem, w.Stores()), kind);
    if w.Kind() == kind {
      assert Apply(mem, w.Stores())[..kind.Width()] == w.Bytes();
    }
  }

  /** Cutting a buffer, or ending it early with a zero, cuts its C string. */
  lemma {:induction false} CStringCut(s: seq<Word>, k: nat, rest: seq<Word>)
    requires k <= |s| && (rest == [] || rest[0] == 0)
    ensures CString(s[..k] + rest) == Take(CString(s), k)
  {
    if k > 0 && s[0] != 0 {
      CStringCut(s[1..], k - 1, rest);
      assert (s[..k] + rest)[1..] == s[1..][..k - 1] + rest;
    } else if k > 0 {
      assert (s[..k] + rest)[0] == 0;
    }
  }

  lemma TextCut(text: seq<Word>, rest: seq<Word>, m: nat, k: nat)
    requires m == Min(|text|, TEXT_LIMIT) && k <= TEXT_LIMIT && k <= m + |rest|
    requires rest != [] && rest[0] == 0
    ensures CString((text[..m] + rest)[..k] + [0]) == Take(CString(text), k)
  {
    CStringCut(text, m, rest);
    CStringCut(text[..m] + rest, k, [0]);
  }

  lemma StoredText(mem: seq<Word>, w: Write) returns (m: nat, rest: seq<Word>)
    requires |mem| == SLOT_WORDS && w.Valid() && w.Text?
    ensures m == Min(|w.text|, TEXT_LIMIT) && rest != [] && rest[0] == 0 && m + |rest| == UNION_BYTES
    ensures |Apply(mem, w.Stores())| == SLOT_WORDS
    ensures Apply(mem, w.Stores())[..UNION_BYTES] == w.text[..m] + rest
  {
    WriteEffect(mem, w);
    m := Min(|w.text|, TEXT_LIMIT);
    rest := [0] + mem[m + 1..UNION_BYTES];
  }

  /** Reading back a string: the C string written, cut to 31 characters and to the caller's buffer; bytes
      left over from earlier values never show. */
  lemma TextReadBack(mem: seq<Word>, w: Write, size: nat)
    requires |mem| == SLOT_WORDS && w.Valid() && size > 0
    ensures ReportsText(TextResult(FetchAll(Apply(mem, w.Stores()), Probe(STRING)), size), Some(w), size)
  {
    WriteEffect(mem, w);
    var after := Apply(mem, w.Stores());
    ProbeLoads(after, STRING);
    assert FetchAll(after, Probe(STRING))[1..] == after[..UNION_BYTES];
    if w.Text? {
      var m, rest := StoredText(mem, w);
      TextCut(w.text, rest, m, Min(size - 1, TEXT_LIMIT));
    } else {
      assert w.Kind() != STRING;
    }
  }

  // ----- typed reads in every interleaving -----

  ghost predicate WrittenBy(hist: seq<Program>, ws: seq<Write>) {
    && |hist| == |ws|
    && forall i :: 0 <= i < |ws| ==> ws[i].Valid() && hist[i] == ws[i].Stores()
  }

  lemma {:induction false} SlotSize(mem: seq<Word>, prog: Program)
    ensures |Apply(mem, prog)| == |mem|
  {
    if prog != [] {
      SlotSize(mem, prog[..|prog| - 1]);
    }
  }

  lemma {:induction false} HistorySize(mem: seq<Word>, hist: seq<Program>)
    ensures |MemAfter(mem, hist)| == |mem|
  {
    if hist != [] {
      HistorySize(mem, hist[..|hist| - 1]);
      SlotSize(MemAfter(mem, hist[..|hist| - 1]), hist[|hist| - 1]);
    }
  }

  lemma LastWriteDecides(hist: seq<Program>, ws: seq<Write>, n: nat)
    requires WrittenBy(hist, ws) && 0 < n <= |ws|
    ensures |MemAfter(ZERO_SLOT, hist[..n - 1])| == SLOT_WORDS
    ensures MemAfter(ZERO_SLOT, hist[..n]) == Apply(MemAfter(ZERO_SLOT, hist[..n - 1]), ws[n - 1].Stores())
  {
    HistorySize(ZERO_SLOT, hist[..n - 1]);
    assert hist[..n][..n - 1] == hist[..n - 1];
  }

  /** The last completed write alone decides what a snapshot read loads: nothing, or write `n` over
      whatever was there before. */
  lemma SnapshotOfLastWrite(t: State, id: nat, ws: seq<Write>) returns (n: nat, prev: seq<Word>)
    requires EvenExit(ZERO_SLOT, t, id) && WrittenBy(t.hist, ws)
    ensures t.readers[id].seq1 == 2 * n % U64
    ensures n == t.readers[id].tick1 / 2 && t.readers[id].born <= n <= |ws|
    ensures n == 0 ==> t.readers[id].temps == FetchAll(ZERO_SLOT, t.readers[id].addrs)
    ensures n > 0 ==> |prev| == SLOT_WORDS && ws[n - 1].Valid()
    ensures n > 0 ==> t.readers[id].temps == FetchAll(Apply(prev, ws[n - 1].Stores()), t.readers[id].addrs)
  {
    Snapshot(ZERO_SLOT, t, id);
    n, prev := t.readers[id].tick1 / 2, ZERO_SLOT;
    if n > 0 {
      prev := MemAfter(ZERO_SLOT, t.hist[..n - 1]);
      LastWriteDecides(t.hist, ws, n);
    } else {
      assert t.hist[..n] == [];
    }
  }

  lemma NothingWritten(kind: DataType, size: nat)
    requires kind != NONE && size > 0
    ensures ScalarResult(kind, FetchAll(ZERO_SLOT, Probe(kind))) == None
    ensures TextResult(FetchAll(ZERO_SLOT, Probe(STRING)), size) == None
  {}

  /** What the getter for `kind` should report when `n` of the writes `ws` are complete. */
  function Expected(kind: DataType, ws: seq<Write>, n: nat): Option<seq<Word>> {
    if 0 < n <= |ws| && ws[n - 1].Kind() == kind then Some(ws[n - 1].Bytes()) else None
  }

  /** In every interleaving of the setters of one key with any number of getters, a typed read that exits
      on an even counter reports exactly write number seq1/2: its image if the types agree, an error if
      they do not or if nothing was written. */
  lemma TypedSnapshot(t: State, id: nat, ws: seq<Write>, kind: DataType) returns (n: nat)
    requires EvenExit(ZERO_SLOT, t, id) && WrittenBy(t.hist, ws)
    requires kind != NONE && kind != STRING && t.readers[id].addrs == Probe(kind)
    ensures t.readers[id].seq1 == 2 * n % U64 && t.readers[id].born <= n <= |ws|
    ensures ScalarResult(kind, t.readers[id].temps) == Expected(kind, ws, n)
  {
    var prev;
    n, prev := SnapshotOfLastWrite(t, id, ws);
    if n > 0 {
      ScalarReadBack(prev, ws[n - 1], kind);
    } else {
      NothingWritten(kind, 1);
    }
  }

  /** The same for strings: the C string of write number seq1/2, cut to the buffer. */
  lemma TextSnapshot(t: State, id: nat, ws: seq<Write>, size: nat) returns (n: nat)
    requires EvenExit(ZERO_SLOT, t, id) && WrittenBy(t.hist, ws) && size > 0
    requires t.readers[id].addrs == Probe(STRING)
    ensures t.readers[id].seq1 == 2 * n % U64 && t.readers[id].born <= n <= |ws|
    ensures ReportsText(TextResult(t.readers[id].temps, size), if n > 0 then Some(ws[n - 1]) else None, size)
  {
    var prev;
    n, prev := SnapshotOfLastWrite(t, id, ws);
    if n > 0 {
      TextReadBack(prev, ws[n - 1], size);
    } else {
      NothingWritten(STRING, size);
    }
  }

  /** A typed read that no write disturbs answers, with the last write, at its first attempt: from every reachable
      state without a write in progress. */
  lemma TypedReadAnswers(t: State, call: Event, ws: seq<Write>, kind: DataType) returns (u: State)
    requires Reachable(ZERO_SLOT, t) && t.writer.Idle? && WrittenBy(t.hist, ws)
    requires call.Call? && Enabled(t, call) && call.discipline.DoWhile? && call.addrs == Probe(kind)
    requires kind != NONE && kind != STRING
    ensures Steps(t, [call] + Alone(call.id, kind.Width() + 4), u)
    ensures call.id in u.readers && u.readers[call.id].pc.Exited?
    ensures ScalarResult(kind, u.readers[call.id].temps) == Expected(kind, ws, |ws|)
  {
    u := CallAnswers(ZERO_SLOT, t, call);
    ScalarOfLast(t.hist, ws, kind);
  }

  lemma ScalarOfLast(hist: seq<Program>, ws: seq<Write>, kind: DataType)
    requires WrittenBy(hist, ws) && kind != NONE && kind != STRING
    ensures ScalarResult(kind, FetchAll(MemAfter(ZERO_SLOT, hist), Probe(kind))) == Expected(kind, ws, |ws|)
  {
    var n := |ws|;
    assert hist[..n] == hist;
    if n > 0 {
      LastWriteDecides(hist, ws, n);
      ScalarReadBack(MemAfter(ZERO_SLOT, hist[..n - 1]), ws[n - 1], kind);
    } else {
      NothingWritten(kind, 1);
    }
  }

  /** The same for strings. */
  lemma TextReadAnswers(t: State, call: Event, ws: seq<Write>, size: nat) returns (u: State)
    requires Reachable(ZERO_SLOT, t) && t.writer.Idle? && WrittenBy(t.hist, ws) && size > 0
    requires call.Call? && Enabled(t, call) && call.discipline.DoWhile? && call.addrs == Probe(STRING)
    ensures Steps(t, [call] + Alone(call.id, UNION_BYTES + 4), u)
    ensures call.id in u.readers && u.readers[call.id].pc.Exited?
    ensures ReportsText(TextResult(u.readers[call.id].temps, size), if ws == [] then None else Some(ws[|ws| - 1]), size)
  {
    u := CallAnswers(ZERO_SLOT, t, call);
    TextOfLast(t.hist, ws, size);
  }

  lemma TextOfLast(hist: seq<Program>, ws: seq<Write>, size: nat)
    requires WrittenBy(hist, ws) && size > 0
    ensures ReportsText(TextResult(FetchAll(MemAfter(ZERO_SLOT, hist), Probe(STRING)), size),
                        if ws == [] then None else Some(ws[|ws| - 1]), size)
  {
    var n := |ws|;
    assert hist[..n] == hist;
    if n > 0 {
      LastWriteDecides(hist, ws, n);
      TextReadBack(MemAfter(ZERO_SLOT, hist[..n - 1]), ws[n - 1], size);
    } else {
      NothingWritten(STRING, size);
    }
  }

  // ----- a torn read -----

  const ONES := Scalar(INT32, [1, 1, 1, 1], 0)
  const TWOS := Scalar(INT32, [2, 2, 2, 2], 0)

  lemma TornReadFirstWrite() returns (t: State)
    ensures Reachable(ZERO_SLOT, t) && t.hist == [ONES.Stores()]
    ensures t.ticks == 2 && t.writer.Idle? && t.readers == map[]
    ensures |t.mem| == SLOT_WORDS && t.mem[0] == 1 && t.mem[TYPE_CELL] == 1
  {
    var s0 := Initial(ZERO_SLOT);
    var prog := ONES.Stores();
    UninterruptedWrite(s0, prog);
    WriteEffect(ZERO_SLOT, ONES);
    t := s0.(mem := Apply(s0.mem, prog), ticks := 2, hist := s0.hist + [prog]);
    assert Steps(s0, WriteEvents(prog), t);
  }

  /** One complete write, then a getter that has loaded the type and the first byte. */
  lemma TornReadFirstByte() returns (t: State)
    ensures Reachable(ZERO_SLOT, t) && t.hist == [ONES.Stores()]
    ensures t.ticks == 2 && t.writer.Idle? && |t.mem| == SLOT_WORDS
    ensures t.readers == map[0 := Reader(DoWhile, Probe(INT32), Reading(2), 2, 0, [1, 1, 0, 0, 0], 0, 2, 0, false, 1, [])]
  {
    t := TornReadFirstWrite();
    t := Extend(ZERO_SLOT, t, Call(0, DoWhile, Probe(INT32), 0, [0, 0, 0, 0, 0]));
    t := Extend(ZERO_SLOT, t, ReadStep(0));
    t := Extend(ZERO_SLOT, t, ReadStep(0));
    t := Extend(ZERO_SLOT, t, ReadStep(0));
    assert t.readers[0].temps == [1, 1, 0, 0, 0];
  }

  /** A second write has stored its four bytes and is still in progress. */
  lemma TornReadSecondWrite() returns (t: State)
    ensures Reachable(ZERO_SLOT, t) && t.hist == [ONES.Stores()]
    ensures t.ticks == 3 && |t.mem| == SLOT_WORDS && t.mem[1] == t.mem[2] == t.mem[3] == 2
    ensures t.readers == map[0 := Reader(DoWhile, Probe(INT32), Reading(2), 2, 0, [1, 1, 0, 0, 0], 0, 2, 0, false, 1, [])]
  {
    t := TornReadFirstByte();
    t := Extend(ZERO_SLOT, t, Begin(TWOS.Stores()));
    t := Extend(ZERO_SLOT, t, StoreNext);
    t := Extend(ZERO_SLOT, t, StoreNext);
    t := Extend(ZERO_SLOT, t, StoreNext);
    t := Extend(ZERO_SLOT, t, StoreNext);
  }

  /** A typed getter can return a value nobody wrote. It ends an attempt inside a write, finds the same
      write still in progress, and leaves the loop comparing that odd counter with the stale second load.
      The call reports success with one byte of the old value and three of the new. */
  lemma TornRead() returns (t: State)
    ensures Reachable(ZERO_SLOT, t) && t.hist == [ONES.Stores()]
    ensures 0 in t.readers && t.readers[0].pc.Exited? && t.readers[0].addrs == Probe(INT32)
    ensures t.readers[0].seq1 == 3
    ensures ScalarResult(INT32, t.readers[0].temps) == Some([1, 2, 2, 2])
  {
    t := TornReadSecondWrite();
    t := Extend(ZERO_SLOT, t, ReadStep(0));
    t := Extend(ZERO_SLOT, t, ReadStep(0));
    t := Extend(ZERO_SLOT, t, ReadStep(0));
    assert t.readers[0].temps == [1, 1, 2, 2, 2];
    t := Extend(ZERO_SLOT, t, ReadStep(0));
    t := Extend(ZERO_SLOT, t, ReadStep(0));
    t := Extend(ZERO_SLOT, t, ReadStep(0));
    t := Extend(ZERO_SLOT, t, ReadStep(0));
  }

  const HALVES := Scalar(FLOAT, [2, 2, 2, 2], 0)

  /** One complete write of an int, and a getter of ints that has loaded the type. */
  lemma MixedReadType() returns (t: State)
    ensures Reachable(ZERO_SLOT, t) && t.hist == [ONES.Stores()]
    ensures t.ticks == 2 && t.writer.Idle? && |t.mem| == SLOT_WORDS
    ensures t.readers == map[0 := Reader(DoWhile, Probe(INT32), Reading(1), 2, 0, [1, 0, 0, 0, 0], 0, 2, 0, false, 1, [])]
  {
    t := TornReadFirstWrite();
    t := Extend(ZERO_SLOT, t, Call(0, DoWhile, Probe(INT32), 0, [0, 0, 0, 0, 0]));
    t := Extend(ZERO_SLOT, t, ReadStep(0));
    t := Extend(ZERO_SLOT, t, ReadStep(0));
    assert t.readers[0].temps == [1, 0, 0, 0, 0];
  }

  /** A write of a float has stored its value and not yet its type. */
  lemma MixedReadBegun() returns (t: State)
    ensures Reachable(ZERO_SLOT, t) && t.hist == [ONES.Stores()]
    ensures t.ticks == 3 && |t.mem| == SLOT_WORDS && t.mem[0] == t.mem[1] == t.mem[2] == t.mem[3] == 2
    ensures t.readers == map[0 := Reader(DoWhile, Probe(INT32), Reading(1), 2, 0, [1, 0, 0, 0, 0], 0, 2, 0, false, 1, [])]
  {
    t := MixedReadType();
    t := Extend(ZERO_SLOT, t, Begin(HALVES.Stores()));
    t := Extend(ZERO_SLOT, t, StoreNext);
    t := Extend(ZERO_SLOT, t, StoreNext);
    t := Extend(ZERO_SLOT, t, StoreNext);
    t := Extend(ZERO_SLOT, t, StoreNext);
  }

  lemma MixedReadLoads() returns (t: State)
    ensures Reachable(ZERO_SLOT, t) && t.hist == [ONES.Stores()] && t.ticks == 3
    ensures t.readers == map[0 := Reader(DoWhile, Probe(INT32), Reading(5), 2, 0, [1, 2, 2, 2, 2], 0, 2, 0, false, 1, [])]
  {
    t := MixedReadBegun();
    t := Extend(ZERO_SLOT, t, ReadStep(0));
    t := Extend(ZERO_SLOT, t, ReadStep(0));
    t := Extend(ZERO_SLOT, t, ReadStep(0));
    t := Extend(ZERO_SLOT, t, ReadStep(0));
    assert t.readers[0].temps == [1, 2, 2, 2, 2];
  }

  /** The same defect where every value is loaded and stored whole: the getter of ints succeeds with the bits of a
      float, because type and value come from different writes. */
  lemma MixedRead() returns (t: State)
    ensures Reachable(ZERO_SLOT, t) && t.hist == [ONES.Stores()]
    ensures 0 in t.readers && t.readers[0].pc.Exited? && t.readers[0].addrs == Probe(INT32)
    ensures t.readers[0].seq1 == 3
    ensures ScalarResult(INT32, t.readers[0].temps) == Some(HALVES.image)
  {
    t := MixedReadLoads();
    t := Extend(ZERO_SLOT, t, ReadStep(0));
    t := Extend(ZERO_SLOT, t, ReadStep(0));
    t := Extend(ZERO_SLOT, t, ReadStep(0));
    t := Extend(ZERO_SLOT, t, ReadStep(0));
  }

  /** A getter called while the first write is in progress can leave on its first attempt, before any write is
      complete, with whatever its uninitialised variables held. */
  lemma GarbageRead(bytes: seq<Word>) returns (t: State)
    requires |bytes| == 4
    ensures Reachable(ZERO_SLOT, t) && t.hist == []
    ensures 0 in t.readers && t.readers[0].pc.Exited? && t.readers[0].addrs == Probe(INT32)
    ensures t.readers[0].attempts == 0 && !t.readers[0].loaded
    ensures ScalarResult(INT32, t.readers[0].temps) == Some(bytes)
  {
    t := Initial(ZERO_SLOT);
    assert Steps(t, [], t);
    t := Extend(ZERO_SLOT, t, Begin(ONES.Stores()));
    t := Extend(ZERO_SLOT, t, Call(0, DoWhile, Probe(INT32), 1, [INT32.Code()] + bytes));
    t := Extend(ZERO_SLOT, t, ReadStep(0));
    t := Extend(ZERO_SLOT, t, ReadStep(0));
  }

  // ----- the store itself, one caller at a time -----

  datatype Entry = Entry(counter: nat, words: seq<Word>)

  class RTDataStore {
    var entries: array<Entry>

    ghost predicate Valid()
      reads this, entries
    {
      && entries.Length == MAX_KEYS
      && forall k :: 0 <= k < MAX_KEYS ==>
           |entries[k].words| == SLOT_WORDS && entries[k].counter % 2 == 0 && entries[k].counter < U64
    }

    constructor ()
      ensures Valid() && fresh(entries)
      ensures forall k :: 0 <= k < MAX_KEYS ==> entries[k] == Entry(0, ZERO_SLOT)
    {
      entries := new Entry[MAX_KEYS](_ => Entry(0, ZERO_SLOT));
    }

    /** The body every setter shares: counter to odd, the stores in order, counter to even. */
    method Perform(key: nat, w: Write)
      requires Valid() && key < MAX_KEYS && w.Valid()
      modifies entries
      ensures Valid()
      ensures entries[..] == old(entries[..])[key := Entry((old(entries[key].counter) + 2) % U64,
                                                           Apply(old(entries[key].words), w.Stores()))]
    {
      var prog := w.Stores();
      entries[key] := entries[key].(counter := (entries[key].counter + 1) % U64);
      StoreAll(key, prog);
      SlotSize(old(entries[key].words), prog);
      entries[key] := entries[key].(counter := (entries[key].counter + 1) % U64);
    }

    /** The stores between the two changes of the counter. */
    method StoreAll(key: nat, prog: Program)
      requires key < entries.Length
      modifies entries
      ensures entries[..] == old(entries[..])[key := old(entries[key]).(words := Apply(old(entries[key].words), prog))]
    {
      ghost var before := entries[key];
      for i := 0 to |prog|
        invariant entries[..] == old(entries[..])[key := before.(words := Apply(before.words, prog[..i]))]
      {
        ApplyOne(before.words, prog, i);
        entries[key] := entries[key].(words := Put(entries[key].words, prog[i]));
      }
      assert prog[..|prog|] == prog;
    }

    method SetScalar(key: nat, kind: DataType, image: seq<Word>, now: Word) returns (rc: int)
      requires Valid() && Scalar(kind, image, now).Valid()
      modifies entries
      ensures Valid()
      ensures rc == if key < MAX_KEYS then 0 else -1
      ensures key >= MAX_KEYS ==> entries[..] == old(entries[..])
      ensures key < MAX_KEYS ==>
                entries[..] == old(entries[..])[key := Entry((old(entries[key].counter) + 2) % U64,
                                                             Apply(old(entries[key].words), Scalar(kind, image, now).Stores()))]
    {
      if key >= MAX_KEYS {
        return -1;
      }
      Perform(key, Scalar(kind, image, now));
      return 0;
    }

    /** A null value is an error, like an unknown key. */
    method SetString(key: nat, value: Option<seq<Word>>, now: Word) returns (rc: int)
      requires Valid()
      modifies entries
      ensures Valid()
      ensures rc == if key < MAX_KEYS && value.Some? then 0 else -1
      ensures rc == -1 ==> entries[..] == old(entries[..])
      ensures rc == 0 ==>
                entries[..] == old(entries[..])[key := Entry((old(entries[key].counter) + 2) % U64,
                                                             Apply(old(entries[key].words), Text(value.value, now).Stores()))]
    {
      if key >= MAX_KEYS || value.None? {
        return -1;
      }
      Perform(key, Text(value.value, now));
      return 0;
    }

    /** The retry loop every getter shares. */
    method Sample(key: nat, kind: DataType) returns (temps: seq<Word>)
      requires Valid() && key < MAX_KEYS
      ensures temps == FetchAll(entries[key].words, Probe(kind))
    {
      var seq1, seq2, again := 0, 1, true;
      var addrs := Probe(kind);
      temps := seq(|addrs|, _ => 0);
      while again
        invariant !again ==> temps == FetchAll(entries[key].words, addrs)
        invariant |temps| == |addrs|
        decreases again
      {
        seq1 := entries[key].counter;
        if seq1 % 2 == 0 {
          for i := 0 to |addrs|
            invariant |temps| == |addrs|
            invariant forall j :: 0 <= j < i ==> temps[j] == Fetch(entries[key].words, addrs[j])
          {
            temps := temps[i := Fetch(entries[key].words, addrs[i])];
          }
          seq2 := entries[key].counter;
        }
        again := seq1 != seq2;
      }
    }

    method GetScalar(key: nat, kind: DataType) returns (out: Option<seq<Word>>)
      requires Valid() && kind != NONE && kind != STRING
      ensures out == if key < MAX_KEYS then ScalarResult(kind, FetchAll(entries[key].words, Probe(kind))) else None
    {
      if key >= MAX_KEYS {
        return None;
      }
      var temps := Sample(key, kind);
      out := ScalarResult(kind, temps);
    }

    /** `size` is the caller's buffer size; an empty buffer is an error. */
    method GetString(key: nat, size: nat) returns (out: Option<seq<Word>>)
      requires Valid()
      ensures out == if key < MAX_KEYS && size > 0 then TextResult(FetchAll(entries[key].words, Probe(STRING)), size) else None
    {
      if key >= MAX_KEYS || size == 0 {
        return None;
      }
      var temps := Sample(key, STRING);
      out := TextResult(temps, size);
    }
  }
}
