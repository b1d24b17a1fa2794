/** SpanContextUtils: the traceparent and baggage headers of W3C Trace Context section 3.2 and W3C Baggage
    section 3, and their injection into and extraction from a carrier of headers. */
module TraceContexts {
  import opened Common

  const TRACE_ID_LENGTH: nat := 32
  const SPAN_ID_LENGTH: nat := 16
  const TRACEPARENT_HEADER := "traceparent"
  const TRACESTATE_HEADER := "tracestate"
  const BAGGAGE_HEADER := "baggage"

  datatype TraceContext = TraceContext(
    traceId: string, spanId: string, parentSpanId: string, flags: nat,
    traceState: string, baggage: map<string, string>, remote: bool)

  // ----- hexadecimal -----

  predicate LowerHex(c: char) { '0' <= c <= '9' || 'a' <= c <= 'f' }

  predicate Hex(c: char) { LowerHex(c) || 'A' <= c <= 'F' }

  predicate AllLowerHex(s: string) { forall i :: 0 <= i < |s| ==> LowerHex(s[i]) }

  function Digit(n: nat): char
    requires n < 16
  {
    if n < 10 then '0' + n as char else 'a' + (n - 10) as char
  }

  function Value(c: char): (n: nat)
    requires LowerHex(c)
    ensures n < 16
  {
    if c <= '9' then (c - '0') as nat else (c - 'a') as nat + 10
  }

  /** The digits in the usual order. */
  lemma DigitTable(n: nat)
    requires n < 16
    ensures Digit(n) == "0123456789abcdef"[n]
  {}

  lemma DigitValue(n: nat, c: char)
    requires n < 16 && LowerHex(c)
    ensures LowerHex(Digit(n)) && Value(Digit(n)) == n && Digit(Value(c)) == c
  {}

  // ----- validation -----

  predicate ValidId(id: string, length: nat) {
    && |id| == length
    && (forall i :: 0 <= i < |id| ==> Hex(id[i]))
    && exists i :: 0 <= i < |id| && id[i] != '0'
  }

  predicate ValidFlags(flags: nat) { flags / 2 == 0 }

  predicate ValidContext(c: TraceContext) {
    ValidId(c.traceId, TRACE_ID_LENGTH) && ValidId(c.spanId, SPAN_ID_LENGTH) && ValidFlags(c.flags)
  }

  lemma {:induction false} HexCharacters(c: char)
    ensures Hex(c) <==> c in "0123456789abcdefABCDEF"
    ensures LowerHex(c) <==> c in "0123456789abcdef"
  {}

  function Zeros(n: nat): string {
    if n == 0 then "" else "0" + Zeros(n - 1)
  }

  lemma {:induction false} AllZeros(s: string)
    ensures (forall i :: 0 <= i < |s| ==> s[i] == '0') <==> s == Zeros(|s|)
    decreases s
  {
    if s != "" {
      AllZeros(s[1..]);
      assert s == [s[0]] + s[1..];
    }
  }

  /** A context is valid if its ids are 32 and 16 hexadecimal digits of either case, not all zero, and no flag but the
      lowest is set. */
  lemma ValidContextIff(c: TraceContext)
    ensures ValidContext(c) <==>
              && |c.traceId| == 32 && c.traceId != Zeros(32)
              && (forall x :: x in c.traceId ==> x in "0123456789abcdefABCDEF")
              && |c.spanId| == 16 && c.spanId != Zeros(16)
              && (forall x :: x in c.spanId ==> x in "0123456789abcdefABCDEF")
              && c.flags < 2
  {
    ValidIdIff(c.traceId, 32);
    ValidIdIff(c.spanId, 16);
  }

  lemma ValidIdIff(id: string, length: nat)
    ensures ValidId(id, length) <==>
              |id| == length && id != Zeros(length) && forall x :: x in id ==> x in "0123456789abcdefABCDEF"
  {
    AllZeros(id);
    forall x: char ensures Hex(x) <==> x in "0123456789abcdefABCDEF" {
      HexCharacters(x);
    }
  }

  const INVALID_CONTEXT := TraceContext(
    "00000000000000000000000000000000", "0000000000000000", "", 0, "", map[], false)

  // ----- traceparent -----

  /** The pattern 00-{32 hex}-{16 hex}-{2 hex}, lower case only. */
  predicate Matches(s: string) {
    && |s| == 55
    && s[..3] == "00-" && AllLowerHex(s[3..35])
    && s[35] == '-' && AllLowerHex(s[36..52])
    && s[52] == '-' && AllLowerHex(s[53..])
  }

  function ParseTraceparent(s: string): Option<TraceContext> {
    if !Matches(s) then None
    else if !ValidId(s[3..35], TRACE_ID_LENGTH) || !ValidId(s[36..52], SPAN_ID_LENGTH) then None
    else
      assert LowerHex(s[53..][0]) && LowerHex(s[53..][1]);
      Some(TraceContext(s[3..35], s[36..52], "", 16 * Value(s[53]) + Value(s[54]), "", map[], true))
  }

  function FormatTraceparent(c: TraceContext): string
    requires c.flags < 256
  {
    "00-" + c.traceId + "-" + c.spanId + "-" + [Digit(c.flags / 16), Digit(c.flags % 16)]
  }

  /** Ids a formatted header can be parsed back from. */
  predicate LowerIds(c: TraceContext) {
    && ValidId(c.traceId, TRACE_ID_LENGTH) && AllLowerHex(c.traceId)
    && ValidId(c.spanId, SPAN_ID_LENGTH) && AllLowerHex(c.spanId)
  }

  lemma FormatPieces(c: TraceContext)
    requires c.flags < 256 && |c.traceId| == 32 && |c.spanId| == 16
    ensures var s := FormatTraceparent(c);
            && |s| == 55 && s[..3] == "00-" && s[3..35] == c.traceId && s[35] == '-' && s[36..52] == c.spanId
            && s[52] == '-' && s[53..] == [Digit(c.flags / 16), Digit(c.flags % 16)]
  {}

  lemma NoDash(s: string, i: nat)
    requires Matches(s) && (3 <= i < 35 || 36 <= i < 52 || 53 <= i < 55)
    ensures s[i] != '-'
  {
    if i < 35 {
      assert s[3..35][i - 3] == s[i];
    } else if i < 52 {
      assert s[36..52][i - 36] == s[i];
    } else {
      assert s[53..][i - 53] == s[i];
    }
  }

  lemma FormattedLengths(c: TraceContext)
    requires c.flags < 256 && Matches(FormatTraceparent(c))
    ensures |c.traceId| == 32 && |c.spanId| == 16
  {
    var s := FormatTraceparent(c);
    assert s[3 + |c.traceId|] == '-';
    forall i | 3 <= i < 35 || 36 <= i < 52 || 53 <= i < 55 ensures s[i] != '-' {
      NoDash(s, i);
    }
  }

  /** Exactly which contexts survive the traceparent header: those with valid, lower-case ids. They come back
      with the same ids and flags; every other formatted header is rejected. */
  lemma ParseFormatIff(c: TraceContext)
    requires c.flags < 256
    ensures ParseTraceparent(FormatTraceparent(c))
         == if LowerIds(c) then Some(TraceContext(c.traceId, c.spanId, "", c.flags, "", map[], true)) else None
  {
    var s := FormatTraceparent(c);
    DigitValue(c.flags / 16, '0');
    DigitValue(c.flags % 16, '0');
    if Matches(s) {
      FormattedLengths(c);
    }
    if |c.traceId| == 32 && |c.spanId| == 16 {
      FormatPieces(c);
      assert s[53] == s[53..][0] && s[54] == s[53..][1];
    }
  }

  /** Formatting any parsed header reproduces it. */
  lemma FormatParse(s: string)
    requires ParseTraceparent(s).Some?
    ensures ParseTraceparent(s).value.flags < 256
    ensures FormatTraceparent(ParseTraceparent(s).value) == s
  {
    var c := ParseTraceparent(s).value;
    assert LowerHex(s[53..][0]) && LowerHex(s[53..][1]);
    DigitValue(0, s[53]);
    DigitValue(0, s[54]);
    assert c.flags / 16 == Value(s[53]) && c.flags % 16 == Value(s[54]);
    assert s == s[..3] + s[3..35] + [s[35]] + s[36..52] + [s[52]] + s[53..];
    assert s[53..] == [s[53], s[54]];
  }

  // ----- baggage: strings -----

  predicate Blank(c: char) { c == ' ' || c == '\t' }

  /** What is trimmed: the characters of the program's two searches. */
  lemma BlankCharacters(c: char)
    ensures Blank(c) <==> c in " \t"
  {}

  function TrimLeft(s: string): (r: string)
    ensures r == "" || !Blank(r[0])
  {
    if s != "" && Blank(s[0]) then TrimLeft(s[1..]) else s
  }

  function TrimRight(s: string): (r: string)
    ensures r == "" || !Blank(r[|r| - 1])
    ensures |r| <= |s| && r == s[..|r|]
  {
    if s != "" && Blank(s[|s| - 1]) then TrimRight(s[..|s| - 1]) else s
  }

  /** The position of the first `c`, or the length. */
  function Find(s: string, c: char): (i: nat)
    ensures i <= |s| && (i < |s| ==> s[i] == c) && c !in s[..i]
  {
    if s == "" || s[0] == c then 0
    else
      var i := 1 + Find(s[1..], c);
      assert s[..i] == [s[0]] + s[1..][..i - 1];
      i
  }

  lemma FindIs(s: string, c: char, i: nat)
    requires i <= |s| && c !in s[..i] && (i < |s| ==> s[i] == c)
    ensures Find(s, c) == i
  {}

  /** The items `getline` yields: no empty item after a final comma. */
  function Items(s: string): seq<string>
    decreases |s|
  {
    if s == "" then []
    else
      var i := Find(s, ',');
      [s[..i]] + (if i < |s| then Items(s[i + 1..]) else [])
  }

  // ----- baggage: the maps -----

  /** One item into the result: later items win, items without '=' are skipped. */
  function AddItem(result: map<string, string>, item: string): map<string, string> {
    var t := TrimRight(TrimLeft(item));
    var eq := Find(t, '=');
    if eq < |t| then result[t[..eq] := t[eq + 1..]] else result
  }

  function AddItems(result: map<string, string>, items: seq<string>): map<string, string>
    decreases items
  {
    if items == [] then result else AddItems(AddItem(result, items[0]), items[1..])
  }

  function ParseBaggage(s: string): map<string, string> {
    AddItems(map[], Items(s))
  }

  lemma AddFirst(result: map<string, string>, item: string, more: seq<string>)
    ensures AddItems(result, [item] + more) == AddItems(AddItem(result, item), more)
  {
    var items := [item] + more;
    assert items[0] == item && items[1..] == more;
  }

  lemma FirstItem(s: string, i: nat, rest: string)
    requires s != "" && i == Find(s, ',') && rest == if i < |s| then s[i + 1..] else ""
    ensures Items(s) == [s[..i]] + Items(rest)
  {}

  /** Whatever parts the header is made of, the keys of its pairs come back, each with the value of its last pair. */
  method ReadBaggage(s: string) returns (result: map<string, string>)
    ensures result == ParseBaggage(s)
    ensures forall parts :: AllGood(parts) && Header(parts) == s ==> LastWins(result, parts)
  {
    forall parts | AllGood(parts) && Header(parts) == s ensures LastWins(ParseBaggage(s), parts) {
      ParsedMeans(parts);
    }
    result := map[];
    var rest := s;
    while rest != ""
      invariant AddItems(result, Items(rest)) == ParseBaggage(s)
      decreases |rest|
    {
      var i := Find(rest, ',');
      var more := if i < |rest| then rest[i + 1..] else "";
      FirstItem(rest, i, more);
      AddFirst(result, rest[..i], Items(more));
      result := AddItem(result, rest[..i]);
      rest := more;
    }
  }

  // ----- baggage: traversal in key order -----

  predicate Leq(a: string, b: string) {
    a == "" || (b != "" && (a[0] < b[0] || (a[0] == b[0] && Leq(a[1..], b[1..]))))
  }

  lemma {:induction false} LeqTotal(a: string, b: string)
    ensures Leq(a, b) || Leq(b, a)
    ensures Leq(a, b) && Leq(b, a) ==> a == b
  {
    if a != "" && b != "" {
      LeqTotal(a[1..], b[1..]);
      assert a == [a[0]] + a[1..] && b == [b[0]] + b[1..];
    }
  }

  lemma {:induction false} LeqTrans(a: string, b: string, c: string)
    requires Leq(a, b) && Leq(b, c)
    ensures Leq(a, c)
  {
    if a != "" && a[0] == b[0] == c[0] {
      LeqTrans(a[1..], b[1..], c[1..]);
    }
  }

  /** The strings agree before `i`, where the first ends or has the smaller character. */
  predicate SmallerAt(a: string, b: string, i: nat) {
    i <= |a| && i <= |b| && a[..i] == b[..i] && (i == |a| || (i < |b| && a[i] < b[i]))
  }

  lemma {:induction false} LeqFrom(a: string, b: string, i: nat)
    requires SmallerAt(a, b, i)
    ensures Leq(a, b)
    decreases i
  {
    if i > 0 {
      assert a[..i][0] == b[..i][0];
      assert a[1..][..i - 1] == a[..i][1..] && b[1..][..i - 1] == b[..i][1..];
      LeqFrom(a[1..], b[1..], i - 1);
    }
  }

  lemma {:induction false} LeqTo(a: string, b: string) returns (i: nat)
    requires Leq(a, b)
    ensures SmallerAt(a, b, i)
    decreases a
  {
    i := 0;
    if a != "" && a[0] == b[0] {
      i := LeqTo(a[1..], b[1..]);
      assert a[..i + 1] == [a[0]] + a[1..][..i] && b[..i + 1] == [b[0]] + b[1..][..i];
      i := i + 1;
    }
  }

  /** The order is that of a dictionary. */
  lemma LeqMeans(a: string, b: string)
    ensures Leq(a, b) <==> exists i: nat :: SmallerAt(a, b, i)
  {
    if Leq(a, b) {
      var i := LeqTo(a, b);
    }
    if i: nat :| SmallerAt(a, b, i) {
      LeqFrom(a, b, i);
    }
  }

  predicate IsLeast(k: string, keys: set<string>) {
    k in keys && forall x :: x in keys ==> Leq(k, x)
  }

  lemma {:induction false} LeastExists(keys: set<string>)
    requires keys != {}
    ensures exists k :: IsLeast(k, keys)
    decreases |keys|
  {
    var k :| k in keys;
    var rest := keys - {k};
    if rest == {} {
      LeqTotal(k, k);
      assert keys == {k};
      assert IsLeast(k, keys);
    } else {
      LeastExists(rest);
      var l :| IsLeast(l, rest);
      LeqTotal(k, l);
      LeqTotal(k, k);
      if Leq(k, l) {
        forall x | x in keys ensures Leq(k, x) {
          if x != k { LeqTrans(k, l, x); }
        }
        assert IsLeast(k, keys);
      } else {
        assert IsLeast(l, keys);
      }
    }
  }

  /** The keys of a std::map in iteration order. */
  ghost function InOrder(keys: set<string>): (order: seq<string>)
    ensures |order| == |keys| && forall k :: k in order <==> k in keys
    decreases |keys|
  {
    if keys == {} then []
    else
      LeastExists(keys);
      var k :| IsLeast(k, keys);
      [k] + InOrder(keys - {k})
  }

  lemma InOrderHead(keys: set<string>)
    requires keys != {}
    ensures InOrder(keys) != [] && IsLeast(InOrder(keys)[0], keys)
    ensures InOrder(keys)[1..] == InOrder(keys - {InOrder(keys)[0]})
  {
    LeastExists(keys);
  }

  ghost predicate Ascends(order: seq<string>) {
    forall i, j :: 0 <= i < j < |order| ==> Leq(order[i], order[j]) && order[i] != order[j]
  }

  lemma AscendsCons(k: string, order: seq<string>)
    requires Ascends(order) && forall x :: x in order ==> Leq(k, x) && k != x
    ensures Ascends([k] + order)
  {
    var all := [k] + order;
    forall i, j | 0 <= i < j < |all| ensures Leq(all[i], all[j]) && all[i] != all[j] {
      assert all[j] == order[j - 1] && (i > 0 ==> all[i] == order[i - 1]);
      if i == 0 {
        assert order[j - 1] in order;
      }
    }
  }

  /** The keys ascend. */
  lemma {:induction false} InOrderAscends(keys: set<string>)
    ensures Ascends(InOrder(keys))
    decreases |keys|
  {
    if keys != {} {
      InOrderHead(keys);
      var k := InOrder(keys)[0];
      InOrderAscends(keys - {k});
      AscendsCons(k, InOrder(keys - {k}));
      assert InOrder(keys) == [k] + InOrder(keys)[1..];
    }
  }

  function Entry(m: map<string, string>, k: string): string
    requires k in m
  {
    k + "=" + m[k]
  }

  function Join(m: map<string, string>, order: seq<string>): string
    requires forall i :: 0 <= i < |order| ==> order[i] in m
  {
    if order == [] then ""
    else if |order| == 1 then Entry(m, order[0])
    else Entry(m, order[0]) + "," + Join(m, order[1..])
  }

  ghost function FormatBaggage(m: map<string, string>): string {
    Join(m, InOrder(m.Keys))
  }

  lemma LeastUnique(keys: set<string>, k: string)
    requires IsLeast(k, keys)
    ensures InOrder(keys) == [k] + InOrder(keys - {k})
  {
    var l := InOrder(keys)[0];
    assert IsLeast(l, keys);
    LeqTotal(k, l);
  }

  lemma OneMoreInOrder(order: seq<string>, rest: set<string>, k: string)
    requires IsLeast(k, rest)
    ensures order + InOrder(rest) == order + [k] + InOrder(rest - {k})
  {
    LeastUnique(rest, k);
    Regroup(order, [k], InOrder(rest - {k}));
  }

  method PickLeast(keys: set<string>) returns (k: string)
    requires keys != {}
    ensures IsLeast(k, keys)
  {
    LeastExists(keys);
    k :| IsLeast(k, keys);
  }

  /** The iteration order of the map. */
  method Ordered(keys: set<string>) returns (order: seq<string>)
    ensures order == InOrder(keys)
  {
    order := [];
    var rest := keys;
    while rest != {}
      invariant InOrder(keys) == order + InOrder(rest)
      decreases |rest|
    {
      var k := PickLeast(rest);
      OneMoreInOrder(order, rest, k);
      order := order + [k];
      rest := rest - {k};
    }
  }

  /** The entries from `i` on, with the comma that precedes them. */
  function JoinFrom(m: map<string, string>, order: seq<string>, i: nat): string
    requires i <= |order| && forall j :: 0 <= j < |order| ==> order[j] in m
  {
    if i == |order| then "" else (if i == 0 then "" else ",") + Join(m, order[i..])
  }

  lemma JoinStep(m: map<string, string>, order: seq<string>, i: nat)
    requires i < |order| && forall j :: 0 <= j < |order| ==> order[j] in m
    ensures JoinFrom(m, order, i) == (if i == 0 then "" else ",") + Entry(m, order[i]) + JoinFrom(m, order, i + 1)
  {
    assert order[i..][1..] == order[i + 1..];
    assert order[i..][0] == order[i];
  }

  method WriteEntries(m: map<string, string>, order: seq<string>) returns (s: string)
    requires forall j :: 0 <= j < |order| ==> order[j] in m
    ensures s == Join(m, order)
  {
    s := "";
    assert order[0..] == order;
    for i := 0 to |order|
      invariant Join(m, order) == s + JoinFrom(m, order, i)
    {
      JoinStep(m, order, i);
      var piece := (if i == 0 then "" else ",") + Entry(m, order[i]);
      Regroup(s, piece, JoinFrom(m, order, i + 1));
      s := s + piece;
    }
  }

  method WriteBaggage(m: map<string, string>) returns (s: string)
    ensures s == FormatBaggage(m)
  {
    var order := Ordered(m.Keys);
    s := WriteEntries(m, order);
  }

  // ----- baggage: the round trip -----

  /** A pair the header can carry. */
  predicate Clean(k: string, v: string) {
    && ',' !in k && '=' !in k && (k == "" || !Blank(k[0]))
    && ',' !in v && (v == "" || !Blank(v[|v| - 1]))
  }

  predicate CleanMap(m: map<string, string>) {
    forall k :: k in m ==> Clean(k, m[k])
  }

  lemma CleanItem(k: string, v: string, result: map<string, string>)
    requires Clean(k, v)
    ensures AddItem(result, k + "=" + v) == result[k := v]
    ensures ',' !in k + "=" + v
  {
    var item := k + "=" + v;
    TrimmedItem(k, v);
    SplitItem(k, v, item);
  }

  lemma TrimmedItem(k: string, v: string)
    requires Clean(k, v)
    ensures TrimLeft(k + "=" + v) == k + "=" + v && TrimRight(k + "=" + v) == k + "=" + v
  {
    var item := k + "=" + v;
    assert item[0] == if k == "" then '=' else k[0];
    assert item[|item| - 1] == if v == "" then '=' else v[|v| - 1];
  }

  lemma SplitItem(k: string, v: string, item: string)
    requires '=' !in k && item == k + "=" + v
    ensures Find(item, '=') == |k| && item[..|k|] == k && item[|k| + 1..] == v
  {
    assert item[..|k|] == k && item[|k| + 1..] == v;
    FindIs(item, '=', |k|);
  }

  function Entries(m: map<string, string>, order: seq<string>): seq<string>
    requires forall i :: 0 <= i < |order| ==> order[i] in m
  {
    if order == [] then [] else [Entry(m, order[0])] + Entries(m, order[1..])
  }

  lemma ItemsCons(e: string, rest: string)
    requires ',' !in e && e != ""
    ensures Items(e) == [e]
    ensures Items(e + "," + rest) == [e] + Items(rest)
  {
    var s := e + "," + rest;
    assert e[..|e|] == e;
    FindIs(e, ',', |e|);
    assert s[..|e|] == e && s[|e| + 1..] == rest;
    FindIs(s, ',', |e|);
  }

  lemma {:induction false} ItemsOfJoin(m: map<string, string>, order: seq<string>)
    requires CleanMap(m) && forall i :: 0 <= i < |order| ==> order[i] in m
    ensures Items(Join(m, order)) == Entries(m, order)
  {
    if order != [] {
      CleanItem(order[0], m[order[0]], map[]);
      if |order| == 1 {
        ItemsCons(Entry(m, order[0]), "");
        assert order[1..] == [];
      } else {
        ItemsCons(Entry(m, order[0]), Join(m, order[1..]));
        ItemsOfJoin(m, order[1..]);
      }
    }
  }

  function PutAll(m: map<string, string>, order: seq<string>, result: map<string, string>): map<string, string>
    requires forall i :: 0 <= i < |order| ==> order[i] in m
    decreases order
  {
    if order == [] then result else PutAll(m, order[1..], result[order[0] := m[order[0]]])
  }

  /** Adding clean entries stores them as they are. */
  lemma {:induction false} AddEntries(m: map<string, string>, order: seq<string>, result: map<string, string>)
    requires CleanMap(m) && forall i :: 0 <= i < |order| ==> order[i] in m
    ensures AddItems(result, Entries(m, order)) == PutAll(m, order, result)
    decreases order
  {
    if order != [] {
      CleanItem(order[0], m[order[0]], result);
      AddEntries(m, order[1..], result[order[0] := m[order[0]]]);
      assert Entries(m, order)[0] == Entry(m, order[0]) && Entries(m, order)[1..] == Entries(m, order[1..]);
    }
  }

  lemma {:induction false} PutAllAt(m: map<string, string>, order: seq<string>, result: map<string, string>, k: string)
    requires forall i :: 0 <= i < |order| ==> order[i] in m
    ensures var r := PutAll(m, order, result);
            && (k in r <==> k in result || k in order)
            && (k in r ==> r[k] == if k in order then m[k] else result[k])
    decreases order
  {
    if order != [] {
      PutAllAt(m, order[1..], result[order[0] := m[order[0]]], k);
    }
  }

  lemma PutAllOfKeys(m: map<string, string>, order: seq<string>)
    requires forall k :: k in order <==> k in m
    ensures PutAll(m, order, map[]) == m
  {
    forall k ensures k in PutAll(m, order, map[]) <==> k in m {
      PutAllAt(m, order, map[], k);
    }
    forall k | k in m ensures PutAll(m, order, map[])[k] == m[k] {
      PutAllAt(m, order, map[], k);
    }
  }

  lemma BaggageRoundTrip(m: map<string, string>)
    requires CleanMap(m)
    ensures ParseBaggage(FormatBaggage(m)) == m
  {
    var order := InOrder(m.Keys);
    ItemsOfJoin(m, order);
    AddEntries(m, order, map[]);
    PutAllOfKeys(m, order);
  }

  lemma {:induction false} ItemsHaveNoComma(s: string)
    ensures forall i :: 0 <= i < |Items(s)| ==> ',' !in Items(s)[i]
    decreases |s|
  {
    if s != "" {
      var i := Find(s, ',');
      if i < |s| {
        ItemsHaveNoComma(s[i + 1..]);
      }
    }
  }

  lemma {:induction false} TrimLeftSuffix(s: string)
    ensures |TrimLeft(s)| <= |s| && TrimLeft(s) == s[|s| - |TrimLeft(s)|..]
  {
    if s != "" && Blank(s[0]) {
      TrimLeftSuffix(s[1..]);
    }
  }

  lemma AddItemClean(result: map<string, string>, item: string)
    requires CleanMap(result) && ',' !in item
    ensures CleanMap(AddItem(result, item))
  {
    var l := TrimLeft(item);
    var t := TrimRight(l);
    TrimLeftSuffix(item);
    assert ',' !in l;
    assert ',' !in t;
    var eq := Find(t, '=');
    if eq < |t| {
      assert Clean(t[..eq], t[eq + 1..]);
    }
  }

  lemma {:induction false} AddItemsClean(result: map<string, string>, items: seq<string>)
    requires CleanMap(result) && forall i :: 0 <= i < |items| ==> ',' !in items[i]
    ensures CleanMap(AddItems(result, items))
    decreases items
  {
    if items != [] {
      AddItemClean(result, items[0]);
      AddItemsClean(AddItem(result, items[0]), items[1..]);
    }
  }

  /** Whatever the header, everything parsed from it is clean. */
  lemma ParsedIsClean(s: string)
    ensures CleanMap(ParseBaggage(s))
  {
    ItemsHaveNoComma(s);
    AddItemsClean(map[], Items(s));
  }

  /** Exactly which baggage survives the header: keys without ',' or '=' or a leading blank, values without
      ',' or a trailing blank. */
  lemma BaggageRoundTripIff(m: map<string, string>)
    ensures ParseBaggage(FormatBaggage(m)) == m <==> CleanMap(m)
  {
    ParsedIsClean(FormatBaggage(m));
    if CleanMap(m) {
      BaggageRoundTrip(m);
    }
  }

  // ----- baggage: any header -----

  predicate AllBlank(s: string) { forall i :: 0 <= i < |s| ==> Blank(s[i]) }

  /** What stands between the commas of a header: a key and a value with blanks around them, or something without an
      equals sign. */
  datatype Part = Pair(before: string, key: string, value: string, after: string) | Junk(text: string) {
    predicate Good() {
      match this
      case Pair(b, k, v, a) => AllBlank(b) && AllBlank(a) && Clean(k, v)
      case Junk(t) => ',' !in t && '=' !in t
    }

    function Text(): string {
      match this
      case Pair(b, k, v, a) => b + (k + "=" + v + a)
      case Junk(t) => t
    }
  }

  ghost predicate AllGood(parts: seq<Part>) { forall i :: 0 <= i < |parts| ==> parts[i].Good() }

  function Header(parts: seq<Part>): string {
    if parts == [] then ""
    else if |parts| == 1 then parts[0].Text()
    else parts[0].Text() + "," + Header(parts[1..])
  }

  lemma {:induction false} TrimLeftBlanks(b: string, s: string)
    requires AllBlank(b)
    ensures TrimLeft(b + s) == TrimLeft(s)
    decreases b
  {
    if b == "" {
      assert b + s == s;
    } else {
      assert (b + s)[1..] == b[1..] + s;
      TrimLeftBlanks(b[1..], s);
    }
  }

  lemma {:induction false} TrimRightBlanks(s: string, b: string)
    requires AllBlank(b)
    ensures TrimRight(s + b) == TrimRight(s)
    decreases b
  {
    if b == "" {
      assert s + b == s;
    } else {
      var c := b[..|b| - 1];
      assert (s + b)[..|s + b| - 1] == s + c;
      TrimRightBlanks(s, c);
    }
  }

  lemma PairAdded(result: map<string, string>, b: string, k: string, v: string, a: string)
    requires AllBlank(b) && AllBlank(a) && Clean(k, v)
    ensures AddItem(result, b + (k + "=" + v + a)) == result[k := v]
    ensures ',' !in b + (k + "=" + v + a)
  {
    CleanItem(k, v, result);
    TrimmedItem(k, v);
    TrimmedPadding(b, k + "=" + v, a);
    SameAdded(result, b + (k + "=" + v + a), k + "=" + v);
  }

  lemma SameAdded(result: map<string, string>, x: string, y: string)
    requires TrimRight(TrimLeft(x)) == TrimRight(TrimLeft(y))
    ensures AddItem(result, x) == AddItem(result, y)
  {}

  lemma TrimmedPadding(b: string, item: string, a: string)
    requires AllBlank(b) && AllBlank(a) && item != "" && TrimLeft(item) == TrimRight(item) == item
    ensures TrimRight(TrimLeft(b + (item + a))) == TrimRight(TrimLeft(item))
  {
    TrimLeftBlanks(b, item + a);
    assert !Blank(item[0]) && (item + a)[0] == item[0];
    TrimRightBlanks(item, a);
  }

  lemma JunkSkipped(result: map<string, string>, t: string)
    requires '=' !in t
    ensures AddItem(result, t) == result
  {
    TrimLeftSuffix(t);
    assert '=' !in TrimLeft(t);
    assert '=' !in TrimRight(TrimLeft(t));
  }

  /** The pairs stored one after the other. */
  function Stored(result: map<string, string>, parts: seq<Part>): map<string, string>
    decreases parts
  {
    if parts == [] then result
    else Stored(if parts[0].Pair? then result[parts[0].key := parts[0].value] else result, parts[1..])
  }

  lemma PartAdded(result: map<string, string>, p: Part)
    requires p.Good()
    ensures AddItem(result, p.Text()) == (if p.Pair? then result[p.key := p.value] else result) && ',' !in p.Text()
  {
    match p
    case Pair(b, k, v, a) => PairAdded(result, b, k, v, a);
    case Junk(t) => JunkSkipped(result, t);
  }

  lemma OneItem(result: map<string, string>, e: string)
    requires ',' !in e
    ensures AddItems(result, Items(e)) == AddItem(result, e)
  {
    if e == "" {
      JunkSkipped(result, e);
    } else {
      ItemsCons(e, "");
      AddFirst(result, e, []);
      assert [e] + [] == [e];
    }
  }

  lemma FirstOfMany(result: map<string, string>, e: string, rest: string)
    requires ',' !in e
    ensures AddItems(result, Items(e + "," + rest)) == AddItems(AddItem(result, e), Items(rest))
  {
    var s := e + "," + rest;
    assert s[..|e|] == e && s[|e| + 1..] == rest;
    FindIs(s, ',', |e|);
    FirstItem(s, |e|, rest);
    AddFirst(result, e, Items(rest));
  }

  lemma {:induction false} PartsStored(result: map<string, string>, parts: seq<Part>)
    requires AllGood(parts)
    ensures AddItems(result, Items(Header(parts))) == Stored(result, parts)
    decreases parts
  {
    if parts != [] {
      PartAdded(result, parts[0]);
      var next := AddItem(result, parts[0].Text());
      if |parts| == 1 {
        OneItem(result, parts[0].Text());
        assert Stored(next, parts[1..]) == next;
      } else {
        FirstOfMany(result, parts[0].Text(), Header(parts[1..]));
        PartsStored(next, parts[1..]);
      }
    }
  }

  ghost predicate IsKey(parts: seq<Part>, k: string) {
    exists i :: 0 <= i < |parts| && parts[i].Pair? && parts[i].key == k
  }

  /** Pair `i` is the last of its key. */
  ghost predicate LastOf(parts: seq<Part>, i: nat) {
    && i < |parts| && parts[i].Pair?
    && forall j :: i < j < |parts| && parts[j].Pair? ==> parts[j].key != parts[i].key
  }

  /** `m` has the keys of the pairs, each with the value of its last pair. */
  ghost predicate LastWins(m: map<string, string>, parts: seq<Part>) {
    && (forall k :: k in m <==> IsKey(parts, k))
    && forall i: nat :: LastOf(parts, i) ==> parts[i].key in m && m[parts[i].key] == parts[i].value
  }

  lemma {:induction false} StoredKeys(result: map<string, string>, parts: seq<Part>, k: string)
    ensures k in Stored(result, parts) <==> k in result || IsKey(parts, k)
    ensures k in result && !IsKey(parts, k) ==> Stored(result, parts)[k] == result[k]
    decreases parts
  {
    if parts != [] {
      var p, rest := parts[0], parts[1..];
      var next := if p.Pair? then result[p.key := p.value] else result;
      StoredKeys(next, rest, k);
      assert IsKey(parts, k) <==> (p.Pair? && p.key == k) || IsKey(rest, k) by {
        if i :| 0 <= i < |parts| && parts[i].Pair? && parts[i].key == k {
          assert i == 0 || rest[i - 1] == parts[i];
        }
        if i :| 0 <= i < |rest| && rest[i].Pair? && rest[i].key == k {
          assert parts[i + 1] == rest[i];
        }
      }
    }
  }

  lemma {:induction false} StoredLast(result: map<string, string>, parts: seq<Part>, i: nat)
    requires LastOf(parts, i)
    ensures parts[i].key in Stored(result, parts) && Stored(result, parts)[parts[i].key] == parts[i].value
    decreases parts
  {
    var p, rest := parts[0], parts[1..];
    var next := if p.Pair? then result[p.key := p.value] else result;
    assert forall j :: 0 <= j < |rest| ==> rest[j] == parts[j + 1];
    if i == 0 {
      assert !IsKey(rest, p.key);
      StoredKeys(next, rest, p.key);
    } else {
      StoredLast(next, rest, i - 1);
    }
  }

  /** What is parsed from any header, blanks around the pairs and items without an equals sign included: the keys of
      its pairs, each with the value of its last pair. */
  lemma ParsedMeans(parts: seq<Part>)
    requires AllGood(parts)
    ensures LastWins(ParseBaggage(Header(parts)), parts)
  {
    PartsStored(map[], parts);
    forall k ensures k in Stored(map[], parts) <==> IsKey(parts, k) {
      StoredKeys(map[], parts, k);
    }
    forall i: nat | LastOf(parts, i)
      ensures parts[i].key in Stored(map[], parts) && Stored(map[], parts)[parts[i].key] == parts[i].value
    {
      StoredLast(map[], parts, i);
    }
  }

  lemma {:induction false} LeadingBlanks(s: string) returns (b: string, t: string)
    ensures s == b + t && AllBlank(b) && (t == "" || !Blank(t[0]))
  {
    if s != "" && Blank(s[0]) {
      b, t := LeadingBlanks(s[1..]);
      b := [s[0]] + b;
    } else {
      b, t := "", s;
    }
  }

  lemma {:induction false} TrailingBlanks(s: string) returns (t: string, b: string)
    ensures s == t + b && AllBlank(b) && (t == "" || !Blank(t[|t| - 1]))
  {
    if s != "" && Blank(s[|s| - 1]) {
      t, b := TrailingBlanks(s[..|s| - 1]);
      b := b + [s[|s| - 1]];
    } else {
      t, b := s, "";
    }
  }

  lemma ItemIsPart(item: string) returns (p: Part)
    requires ',' !in item
    ensures p.Good() && p.Text() == item
  {
    var i := Find(item, '=');
    if i == |item| {
      assert item[..i] == item;
      p := Junk(item);
    } else {
      var b, k := LeadingBlanks(item[..i]);
      var v, a := TrailingBlanks(item[i + 1..]);
      assert ',' !in b + k && '=' !in b + k && ',' !in v + a;
      p := Pair(b, k, v, a);
      assert item == (b + k) + "=" + (v + a);
      PairText(b, k, v, a);
    }
  }

  lemma PairText(b: string, k: string, v: string, a: string)
    requires ',' !in b + k && '=' !in b + k && ',' !in v + a
    ensures Pair(b, k, v, a).Text() == (b + k) + "=" + (v + a)
    ensures ',' !in k && '=' !in k && ',' !in v
  {
    forall c: char ensures (c in k ==> c in b + k) && (c in v ==> c in v + a) {}
  }

  /** Every header is made of such parts. */
  lemma {:induction false} EveryHeader(s: string) returns (parts: seq<Part>)
    ensures parts != [] && AllGood(parts) && Header(parts) == s
    decreases |s|
  {
    var i := Find(s, ',');
    var p := ItemIsPart(s[..i]);
    if i == |s| {
      assert s[..i] == s;
      parts := [p];
    } else {
      var more := EveryHeader(s[i + 1..]);
      parts := [p] + more;
      assert parts[1..] == more;
      assert s == s[..i] + "," + s[i + 1..];
    }
  }

  // ----- carriers -----

  class Carrier {
    var headers: map<string, string>

    constructor ()
      ensures headers == map[]
    {
      headers := map[];
    }
  }

  /** Headers after storing a traceparent and whichever of state and baggage there is. */
  function PutHeaders(headers: map<string, string>, parent: string, state: Option<string>, baggage: Option<string>)
    : map<string, string>
  {
    var h1 := headers[TRACEPARENT_HEADER := parent];
    var h2 := if state.Some? then h1[TRACESTATE_HEADER := state.value] else h1;
    if baggage.Some? then h2[BAGGAGE_HEADER := baggage.value] else h2
  }

  /** The headers after injection: an invalid context changes nothing, and empty parts are not written. */
  ghost function Injected(c: TraceContext, headers: map<string, string>): map<string, string>
    requires c.flags < 256
  {
    if !ValidContext(c) then headers
    else PutHeaders(headers, FormatTraceparent(c),
                    if c.traceState == "" then None else Some(c.traceState),
                    if c.baggage == map[] then None else Some(FormatBaggage(c.baggage)))
  }

  method InjectTraceContext(c: TraceContext, carrier: Carrier)
    requires c.flags < 256
    modifies carrier
    ensures carrier.headers == Injected(c, old(carrier.headers))
  {
    if !ValidContext(c) {
      return;
    }
    var parent := FormatTraceparent(c);
    var baggage := None;
    if c.baggage != map[] {
      var s := WriteBaggage(c.baggage);
      baggage := Some(s);
    }
    StoreHeaders(carrier, parent, if c.traceState == "" then None else Some(c.traceState), baggage);
  }

  method StoreHeaders(carrier: Carrier, parent: string, state: Option<string>, baggage: Option<string>)
    modifies carrier
    ensures carrier.headers == PutHeaders(old(carrier.headers), parent, state, baggage)
  {
    carrier.headers := carrier.headers[TRACEPARENT_HEADER := parent];
    if state.Some? {
      carrier.headers := carrier.headers[TRACESTATE_HEADER := state.value];
    }
    if baggage.Some? {
      carrier.headers := carrier.headers[BAGGAGE_HEADER := baggage.value];
    }
  }

  function HeaderOr(headers: map<string, string>, key: string): string {
    if key in headers then headers[key] else ""
  }

  /** A missing state or baggage header leaves the parsed context's empty one. */
  function Extracted(headers: map<string, string>): TraceContext {
    if TRACEPARENT_HEADER !in headers then INVALID_CONTEXT
    else match ParseTraceparent(headers[TRACEPARENT_HEADER])
      case None => INVALID_CONTEXT
      case Some(c) => c.(traceState := HeaderOr(headers, TRACESTATE_HEADER),
                         baggage := ParseBaggage(HeaderOr(headers, BAGGAGE_HEADER)))
  }

  /** What propagates: ids, flags, state and baggage. */
  predicate SameTrace(a: TraceContext, b: TraceContext) {
    && a.traceId == b.traceId && a.spanId == b.spanId && a.flags == b.flags
    && a.traceState == b.traceState && a.baggage == b.baggage
  }

  /** What a carrier that already holds headers may add: a state or baggage the new context does not have. */
  predicate NothingStale(c: TraceContext, headers: map<string, string>) {
    && (c.traceState == "" ==> HeaderOr(headers, TRACESTATE_HEADER) == "")
    && (c.baggage == map[] ==> ParseBaggage(HeaderOr(headers, BAGGAGE_HEADER)) == map[])
  }

  lemma DistinctHeaders()
    ensures TRACEPARENT_HEADER != TRACESTATE_HEADER
    ensures TRACEPARENT_HEADER != BAGGAGE_HEADER && TRACESTATE_HEADER != BAGGAGE_HEADER
  {
    assert TRACEPARENT_HEADER[5] == 'p' && TRACESTATE_HEADER[5] == 's';
    assert |BAGGAGE_HEADER| == 7 && |TRACESTATE_HEADER| == 10 && |TRACEPARENT_HEADER| == 11;
  }

  lemma ReadHeaders(headers: map<string, string>, parent: string, state: Option<string>, baggage: Option<string>)
    ensures var h := PutHeaders(headers, parent, state, baggage);
            && TRACEPARENT_HEADER in h && h[TRACEPARENT_HEADER] == parent
            && HeaderOr(h, TRACESTATE_HEADER) == (if state.Some? then state.value else HeaderOr(headers, TRACESTATE_HEADER))
            && HeaderOr(h, BAGGAGE_HEADER) == (if baggage.Some? then baggage.value else HeaderOr(headers, BAGGAGE_HEADER))
  {
    DistinctHeaders();
  }

  lemma ExtractHeaders(c: TraceContext, h: map<string, string>)
    requires c.flags < 256 && ValidContext(c)
    requires TRACEPARENT_HEADER in h && h[TRACEPARENT_HEADER] == FormatTraceparent(c)
    ensures LowerIds(c) ==>
              Extracted(h) == TraceContext(c.traceId, c.spanId, "", c.flags, HeaderOr(h, TRACESTATE_HEADER),
                                           ParseBaggage(HeaderOr(h, BAGGAGE_HEADER)), true)
    ensures !LowerIds(c) ==> Extracted(h) == INVALID_CONTEXT && Extracted(h).traceId != c.traceId
  {
    ParseFormatIff(c);
    assert forall i :: 0 <= i < 32 ==> INVALID_CONTEXT.traceId[i] == '0';
  }

  /** Propagation through any carrier, exactly: a valid context comes back the same if and only if its ids
      are lower case, its baggage is clean, and the carrier held no stale state or baggage that the context
      leaves in place. */
  lemma InjectExtractIff(c: TraceContext, headers: map<string, string>)
    requires c.flags < 256 && ValidContext(c)
    ensures SameTrace(Extracted(Injected(c, headers)), c) <==>
            (LowerIds(c) && CleanMap(c.baggage) && NothingStale(c, headers))
    ensures LowerIds(c) ==> Extracted(Injected(c, headers)).remote && Extracted(Injected(c, headers)).parentSpanId == ""
  {
    ReadHeaders(headers, FormatTraceparent(c),
                if c.traceState == "" then None else Some(c.traceState),
                if c.baggage == map[] then None else Some(FormatBaggage(c.baggage)));
    ExtractHeaders(c, Injected(c, headers));
    BaggageRoundTripIff(c.baggage);
  }

  /** What is extracted from any headers is valid if and only if they hold a traceparent that can be parsed and whose
      flags are 00 or 01. */
  lemma ExtractedValidIff(h: map<string, string>)
    ensures ValidContext(Extracted(h)) <==>
              && TRACEPARENT_HEADER in h && ParseTraceparent(h[TRACEPARENT_HEADER]).Some?
              && ParseTraceparent(h[TRACEPARENT_HEADER]).value.flags < 2
  {
    assert forall i :: 0 <= i < 32 ==> INVALID_CONTEXT.traceId[i] == '0';
  }

  /** Passing on what came in: the traceparent of any headers is written again, unchanged, if and only if it can be
      parsed and has flags 00 or 01; otherwise nothing is written. */
  lemma ForwardIff(h: map<string, string>)
    requires TRACEPARENT_HEADER in h
    ensures Extracted(h).flags < 256
    ensures var out := Injected(Extracted(h), map[]);
            var p := ParseTraceparent(h[TRACEPARENT_HEADER]);
            if p.Some? && p.value.flags < 2 then
              TRACEPARENT_HEADER in out && out[TRACEPARENT_HEADER] == h[TRACEPARENT_HEADER]
            else out == map[]
  {
    ExtractedValidIff(h);
    var s := h[TRACEPARENT_HEADER];
    if ParseTraceparent(s).Some? {
      FormatParse(s);
      var c := Extracted(h);
      assert FormatTraceparent(c) == FormatTraceparent(ParseTraceparent(s).value);
      if ValidContext(c) {
        ReadHeaders(map[], FormatTraceparent(c),
                    if c.traceState == "" then None else Some(c.traceState),
                    if c.baggage == map[] then None else Some(FormatBaggage(c.baggage)));
      }
    }
  }

  /** Through an empty carrier nothing is stale. */
  lemma FreshCarrier(c: TraceContext)
    requires c.flags < 256 && ValidContext(c)
    ensures SameTrace(Extracted(Injected(c, map[])), c) <==> LowerIds(c) && CleanMap(c.baggage)
  {
    InjectExtractIff(c, map[]);
  }
}
