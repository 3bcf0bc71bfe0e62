/** Which framebuffer rows were written since they were last drawn. */
module DirtyRows {
  import opened Words

  datatype Span = Span(first: u32, last: u32)

  /** The geometry is fixed; rows holds the marked rows, and the two generations say whether any mark is new. */
  datatype Tracker = Tracker(height: u32, stride: u32, frameBytes: u64, rows: set<nat>, marks: nat, consumed: nat)

  function RowRange(first: nat, past: nat): (s: set<nat>)
    ensures forall r: nat :: r in s <==> first <= r < past
    decreases past - first
  {
    if first >= past then {} else {first} + RowRange(first + 1, past)
  }

  function MarkRows(t: Tracker, first: u32, last: u32): Tracker {
    if first >= t.height then t
    else t.(rows := t.rows + RowRange(first, Min(last, t.height - 1) + 1), marks := t.marks + 1)
  }

  function FirstRow(t: Tracker, offset: u64): u32
    requires t.stride > 0
  {
    offset / t.stride % TWO32
  }

  /** The last row, where both the end of the access and the row number wrap to their word size. */
  function LastRow(t: Tracker, offset: u64, size: u64): u32
    requires t.stride > 0 && t.frameBytes > 0
  {
    Min(t.frameBytes - 1, (offset + size - 1) % TWO64) / t.stride % TWO32
  }

  predicate Ignored(t: Tracker, offset: u64, size: u64) {
    size == 0 || t.stride == 0 || t.height == 0 || offset >= t.frameBytes
  }

  function Wrote(t: Tracker, offset: u64, size: u64): Tracker {
    if Ignored(t, offset, size) then t else MarkRows(t, FirstRow(t, offset), LastRow(t, offset, size))
  }

  function MarkedAll(t: Tracker): Tracker {
    if t.height == 0 then t else MarkRows(t, 0, t.height - 1)
  }

  predicate HasDirty(t: Tracker) { t.marks != t.consumed }

  function Consumed(t: Tracker): Tracker {
    if HasDirty(t) then t.(rows := {}, consumed := t.marks) else t
  }

  // ----- the bytes a write touches -----

  /** Row r holds a byte of the frame that the access covers. */
  ghost predicate TouchesRow(t: Tracker, offset: u64, size: u64, r: nat) {
    exists b: nat :: offset <= b < offset + size && b < t.frameBytes && InRow(t, b, r)
  }

  ghost predicate InRow(t: Tracker, b: nat, r: nat) {
    t.stride > 0 && r * t.stride <= b < (r + 1) * t.stride
  }

  ghost function Touched(t: Tracker, offset: u64, size: u64): set<nat> {
    set r: nat | 0 <= r < t.height && TouchesRow(t, offset, size, r)
  }

  /** Row numbers fit 32 bits, and the access does not run past the end of the address space. */
  predicate Representable(t: Tracker, offset: u64, size: u64) {
    t.frameBytes <= t.stride * TWO32 && offset + size <= TWO64
  }

  lemma DivMono(a: nat, b: nat, m: nat)
    requires a <= b && m > 0
    ensures a / m <= b / m
  {
    MulCancel(a / m, b / m + 1, m);
  }

  lemma MulCancel(x: int, y: int, m: int)
    requires m > 0 && x * m < y * m
    ensures x < y
  {
    if x >= y { MulMono(y, x, m); }
  }

  lemma RowOfByte(t: Tracker, b: nat, r: nat)
    requires t.stride > 0
    ensures InRow(t, b, r) <==> b / t.stride == r
  {
    assert b == b / t.stride * t.stride + b % t.stride;
    assert (r + 1) * t.stride == r * t.stride + t.stride;
    if InRow(t, b, r) { QuotientUnique(b, t.stride, r, b - r * t.stride); }
  }

  /** A byte of the frame lies in a row whose number fits 32 bits. */
  lemma RowFits(t: Tracker, b: nat)
    requires t.stride > 0 && b < t.frameBytes <= t.stride * TWO32
    ensures b / t.stride < TWO32
  {
    MulCancel(b / t.stride, TWO32, t.stride);
  }

  /** With representable rows nothing wraps. */
  lemma RowsExact(t: Tracker, offset: u64, size: u64)
    requires Representable(t, offset, size) && !Ignored(t, offset, size)
    ensures FirstRow(t, offset) == offset / t.stride
    ensures LastRow(t, offset, size) == Min(t.frameBytes - 1, offset + size - 1) / t.stride
    ensures FirstRow(t, offset) <= LastRow(t, offset, size)
  {
    var end := offset + size - 1;
    var last := Min(t.frameBytes - 1, end);
    SmallRemainder(end, TWO64);
    RowFits(t, offset);
    RowFits(t, last);
    DivMono(offset, last, t.stride);
    SmallRemainder(offset / t.stride, TWO32);
    SmallRemainder(last / t.stride, TWO32);
  }

  lemma SmallRemainder(a: nat, m: nat)
    requires a < m
    ensures a % m == a
  {
  }

  /** An access marks exactly the rows of the frame that hold one of its bytes. */
  lemma WroteMarksTouched(t: Tracker, offset: u64, size: u64)
    requires Representable(t, offset, size)
    ensures Wrote(t, offset, size).rows == t.rows + Touched(t, offset, size)
  {
    if !Ignored(t, offset, size) {
      var last := Min(t.frameBytes - 1, offset + size - 1);
      RowsExact(t, offset, size);
      hide InRow, FirstRow, LastRow;
      var a, z := offset / t.stride, last / t.stride;
      forall r: nat | r < t.height ensures a <= r <= z <==> TouchesRow(t, offset, size, r) {
        if a <= r <= z {
          var b := Max(offset, r * t.stride);
          ByteOfRow(t, offset, last, r);
          assert InRow(t, b, r);
        }
        if b: nat :| offset <= b < offset + size && b < t.frameBytes && InRow(t, b, r) {
          RowOfByte(t, b, r);
          DivMono(offset, b, t.stride);
          DivMono(b, last, t.stride);
        }
      }
    }
  }

  lemma ByteOfRow(t: Tracker, offset: nat, last: nat, r: nat)
    requires t.stride > 0 && offset <= last && offset / t.stride <= r <= last / t.stride
    ensures Max(offset, r * t.stride) <= last && InRow(t, Max(offset, r * t.stride), r)
  {
    var s: nat := t.stride;
    MulMono(r, last / s, s);
    assert last / s * s <= last;
    MulMono(offset / s + 1, r + 1, s);
    assert offset < (offset / s + 1) * s;
    assert (r + 1) * s == r * s + s;
  }

  // ----- any number of writes -----

  datatype Event = Write(offset: u64, size: u64) | MarkEverything

  function Happened(t: Tracker, e: Event): Tracker {
    match e
    case Write(offset, size) => Wrote(t, offset, size)
    case MarkEverything => MarkedAll(t)
  }

  function HappenedAll(t: Tracker, events: seq<Event>): Tracker
    decreases |events|
  {
    if events == [] then t else HappenedAll(Happened(t, events[0]), events[1..])
  }

  ghost function RowsOf(t: Tracker, e: Event): set<nat> {
    match e
    case Write(offset, size) => Touched(t, offset, size)
    case MarkEverything => RowRange(0, t.height)
  }

  ghost predicate Good(t: Tracker, e: Event) {
    e.Write? ==> Representable(t, e.offset, e.size)
  }

  predicate SameFrame(t: Tracker, t': Tracker) {
    t'.height == t.height && t'.stride == t.stride && t'.frameBytes == t.frameBytes
  }

  /** Since the last drawing exactly the touched rows of all the writes are marked, and no others. */
  lemma {:induction false} MarkedAreTouched(t: Tracker, events: seq<Event>)
    requires forall e | e in events :: Good(t, e)
    ensures SameFrame(t, HappenedAll(t, events))
    ensures forall r: nat :: r in HappenedAll(t, events).rows <==>
              r in t.rows || exists e :: e in events && r in RowsOf(t, e)
    decreases |events|
  {
    if events != [] {
      var t1 := Happened(t, events[0]);
      var rest := events[1..];
      HappenedMarks(t, events[0]);
      forall e | e in rest ensures Good(t1, e) && RowsOf(t1, e) == RowsOf(t, e) {
        assert Good(t, e);
        SameRows(t, t1, e);
      }
      MarkedAreTouched(t1, rest);
      assert events == [events[0]] + rest;
      forall r: nat
        ensures r in HappenedAll(t, events).rows <==> r in t.rows || exists e :: e in events && r in RowsOf(t, e)
      {
        assert r in t1.rows <==> r in t.rows || r in RowsOf(t, events[0]);
      }
    }
  }

  lemma HappenedMarks(t: Tracker, e: Event)
    requires Good(t, e)
    ensures SameFrame(t, Happened(t, e)) && Happened(t, e).rows == t.rows + RowsOf(t, e)
  {
    hide Touched;
    match e
    case Write(offset, size) => WroteMarksTouched(t, offset, size);
    case MarkEverything =>
  }

  lemma SameRows(t: Tracker, t': Tracker, e: Event)
    requires SameFrame(t, t')
    ensures Good(t, e) ==> Good(t', e)
    ensures RowsOf(t', e) == RowsOf(t, e)
  {
    match e
    case Write(offset, size) =>
      forall r: nat ensures TouchesRow(t, offset, size, r) == TouchesRow(t', offset, size, r) {
        assert forall b: nat :: InRow(t, b, r) == InRow(t', b, r);
      }
      assert Touched(t, offset, size) == Touched(t', offset, size);
    case MarkEverything =>
  }

  // ----- does a new mark mean a marked row? -----

  /** New marks and marked rows go together. */
  predicate InAgreement(t: Tracker) {
    t.rows != {} <==> HasDirty(t)
  }

  /** The generations never run backwards. */
  predicate Counting(t: Tracker) { t.consumed <= t.marks }

  /** A mark whose wrapped last row lies before its first row: it is counted but covers nothing. */
  predicate Blank(t: Tracker, offset: u64, size: u64) {
    && !Ignored(t, offset, size) && FirstRow(t, offset) < t.height
    && LastRow(t, offset, size) < FirstRow(t, offset)
  }

  /** A write keeps the agreement unless it is blank and nothing was marked before, and then it breaks it. */
  lemma WroteAgreesIff(t: Tracker, offset: u64, size: u64)
    requires Counting(t) && InAgreement(t)
    ensures InAgreement(Wrote(t, offset, size)) <==> !(Blank(t, offset, size) && t.rows == {})
  {
    if !Ignored(t, offset, size) && FirstRow(t, offset) < t.height {
      var first, last := FirstRow(t, offset), LastRow(t, offset, size);
      hide FirstRow, LastRow;
      if last >= first { assert first in RowRange(first, Min(last, t.height - 1) + 1); }
      else { assert RowRange(first, Min(last, t.height - 1) + 1) == {}; }
    }
  }

  /** Accesses with representable rows are never blank. */
  lemma RepresentableNotBlank(t: Tracker, offset: u64, size: u64)
    requires Representable(t, offset, size)
    ensures !Blank(t, offset, size)
  {
    if !Ignored(t, offset, size) { RowsExact(t, offset, size); }
    hide FirstRow, LastRow;
  }

  /** So with them, "something to draw" means a marked row, after any run of writes. */
  lemma {:induction false} AlwaysInAgreement(t: Tracker, events: seq<Event>)
    requires Counting(t) && InAgreement(t) && forall e | e in events :: Good(t, e)
    ensures InAgreement(HappenedAll(t, events)) && Counting(HappenedAll(t, events))
    decreases |events|
  {
    if events != [] {
      var e := events[0];
      var t1 := Happened(t, e);
      assert Good(t, e);
      match e {
        case Write(offset, size) =>
          RepresentableNotBlank(t, offset, size);
          WroteAgreesIff(t, offset, size);
        case MarkEverything =>
          if t.height > 0 { assert 0 in t1.rows; }
      }
      forall e' | e' in events[1..] ensures Good(t1, e') {
        assert Good(t, e');
      }
      AlwaysInAgreement(t1, events[1..]);
    }
  }

  // ----- drawing again and again -----

  /** Batches of events with a drawing after each. */
  function Drawn(t: Tracker, batches: seq<seq<Event>>): Tracker
    decreases |batches|
  {
    if batches == [] then t
    else Consumed(HappenedAll(Drawn(t, batches[..|batches| - 1]), batches[|batches| - 1]))
  }

  ghost predicate AllGood(t: Tracker, batches: seq<seq<Event>>) {
    forall b, e | b in batches && e in b :: Good(t, e)
  }

  /** After a drawing no row is marked and no mark is new. */
  lemma {:induction false} DrawnIsClean(t: Tracker, batches: seq<seq<Event>>)
    requires t.rows == {} && InAgreement(t) && Counting(t) && AllGood(t, batches)
    ensures var u := Drawn(t, batches); u.rows == {} && !HasDirty(u) && Counting(u) && SameFrame(t, u)
    decreases |batches|
  {
    if batches != [] {
      var init, last := batches[..|batches| - 1], batches[|batches| - 1];
      DrawnIsClean(t, init);
      var u := Drawn(t, init);
      assert last in batches;
      forall e | e in last ensures Good(u, e) {
        assert Good(t, e);
        SameRows(t, u, e);
      }
      MarkedAreTouched(u, last);
      AlwaysInAgreement(u, last);
    }
  }

  /** What is marked when the k-th drawing comes is exactly what was touched since the drawing before it. */
  lemma MarkedSinceLastDrawing(t: Tracker, batches: seq<seq<Event>>, k: nat)
    requires t.rows == {} && InAgreement(t) && Counting(t) && AllGood(t, batches) && k < |batches|
    ensures var u := HappenedAll(Drawn(t, batches[..k]), batches[k]);
      && SameFrame(t, u) && InAgreement(u)
      && forall r: nat :: r in u.rows <==> exists e :: e in batches[k] && r in RowsOf(t, e)
  {
    var init := batches[..k];
    assert forall b | b in init :: b in batches;
    DrawnIsClean(t, init);
    var u := Drawn(t, init);
    assert batches[k] in batches;
    forall e | e in batches[k] ensures Good(u, e) && RowsOf(u, e) == RowsOf(t, e) {
      assert Good(t, e);
      SameRows(t, u, e);
    }
    MarkedAreTouched(u, batches[k]);
    AlwaysInAgreement(u, batches[k]);
  }

  /** A frame of more than 2^32 rows of one byte: this write is counted, yet no row is marked. */
  lemma BlankExample()
    ensures var t := Tracker(10, 1, 0x1_0000_0010, {}, 0, 0);
      Blank(t, 9, 0xFFFF_FFF8) && HasDirty(Wrote(t, 9, 0xFFFF_FFF8)) && Wrote(t, 9, 0xFFFF_FFF8).rows == {}
  {
    var t := Tracker(10, 1, 0x1_0000_0010, {}, 0, 0);
    assert LastRow(t, 9, 0xFFFF_FFF8) == 0;
    assert RowRange(9, 1) == {};
  }

  // ----- spans -----

  predicate InSpan(s: Span, r: nat) { s.first <= r <= s.last }

  predicate Covered(spans: seq<Span>, r: nat) {
    exists i | 0 <= i < |spans| :: InSpan(spans[i], r)
  }

  /** Spans in order, with a clean row between any two, that cover exactly the marked rows below a bound. */
  ghost predicate AreRuns(spans: seq<Span>, rows: set<nat>, bound: nat) {
    && (forall i | 0 <= i < |spans| :: spans[i].first <= spans[i].last < bound)
    && (forall i, j | 0 <= i < j < |spans| :: spans[i].last + 1 < spans[j].first)
    && forall r: nat | r < bound :: r in rows <==> Covered(spans, r)
  }

  /** No row before the first span is covered. */
  lemma FirstCovers(a: seq<Span>, rows: set<nat>, bound: nat, r: nat)
    requires AreRuns(a, rows, bound) && a != [] && r < bound
    ensures r < a[0].first ==> r !in rows
    ensures r == a[0].last + 1 ==> r !in rows
    ensures InSpan(a[0], r) ==> r in rows
  {
    if InSpan(a[0], r) { assert Covered(a, r); }
    forall i | 0 <= i < |a| && InSpan(a[i], r) ensures r >= a[0].first && r != a[0].last + 1 {
      if i > 0 { assert a[0].last + 1 < a[i].first; }
    }
  }

  lemma FirstSame(a: seq<Span>, b: seq<Span>, rows: set<nat>, bound: nat)
    requires AreRuns(a, rows, bound) && AreRuns(b, rows, bound)
    ensures |a| > 0 ==> |b| > 0
    ensures |a| > 0 ==> a[0] == b[0]
  {
    if |a| > 0 {
      FirstCovers(a, rows, bound, a[0].first);
      assert Covered(b, a[0].first);
      FirstCovers(b, rows, bound, b[0].first);
      FirstCovers(a, rows, bound, b[0].first);
      FirstCovers(b, rows, bound, a[0].first);
      assert a[0].first == b[0].first;
      NotShorter(a, b, rows, bound);
      NotShorter(b, a, rows, bound);
    }
  }

  lemma NotShorter(a: seq<Span>, b: seq<Span>, rows: set<nat>, bound: nat)
    requires AreRuns(a, rows, bound) && AreRuns(b, rows, bound)
    requires a != [] && b != [] && a[0].first == b[0].first
    ensures a[0].last >= b[0].last
  {
    if a[0].last < b[0].last {
      FirstCovers(a, rows, bound, a[0].last + 1);
      FirstCovers(b, rows, bound, a[0].last + 1);
    }
  }

  lemma DropFirst(a: seq<Span>, rows: set<nat>, bound: nat)
    requires AreRuns(a, rows, bound) && a != []
    ensures AreRuns(a[1..], rows - RowRange(0, a[0].last + 1), bound)
  {
    var rest := a[1..];
    var left := rows - RowRange(0, a[0].last + 1);
    forall r: nat | r < bound ensures r in left <==> Covered(rest, r) {
      if Covered(rest, r) {
        var i :| 0 <= i < |rest| && InSpan(rest[i], r);
        assert InSpan(a[i + 1], r) && a[0].last + 1 < a[i + 1].first;
        assert Covered(a, r);
      }
      if r in left {
        var i :| 0 <= i < |a| && InSpan(a[i], r);
        assert i > 0 && InSpan(rest[i - 1], r);
      }
    }
    forall i, j | 0 <= i < j < |rest| ensures rest[i].last + 1 < rest[j].first {
      assert rest[i] == a[i + 1] && rest[j] == a[j + 1];
    }
  }

  /** The maximal runs of a set of rows are unique. */
  lemma {:induction false} RunsUnique(a: seq<Span>, b: seq<Span>, rows: set<nat>, bound: nat)
    requires AreRuns(a, rows, bound) && AreRuns(b, rows, bound)
    ensures a == b
    decreases |a|
  {
    FirstSame(a, b, rows, bound);
    FirstSame(b, a, rows, bound);
    if |a| > 0 {
      DropFirst(a, rows, bound);
      DropFirst(b, rows, bound);
      RunsUnique(a[1..], b[1..], rows - RowRange(0, a[0].last + 1), bound);
      assert a == [a[0]] + a[1..] && b == [b[0]] + b[1..];
    }
  }

  // ----- bits of a word -----

  function Bit(w: nat, k: nat): bool {
    if k == 0 then w % 2 == 1 else Bit(w / 2, k - 1)
  }

  /** The word with one more bit set. */
  function WithBit(w: nat, k: nat): nat {
    if k == 0 then (if w % 2 == 1 then w else w + 1) else 2 * WithBit(w / 2, k - 1) + w % 2
  }

  lemma {:induction false} WithBitSets(w: nat, k: nat, j: nat)
    ensures Bit(WithBit(w, k), j) <==> j == k || Bit(w, j)
  {
    if k > 0 && j > 0 { WithBitSets(w / 2, k - 1, j - 1); }
  }

  lemma {:induction false} WithBitFits(w: nat, k: nat, n: nat)
    requires k < n && w < Pow2(n)
    ensures WithBit(w, k) < Pow2(n)
  {
    hide Pow2;
    var half := Pow2(n - 1);
    HalfOf(n);
    if k > 0 { WithBitFits(w / 2, k - 1, n - 1); } else { assert w % 2 == 0 ==> w / 2 < half; }
  }

  lemma HalfOf(n: nat)
    requires n > 0
    ensures Pow2(n) == 2 * Pow2(n - 1)
  {
  }

  lemma {:induction false} NoBitsInZero(k: nat)
    ensures !Bit(0, k)
  {
    if k > 0 { NoBitsInZero(k - 1); }
  }
}
