/** The dirty-row bitmap: 64 rows to a word, marked and consumed in place. */
module FramebufferDirtyTrackerDevice {
  import opened Words
  import opened DirtyRows

  const WORD := 64

  /** The rows below a bound whose bits are set. */
  function RowsIn(words: seq<u64>, height: nat): (s: set<nat>)
    requires height <= WORD * |words|
    ensures forall r: nat :: r in s <==> r < height && Bit(words[r / WORD], r % WORD)
    decreases height
  {
    if height == 0 then {}
    else
      var rest := RowsIn(words, height - 1);
      if Bit(words[(height - 1) / WORD], (height - 1) % WORD) then rest + {height - 1} else rest
  }

  /** Setting one row's bit adds that row and no other. */
  lemma SetRow(words: seq<u64>, height: nat, row: nat, words': seq<u64>)
    requires row < height <= WORD * |words|
    requires WithBit(words[row / WORD], row % WORD) < TWO64
    requires words' == words[row / WORD := WithBit(words[row / WORD], row % WORD)]
    ensures RowsIn(words', height) == RowsIn(words, height) + {row}
  {
    hide Bit, WithBit;
    forall r: nat | r < height
      ensures Bit(words'[r / WORD], r % WORD) <==> r == row || Bit(words[r / WORD], r % WORD)
    {
      WithBitSets(words[row / WORD], row % WORD, r % WORD);
      if r / WORD == row / WORD && r % WORD == row % WORD { assert r == row; }
    }
  }

  class FramebufferDirtyTracker {
    const height: u32
    const stride: u32
    const frameBytes: u64
    const dirtyRows: array<u64>
    var dirtyGeneration: nat
    var consumedGeneration: nat

    predicate Valid()
      reads this
    {
      dirtyRows.Length == (height + WORD - 1) / WORD
    }

    function State(): Tracker
      requires Valid()
      reads this, dirtyRows
    {
      Tracker(height, stride, frameBytes, RowsIn(dirtyRows[..], height), dirtyGeneration, consumedGeneration)
    }

    constructor (height: u32, stride: u32, frameBytes: u64)
      ensures Valid() && fresh(dirtyRows)
      ensures State() == Tracker(height, stride, frameBytes, {}, 0, 0)
      ensures InAgreement(State()) && Counting(State())
    {
      this.height, this.stride, this.frameBytes := height, stride, frameBytes;
      dirtyRows := new u64[(height + WORD - 1) / WORD](i => 0);
      dirtyGeneration, consumedGeneration := 0, 0;
      new;
      AllClear(dirtyRows[..], height);
    }

    static lemma AllClear(words: seq<u64>, height: nat)
      requires height <= WORD * |words| && forall i | 0 <= i < |words| :: words[i] == 0
      ensures RowsIn(words, height) == {}
    {
      forall r: nat | r < height ensures !Bit(words[r / WORD], r % WORD) {
        NoBitsInZero(r % WORD);
      }
    }

    method MarkRow(row: u32)
      requires Valid() && row < height
      modifies dirtyRows
      ensures State() == old(State()).(rows := old(State()).rows + {row as nat})
    {
      WithBitFits(dirtyRows[row / WORD], row % WORD, WORD) by { PowersOfTwo(); }
      PowersOfTwo();
      ghost var before := dirtyRows[..];
      dirtyRows[row / WORD] := WithBit(dirtyRows[row / WORD], row % WORD);
      SetRow(before, height, row, dirtyRows[..]);
    }

    method MarkRowRange(firstRow: u32, lastRow: u32)
      requires Valid()
      modifies this`dirtyGeneration, dirtyRows
      ensures State() == MarkRows(old(State()), firstRow, lastRow)
    {
      hide RowsIn, RowRange, Bit;
      if firstRow >= height { return; }
      var last := Min(lastRow, height - 1);
      var row := firstRow;
      while row <= last
        invariant firstRow <= row <= Max(last + 1, firstRow)
        invariant State() == old(State()).(rows := old(State()).rows + RowRange(firstRow, row))
        decreases last + 1 - row
      {
        MarkRow(row);
        RangeGrows(firstRow, row);
        row := row + 1;
      }
      assert RowRange(firstRow, row) == RowRange(firstRow, last + 1);
      dirtyGeneration := dirtyGeneration + 1;
    }

    static lemma RangeGrows(first: nat, past: nat)
      requires first <= past
      ensures RowRange(first, past + 1) == RowRange(first, past) + {past}
    {
    }

    method OnRamWrite(offset: u64, size: u64)
      requires Valid()
      modifies this`dirtyGeneration, dirtyRows
      ensures State() == Wrote(old(State()), offset, size)
    {
      if size == 0 || stride == 0 || height == 0 { return; }
      if offset >= frameBytes { return; }
      var clampedLast := Min(frameBytes - 1, (offset + size - 1) % TWO64);
      var firstRow := offset / stride % TWO32;
      var lastRow := clampedLast / stride % TWO32;
      MarkRowRange(firstRow, lastRow);
    }

    method MarkAllDirty()
      requires Valid()
      modifies this`dirtyGeneration, dirtyRows
      ensures State() == MarkedAll(old(State()))
    {
      if height == 0 { return; }
      MarkRowRange(0, height - 1);
    }

    function HasDirtyRows(): bool
      reads this
    {
      dirtyGeneration != consumedGeneration
    }

    function RowIsDirty(row: u32): bool
      requires Valid() && row < height
      reads this, dirtyRows
    {
      Bit(dirtyRows[row / WORD], row % WORD)
    }

    /** The marked rows as maximal runs. */
    method CollectRuns() returns (out: seq<Span>)
      requires Valid()
      ensures AreRuns(out, State().rows, height)
    {
      hide AreRuns, Bit, Collected, RowIsDirty;
      out := [];
      ghost var rows := State().rows;
      NothingCollected(rows);
      var inRun := false;
      var runFirst: u32 := 0;
      var row := 0;
      while row < height
        invariant 0 <= row <= height
        invariant Collected(out, inRun, runFirst, rows, row)
      {
        RowDirtyIff(row);
        CollectStep(out, inRun, runFirst, rows, row);
        if RowIsDirty(row) {
          if !inRun {
            runFirst := row;
            inRun := true;
          }
        } else if inRun {
          out := out + [Span(runFirst, row - 1)];
          inRun := false;
        }
        row := row + 1;
      }
      AllCollected(out, inRun, runFirst, rows, height);
      if inRun { out := out + [Span(runFirst, height - 1)]; }
    }

    lemma RowDirtyIff(row: u32)
      requires Valid() && row < height
      ensures RowIsDirty(row) <==> row as nat in State().rows
    {
    }

    /** Hands out the marked rows and forgets them. */
    method ConsumeDirtyRows() returns (out: seq<Span>)
      requires Valid()
      modifies this`consumedGeneration, dirtyRows
      ensures State() == Consumed(old(State()))
      ensures HasDirty(old(State())) ==> AreRuns(out, old(State()).rows, height)
      ensures !HasDirty(old(State())) ==> out == []
    {
      hide AreRuns;
      out := [];
      if !HasDirtyRows() { return; }
      out := CollectRuns();
      ClearWords();
      consumedGeneration := dirtyGeneration;
    }

    method ClearWords()
      requires Valid()
      modifies dirtyRows
      ensures State() == old(State()).(rows := {})
    {
      var i := 0;
      while i < dirtyRows.Length
        invariant i <= dirtyRows.Length && forall k | 0 <= k < i :: dirtyRows[k] == 0
      {
        dirtyRows[i] := 0;
        i := i + 1;
      }
      AllClear(dirtyRows[..], height);
    }
  }

  /** The collecting loop at a row: what is finished together with the run still open, if there is one. */
  ghost predicate Collected(out: seq<Span>, inRun: bool, runFirst: u32, rows: set<nat>, row: nat)
    requires row < TWO32
  {
    && (inRun <==> row > 0 && row - 1 in rows)
    && (inRun ==> runFirst < row)
    && AreRuns(if inRun then out + [Span(runFirst, row - 1)] else out, rows, row)
  }

  lemma NothingCollected(rows: set<nat>)
    ensures Collected([], false, 0, rows, 0)
  {
  }

  lemma AllCollected(out: seq<Span>, inRun: bool, runFirst: u32, rows: set<nat>, row: nat)
    requires row < TWO32 && Collected(out, inRun, runFirst, rows, row)
    ensures inRun ==> runFirst < row && AreRuns(out + [Span(runFirst, row - 1)], rows, row)
    ensures !inRun ==> AreRuns(out, rows, row)
  {
  }

  lemma CollectStep(out: seq<Span>, inRun: bool, runFirst: u32, rows: set<nat>, row: nat)
    requires row + 1 < TWO32 && Collected(out, inRun, runFirst, rows, row)
    ensures row in rows ==> Collected(out, true, if inRun then runFirst else row, rows, row + 1)
    ensures row !in rows && !inRun ==> Collected(out, false, runFirst, rows, row + 1)
    ensures row !in rows && inRun ==>
              row > 0 && Collected(out + [Span(runFirst, row - 1)], false, runFirst, rows, row + 1)
  {
    hide AreRuns;
    if row in rows {
      if inRun { ExtendRun(out, Span(runFirst, row - 1), rows, row); } else { OpenRun(out, rows, row); }
    } else {
      CleanRow(if inRun then out + [Span(runFirst, row - 1)] else out, rows, row);
    }
  }

  lemma OpenRun(spans: seq<Span>, rows: set<nat>, row: u32)
    requires AreRuns(spans, rows, row) && row as nat in rows && (row == 0 || row - 1 !in rows)
    ensures AreRuns(spans + [Span(row, row)], rows, row + 1)
  {
    var more := spans + [Span(row, row)];
    if row > 0 {
      var prev: nat := row - 1;
      forall i | 0 <= i < |spans| ensures spans[i].last + 1 < row {
        assert InSpan(spans[i], prev) ==> Covered(spans, prev);
      }
    }
    assert forall i | 0 <= i < |spans| :: spans[i].last + 1 < row;
    forall r: nat | r < row + 1 ensures r in rows <==> Covered(more, r) {
      CoveredMore(spans, Span(row, row), r);
    }
  }

  lemma CoveredMore(spans: seq<Span>, s: Span, r: nat)
    ensures Covered(spans + [s], r) <==> Covered(spans, r) || InSpan(s, r)
  {
    var more := spans + [s];
    if Covered(spans, r) {
      var i :| 0 <= i < |spans| && InSpan(spans[i], r);
      assert InSpan(more[i], r);
    }
    if InSpan(s, r) { assert InSpan(more[|spans|], r); }
  }

  lemma ExtendRun(spans: seq<Span>, s: Span, rows: set<nat>, row: u32)
    requires AreRuns(spans + [s], rows, row) && s.last + 1 == row && row as nat in rows
    ensures AreRuns(spans + [Span(s.first, row)], rows, row + 1)
  {
    var before, more := spans + [s], spans + [Span(s.first, row)];
    assert before[|spans|] == s;
    forall i | 0 <= i < |spans| ensures more[i] == before[i] && spans[i].last + 1 < s.first && spans[i].last < row {
      assert before[i] == spans[i];
    }
    forall r: nat | r < row + 1 ensures r in rows <==> Covered(more, r) {
      CoveredMore(spans, s, r);
      CoveredMore(spans, Span(s.first, row), r);
      if r < row { assert r in rows <==> Covered(before, r); }
    }
  }

  lemma CleanRow(spans: seq<Span>, rows: set<nat>, row: u32)
    requires AreRuns(spans, rows, row) && row as nat !in rows
    ensures AreRuns(spans, rows, row + 1)
  {
    assert !Covered(spans, row);
  }

  /** Drawing after a run of writes gets the maximal runs of exactly the rows those writes touched. */
  lemma DrawnAreTouched(t: Tracker, events: seq<Event>, out: seq<Span>)
    requires t.rows == {} && InAgreement(t) && Counting(t) && forall e | e in events :: Good(t, e)
    requires var t1 := HappenedAll(t, events);
      if HasDirty(t1) then AreRuns(out, t1.rows, t.height) else out == []
    ensures forall r: nat | r < t.height :: Covered(out, r) <==> exists e :: e in events && r in RowsOf(t, e)
    ensures forall spans | AreRuns(spans, HappenedAll(t, events).rows, t.height) :: spans == out
  {
    var t1 := HappenedAll(t, events);
    MarkedAreTouched(t, events);
    AlwaysInAgreement(t, events);
    if !HasDirty(t1) { assert AreRuns([], t1.rows, t.height); }
    forall spans | AreRuns(spans, t1.rows, t.height) ensures spans == out {
      RunsUnique(spans, out, t1.rows, t.height);
    }
  }

  /** What a drawing gets covers exactly the marked rows. */
  lemma CoversMarked(t: Tracker, out: seq<Span>)
    requires InAgreement(t) && if HasDirty(t) then AreRuns(out, t.rows, t.height) else out == []
    ensures forall r: nat | r < t.height :: Covered(out, r) <==> r in t.rows
  {
  }

  /** Drawing again and again: each drawing gets the rows touched since the one before, all of them and no others. */
  lemma EachDrawsItsOwn(t: Tracker, batches: seq<seq<Event>>, k: nat, out: seq<Span>)
    requires t.rows == {} && InAgreement(t) && Counting(t) && AllGood(t, batches) && k < |batches|
    requires var u := HappenedAll(Drawn(t, batches[..k]), batches[k]);
      if HasDirty(u) then AreRuns(out, u.rows, t.height) else out == []
    ensures forall r: nat | r < t.height :: Covered(out, r) <==> exists e :: e in batches[k] && r in RowsOf(t, e)
  {
    hide Drawn, RowsOf, HappenedAll, Covered, AreRuns, InAgreement, Good;
    MarkedSinceLastDrawing(t, batches, k);
    CoversMarked(HappenedAll(Drawn(t, batches[..k]), batches[k]), out);
  }
}
