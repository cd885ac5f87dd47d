/**
 * The acquisition loop: receive messages until `length` waterfall lines have
 * been stored or a receive raises. Each waterfall line is kept, corrected,
 * in `binaryWfList` and written as calibrated dBm into row `time` of the
 * pre-zeroed `length` x 1024 matrix `wfData`; chatter is skipped.
 */
module AcquisitionLoop {
  import opened Wrappers
  import opened Config
  import opened Frame

  type Line = seq<uint8>

  /**
   * What successive receive calls give: `Some(msg)` for a message, `None`
   * for a receive that raised. A receive past the end of the sequence
   * raises too.
   */
  type Stream = seq<Option<seq<uint8>>>

  /**
   * How the loop ends: with `length` rows, on a failed receive (the script's
   * `processfailed`), or with numpy rejecting a line whose width neither
   * fits nor broadcasts over a row (an uncaught exception that ends the script).
   */
  datatype Outcome = Completed | ReceiveFailed | RowShapeMismatch

  datatype Acquired = Acquired(lines: seq<Line>, outcome: Outcome)

  // ---------------------------------------------------------------------------
  // The loop as a function of the stream

  /** The loop continued from the stored lines `lines` with the rest of the stream `stream`. */
  function Scan(stream: Stream, length: nat, lines: seq<Line>): Acquired
    decreases |stream|
  {
    if |lines| >= length then Acquired(lines, Completed)
    else if stream == [] || stream[0].None? then Acquired(lines, ReceiveFailed)
    else if !IsWaterfallLine(stream[0].value) then Scan(stream[1..], length, lines)
    else
      var line := CorrectLine(stream[0].value);
      if FitsRow(|line|) then Scan(stream[1..], length, lines + [line])
      else Acquired(lines + [line], RowShapeMismatch)
  }

  /** The whole loop, started with no stored lines. */
  function Acquisition(stream: Stream, length: nat): Acquired
  {
    Scan(stream, length, [])
  }

  // ---------------------------------------------------------------------------
  // An independent description of the same result

  /** Corrected lines of all waterfall messages received before the first failed receive. */
  function Frames(stream: Stream): seq<Line>
  {
    if stream == [] || stream[0].None? then []
    else if IsWaterfallLine(stream[0].value) then [CorrectLine(stream[0].value)] + Frames(stream[1..])
    else Frames(stream[1..])
  }

  /** Index of the first line numpy cannot write into a row, or the number of lines if there is none. */
  function FirstMisfit(lines: seq<Line>): (k: nat)
    ensures k <= |lines|
    ensures forall i :: 0 <= i < k ==> FitsRow(|lines[i]|)
    ensures k < |lines| ==> !FitsRow(|lines[k]|)
  {
    if lines == [] || !FitsRow(|lines[0]|) then 0 else 1 + FirstMisfit(lines[1..])
  }

  /**
   * The loop's result read off the waterfall frames: of the first
   * min(length, #frames) frames, the prefix up to and including the first
   * misfit if there is one; otherwise all of them, completed if there were
   * at least `length` frames and failed if not.
   */
  function Expected(stream: Stream, length: nat): Acquired
  {
    ExpectedOf(Frames(stream), length)
  }

  function ExpectedOf(frames: seq<Line>, length: nat): Acquired
  {
    var n := if |frames| < length then |frames| else length;
    var k := FirstMisfit(frames[..n]);
    if k < n then Acquired(frames[..k + 1], RowShapeMismatch)
    else if n == length then Acquired(frames[..n], Completed)
    else Acquired(frames, ReceiveFailed)
  }

  /** A first frame that fits a row is stored, and the rest is read as from one row fewer. */
  lemma ExpectedOfFittingFrame(line: Line, rest: seq<Line>, length: nat)
    requires length >= 1 && FitsRow(|line|)
    ensures ExpectedOf([line] + rest, length) ==
      var e := ExpectedOf(rest, length - 1);
      Acquired([line] + e.lines, e.outcome)
  {
    var frames := [line] + rest;
    var n := if |frames| < length then |frames| else length;
    assert frames[..n][1..] == rest[..n - 1];
    assert FirstMisfit(frames[..n]) == 1 + FirstMisfit(rest[..n - 1]);
    var k := FirstMisfit(rest[..n - 1]);
    if k < n - 1 {
      assert frames[..k + 2] == [line] + rest[..k + 1];
    } else if n == length {
      assert frames[..n] == [line] + rest[..n - 1];
    }
  }

  /** A first frame that does not fit a row is stored and ends the loop. */
  lemma ExpectedOfMisfitFrame(line: Line, rest: seq<Line>, length: nat)
    requires length >= 1 && !FitsRow(|line|)
    ensures ExpectedOf([line] + rest, length) == Acquired([line], RowShapeMismatch)
  {
    var frames := [line] + rest;
    var n := if |frames| < length then |frames| else length;
    assert FirstMisfit(frames[..n]) == 0;
    assert frames[..1] == [line];
  }

  lemma ExpectedOfNoRows(frames: seq<Line>)
    ensures ExpectedOf(frames, 0) == Acquired([], Completed)
  {
    assert frames[..0] == [];
  }

  lemma {:induction false} ScanMatchesExpected(stream: Stream, length: nat, lines: seq<Line>)
    requires |lines| <= length
    decreases |stream|
    ensures Scan(stream, length, lines) ==
      var e := Expected(stream, length - |lines|);
      Acquired(lines + e.lines, e.outcome)
  {
    if |lines| == length {
      ExpectedOfNoRows(Frames(stream));
      assert lines + [] == lines;
    } else if stream == [] || stream[0].None? {
      assert Expected(stream, length - |lines|) == Acquired([], ReceiveFailed);
      assert lines + [] == lines;
    } else if !IsWaterfallLine(stream[0].value) {
      assert Scan(stream, length, lines) == Scan(stream[1..], length, lines);
      assert Frames(stream) == Frames(stream[1..]);
      ScanMatchesExpected(stream[1..], length, lines);
    } else {
      var line := CorrectLine(stream[0].value);
      var rest := Frames(stream[1..]);
      assert Frames(stream) == [line] + rest;
      if FitsRow(|line|) {
        assert Scan(stream, length, lines) == Scan(stream[1..], length, lines + [line]);
        ScanMatchesExpected(stream[1..], length, lines + [line]);
        ExpectedOfFittingFrame(line, rest, length - |lines|);
      } else {
        assert Scan(stream, length, lines) == Acquired(lines + [line], RowShapeMismatch);
        ExpectedOfMisfitFrame(line, rest, length - |lines|);
      }
    }
  }

  /** The loop computes exactly the independent description. */
  lemma AcquisitionMatchesExpected(stream: Stream, length: nat)
    ensures Acquisition(stream, length) == Expected(stream, length)
  {
    ScanMatchesExpected(stream, length, []);
  }

  /**
   * Bounds and outcomes of the loop: stored line i is the corrected i-th
   * waterfall message; the loop completes with exactly `length` lines, or
   * fails with fewer, having kept every waterfall message received before
   * the failure; every stored line fits a row except the last one on a
   * shape mismatch.
   */
  lemma AcquisitionOutcomes(stream: Stream, length: nat)
    ensures var a := Acquisition(stream, length);
      && |a.lines| <= length
      && |a.lines| <= |Frames(stream)|
      && a.lines == Frames(stream)[..|a.lines|]
      && (a.outcome == Completed <==> |a.lines| == length && forall i :: 0 <= i < |a.lines| ==> FitsRow(|a.lines[i]|))
      && (a.outcome == ReceiveFailed ==> a.lines == Frames(stream) && |a.lines| < length)
      && (a.outcome != RowShapeMismatch ==> forall i :: 0 <= i < |a.lines| ==> FitsRow(|a.lines[i]|))
      && (a.outcome == RowShapeMismatch ==>
            |a.lines| >= 1 && !FitsRow(|a.lines[|a.lines| - 1]|)
            && forall i :: 0 <= i < |a.lines| - 1 ==> FitsRow(|a.lines[i]|))
  {
    AcquisitionMatchesExpected(stream, length);
    var a := Acquisition(stream, length);
    var frames := Frames(stream);
    assert a == ExpectedOf(frames, length);
    var n := if |frames| < length then |frames| else length;
    var window := frames[..n];
    var k := FirstMisfit(window);
    forall i | 0 <= i < k
      ensures FitsRow(|frames[i]|)
    {
      assert frames[i] == window[i];
    }
    if k < n {
      assert a.lines == frames[..k + 1];
      assert a.lines[k] == window[k];
    } else if n == length {
      assert a.lines == window;
    } else {
      assert a.lines == frames;
      assert frames[..|frames|] == frames;
    }
  }

  // ---------------------------------------------------------------------------
  // The loop over the script's state

  /** The state the acquisition loop updates in place. */
  class Session {
    /** Number of rows wanted. */
    const length: nat
    /** The `length` x 1024 matrix of calibrated powers, zero until a row is written. */
    const wfData: array2<int>
    /** The corrected lines, in arrival order. */
    var binaryWfList: seq<Line>
    /** Number of rows written so far. */
    var time: nat
    /** Set when a receive raised. */
    var processFailed: bool

    ghost predicate Valid()
      reads this, wfData
    {
      && wfData.Length0 == length && wfData.Length1 == BINS
      && time <= length && time <= |binaryWfList|
      && (forall i :: 0 <= i < time ==> FitsRow(|binaryWfList[i]|))
      && (forall i, j :: 0 <= i < time && 0 <= j < BINS ==> wfData[i, j] == LiveRow(binaryWfList[i])[j])
      && (forall i, j :: time <= i < length && 0 <= j < BINS ==> wfData[i, j] == 0)
    }

    /** `np.zeros((length, bins))`, an empty line list, `time = 0`. */
    constructor (length: nat)
      ensures Valid() && fresh(wfData)
      ensures this.length == length && binaryWfList == [] && time == 0 && !processFailed
    {
      this.length := length;
      wfData := new int[length, BINS]((i, j) => 0);
      binaryWfList := [];
      time := 0;
      processFailed := false;
    }

    /** Every entry of a valid matrix is a calibrated power or an untouched zero. */
    lemma EntryRange(i: nat, j: nat)
      requires Valid() && i < length && j < BINS
      ensures -268 <= wfData[i, j] <= 0
      ensures i < time ==> wfData[i, j] <= -CALIBRATION
    {
    }

    /** `wf_data[time, :] = spectrum`, then the dBm conversion and the calibration, on row `time` only. */
    method WriteRow(line: Line)
      requires Valid() && time < length && FitsRow(|line|)
      modifies wfData
      ensures forall j :: 0 <= j < BINS ==> wfData[time, j] == LiveRow(line)[j]
      ensures forall i, j :: 0 <= i < length && i != time && 0 <= j < BINS ==> wfData[i, j] == old(wfData[i, j])
    {
      for j := 0 to BINS
        invariant forall j' :: 0 <= j' < j ==> wfData[time, j'] == LiveRow(line)[j']
        invariant forall i, j' :: 0 <= i < length && i != time && 0 <= j' < BINS ==> wfData[i, j'] == old(wfData[i, j'])
      {
        var b := if |line| == 1 then line[0] else line[j];
        wfData[time, j] := b;
        wfData[time, j] := -(255 - wfData[time, j]);
        wfData[time, j] := wfData[time, j] - CALIBRATION;
      }
    }

    /**
     * One successfully received message. Chatter changes nothing. A
     * waterfall line is stored, corrected; if it fits a row it is written
     * into row `time` and `time` advances, otherwise numpy raises and
     * `fits` is false.
     */
    method HandleMessage(msg: seq<uint8>) returns (fits: bool)
      requires Valid() && time < length && |binaryWfList| == time
      modifies this, wfData
      ensures Valid() && processFailed == old(processFailed)
      ensures !IsWaterfallLine(msg) ==> fits && unchanged(this) && unchanged(wfData)
      ensures IsWaterfallLine(msg) ==>
        && binaryWfList == old(binaryWfList) + [CorrectLine(msg)]
        && fits == FitsRow(|CorrectLine(msg)|)
        && time == old(time) + (if fits then 1 else 0)
    {
      fits := true;
      if IsWaterfallLine(msg) {
        var line := CorrectLine(msg);
        binaryWfList := binaryWfList + [line];
        fits := FitsRow(|line|);
        if fits {
          WriteRow(line);
          time := time + 1;
        }
      }
    }

    /**
     * `while time < length`: the stored lines and the outcome are those of
     * `Acquisition`; `processFailed` is set exactly on a failed receive;
     * rows below `time` hold the stored lines, the rest stay zero (Valid).
     */
    method Acquire(stream: Stream) returns (outcome: Outcome)
      requires Valid() && time == 0 && binaryWfList == [] && !processFailed
      modifies this, wfData
      ensures Valid()
      ensures Acquired(binaryWfList, outcome) == Acquisition(stream, length)
      ensures processFailed <==> outcome == ReceiveFailed
      ensures time == if outcome == RowShapeMismatch then |binaryWfList| - 1 else |binaryWfList|
    {
      var k := 0;
      while time < length
        invariant Valid() && k <= |stream|
        invariant |binaryWfList| == time && !processFailed
        invariant Scan(stream[k..], length, binaryWfList) == Acquisition(stream, length)
        decreases |stream| - k
      {
        if k == |stream| || stream[k].None? {
          processFailed := true;
          break;
        }
        assert stream[k..][1..] == stream[k + 1..];
        var fits := HandleMessage(stream[k].value);
        k := k + 1;
        if !fits {
          return RowShapeMismatch;
        }
      }
      outcome := if processFailed then ReceiveFailed else Completed;
    }

    /**
     * `np.max(wf_data)` and `np.min(wf_data)` over the whole matrix, rows
     * never written included; both raise on an empty matrix (None). The
     * trough is at most the peak, which is at most 0, and the peak is 0 when
     * fewer than `length` rows were written.
     */
    method PeakTrough() returns (r: Option<(int, int)>)
      requires Valid()
      ensures r.None? <==> length == 0
      ensures r.Some? ==> IsPeak(wfData, r.value.0) && IsTrough(wfData, r.value.1)
      ensures r.Some? ==> -268 <= r.value.1 <= r.value.0 <= 0
      ensures r.Some? && time < length ==> r.value.0 == 0
    {
      r := Extremes(wfData);
      if r.Some? {
        var maxsig, minsig := r.value.0, r.value.1;
        var mi, mj :| 0 <= mi < length && 0 <= mj < BINS && wfData[mi, mj] == maxsig;
        var ni, nj :| 0 <= ni < length && 0 <= nj < BINS && wfData[ni, nj] == minsig;
        EntryRange(mi, mj);
        EntryRange(ni, nj);
        if time < length {
          EntryRange(time, 0);
          assert wfData[time, 0] == 0;
        }
      }
    }
  }

  // ---------------------------------------------------------------------------
  // Reductions over a matrix

  /** The matrix holds `m` and nothing above it. */
  ghost predicate IsPeak(a: array2<int>, m: int)
    reads a
  {
    && (exists i, j :: 0 <= i < a.Length0 && 0 <= j < a.Length1 && a[i, j] == m)
    && (forall i, j :: 0 <= i < a.Length0 && 0 <= j < a.Length1 ==> a[i, j] <= m)
  }

  /** The matrix holds `m` and nothing below it. */
  ghost predicate IsTrough(a: array2<int>, m: int)
    reads a
  {
    && (exists i, j :: 0 <= i < a.Length0 && 0 <= j < a.Length1 && a[i, j] == m)
    && (forall i, j :: 0 <= i < a.Length0 && 0 <= j < a.Length1 ==> a[i, j] >= m)
  }

  /** Rows 0 .. rows - 1 of the matrix lie within [lo, hi]. */
  ghost predicate RowsWithin(a: array2<int>, lo: int, hi: int, rows: nat)
    reads a
  {
    forall i, j :: 0 <= i < rows && i < a.Length0 && 0 <= j < a.Length1 ==> lo <= a[i, j] <= hi
  }

  /** The largest and the smallest entry of a matrix, or None for a matrix with no entries. */
  method Extremes(a: array2<int>) returns (r: Option<(int, int)>)
    ensures r.None? <==> a.Length0 == 0 || a.Length1 == 0
    ensures r.Some? ==> IsPeak(a, r.value.0) && IsTrough(a, r.value.1)
  {
    if a.Length0 == 0 || a.Length1 == 0 {
      return None;
    }
    var hi, lo := a[0, 0], a[0, 0];
    ghost var hiAt, loAt := (0, 0), (0, 0);
    for i := 0 to a.Length0
      invariant 0 <= hiAt.0 < a.Length0 && 0 <= hiAt.1 < a.Length1 && a[hiAt.0, hiAt.1] == hi
      invariant 0 <= loAt.0 < a.Length0 && 0 <= loAt.1 < a.Length1 && a[loAt.0, loAt.1] == lo
      invariant RowsWithin(a, lo, hi, i)
    {
      for j := 0 to a.Length1
        invariant 0 <= hiAt.0 < a.Length0 && 0 <= hiAt.1 < a.Length1 && a[hiAt.0, hiAt.1] == hi
        invariant 0 <= loAt.0 < a.Length0 && 0 <= loAt.1 < a.Length1 && a[loAt.0, loAt.1] == lo
        invariant RowsWithin(a, lo, hi, i)
        invariant forall j' :: 0 <= j' < j ==> lo <= a[i, j'] <= hi
      {
        if a[i, j] > hi {
          hi, hiAt := a[i, j], (i, j);
        }
        if a[i, j] < lo {
          lo, loAt := a[i, j], (i, j);
        }
      }
    }
    r := Some((hi, lo));
  }
}
