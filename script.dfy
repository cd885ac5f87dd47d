/**
 * The script from the resolved options to the replayed waterfall: pack the
 * header, send the five configuration commands, acquire, take peak and
 * trough, serialise the stored lines and replay the buffer. The uncaught
 * exceptions modelled here end the run with a `Crash`.
 */
module Script {
  import opened Wrappers
  import opened Config
  import opened Frame
  import opened Transport
  import opened AcquisitionLoop
  import opened Buffer

  /** The parsed command line (server and port are used only to connect). */
  datatype Options = Options(server: string, port: int, length: int, zoom: int, start: int, verbosity: int)

  /** The exceptions that end the script before it plots. */
  datatype Crash =
    | SpanOverflow              // 2.**zoom beyond the largest double
    | HeaderPackError           // struct.pack: centre or span outside 32 unsigned bits
    | NegativeLength            // np.zeros with a negative row count
    | RowShapeError             // a line numpy cannot write into a row
    | EmptyMatrix               // np.max / np.min over zero rows
    | ReplayFailed(error: ReplayError)

  /** What reaches the plot: the failure flag, peak and trough, the buffer and its replay. */
  datatype Report = Report(
    processFailed: bool,
    maxsig: int,
    minsig: int,
    wfData: array2<int>,
    buffer: seq<uint8>,
    header: Header,
    waterfall: array2<int>)

  /** The smallest zoom for which `2.**zoom` overflows a double and raises OverflowError. */
  const OVERFLOW_ZOOM: int := 1024

  /** The packed header of a run. */
  function HeaderBin(opts: Options): Result<seq<uint8>, PackError>
  {
    PackHeader(CenterFreq(opts.zoom, opts.start), Span(opts.zoom), NOW)
  }

  /**
   * The live matrix of a session with `length` rows that stored `lines`: each
   * stored line fits a row and is decoded into it, and the rows after them are zero.
   */
  ghost predicate HoldsLines(w: array2<int>, lines: seq<Line>, length: int)
    reads w
  {
    && w.Length0 == length && w.Length1 == BINS && |lines| <= length
    && (forall i :: 0 <= i < |lines| ==> FitsRow(|lines[i]|))
    && (forall i, j :: 0 <= i < |lines| && FitsRow(|lines[i]|) && 0 <= j < BINS ==> w[i, j] == LiveRow(lines[i])[j])
    && (forall i, j :: |lines| <= i < length && 0 <= j < BINS ==> w[i, j] == 0)
  }

  /** The array `w` holds the replayed rows, row by row. */
  ghost predicate HoldsRows(w: array2<int>, rows: seq<seq<int>>)
    reads w
  {
    && w.Length0 == |rows| && w.Length1 == BINS
    && forall i, j :: 0 <= i < |rows| && 0 <= j < BINS && j < |rows[i]| ==> w[i, j] == rows[i][j]
  }

  /** `for msg in msg_list: mystream.send_message(msg)`. */
  method SendCommands(ch: Channel, cmds: seq<string>)
    modifies ch
    ensures ch.sent == old(ch.sent) + cmds
  {
    for i := 0 to |cmds|
      invariant ch.sent == old(ch.sent) + cmds[..i]
    {
      assert cmds[..i + 1] == cmds[..i] + [cmds[i]];
      ch.SendMessage(cmds[i]);
    }
    assert cmds[..|cmds|] == cmds;
  }

  /**
   * One run of the script on the messages `stream` delivers. A zoom whose
   * power of two overflows, or a header that does not pack, stops the run
   * before anything is sent; otherwise the five commands go out first. A run
   * that acquires without a shape error over at least one row reports
   * `processFailed` exactly on a failed receive; the live matrix holds the
   * decoded stored lines and zeros elsewhere, with its peak and trough; the
   * buffer is the header followed by the stored lines; and the run succeeds
   * exactly when that buffer replays, which it does whenever every stored
   * line is 1024 bytes wide.
   */
  method Run(opts: Options, stream: Stream, ch: Channel) returns (r: Result<Report, Crash>)
    modifies ch
    ensures opts.zoom >= OVERFLOW_ZOOM ==> r == Err(SpanOverflow) && ch.sent == old(ch.sent)
    ensures opts.zoom < OVERFLOW_ZOOM && HeaderBin(opts).Err? ==> r == Err(HeaderPackError) && ch.sent == old(ch.sent)
    ensures opts.zoom < OVERFLOW_ZOOM && HeaderBin(opts).Ok? ==>
      ch.sent == old(ch.sent) + Commands(opts.zoom, Offset(opts.start))
    ensures opts.zoom < OVERFLOW_ZOOM && HeaderBin(opts).Ok? && opts.length < 0 ==> r == Err(NegativeLength)
    ensures opts.zoom < OVERFLOW_ZOOM && HeaderBin(opts).Ok? && opts.length >= 0 ==>
      var a := Acquisition(stream, opts.length);
      var buff := HeaderBin(opts).value + Flatten(a.lines);
      && (a.outcome == RowShapeMismatch ==> r == Err(RowShapeError))
      && (a.outcome != RowShapeMismatch && opts.length == 0 ==> r == Err(EmptyMatrix))
      && (a.outcome != RowShapeMismatch && opts.length > 0 ==>
            && (Replay(buff).Err? ==> r == Err(ReplayFailed(Replay(buff).error)))
            && (Replay(buff).Ok? ==> r.Ok?)
            && (AllFullWidth(a.lines) ==> r.Ok?)
            && (r.Ok? ==>
                  && r.value.processFailed == (a.outcome == ReceiveFailed)
                  && HoldsLines(r.value.wfData, a.lines, opts.length)
                  && IsPeak(r.value.wfData, r.value.maxsig) && IsTrough(r.value.wfData, r.value.minsig)
                  && -268 <= r.value.minsig <= r.value.maxsig <= 0
                  && (|a.lines| < opts.length ==> r.value.maxsig == 0)
                  && r.value.buffer == buff
                  && Replay(buff).Ok?
                  && r.value.header == Replay(buff).value.header
                  && HoldsRows(r.value.waterfall, Replay(buff).value.rows)))
  {
    if opts.zoom >= OVERFLOW_ZOOM {
      return Err(SpanOverflow);
    }
    var packed := HeaderBin(opts);
    if packed.Err? {
      return Err(HeaderPackError);
    }
    var headerBin := packed.value;
    SendCommands(ch, Commands(opts.zoom, Offset(opts.start)));
    if opts.length < 0 {
      return Err(NegativeLength);
    }
    var session := new Session(opts.length);
    var outcome := session.Acquire(stream);
    if outcome == RowShapeMismatch {
      return Err(RowShapeError);
    }
    AcquisitionOutcomes(stream, opts.length);
    var extremes := session.PeakTrough();
    if extremes.None? {
      return Err(EmptyMatrix);
    }
    var buff := Serialize(headerBin, session.binaryWfList);
    if AllFullWidth(session.binaryWfList) {
      SerializeReplayRoundTrip(CenterFreq(opts.zoom, opts.start), Span(opts.zoom), NOW, session.binaryWfList);
    }
    var replayed := ReplayArray(buff);
    if replayed.Err? {
      return Err(ReplayFailed(replayed.error));
    }
    r := Ok(Report(session.processFailed, extremes.value.0, extremes.value.1, session.wfData,
                   buff, replayed.value.0, replayed.value.1));
  }
}
