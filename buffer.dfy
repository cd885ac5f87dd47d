/**
 * The in-memory buffer: the 34-byte header followed by every stored line,
 * and its replay, which splits the header off, reshapes the rest into
 * 1024-wide rows and subtracts 255 from every byte (without the 13 dB
 * calibration the live decode applies).
 */
module Buffer {
  import opened Wrappers
  import opened Config
  import opened Frame

  /** The stored lines concatenated in order. */
  function Flatten(lines: seq<seq<uint8>>): seq<uint8>
  {
    if lines == [] then [] else Flatten(lines[..|lines| - 1]) + lines[|lines| - 1]
  }

  predicate AllFullWidth(lines: seq<seq<uint8>>) {
    forall k :: 0 <= k < |lines| ==> |lines[k]| == BINS
  }

  /** Full-width lines flatten to 1024 bytes per line, line i occupying bytes 1024 i .. 1024 i + 1023. */
  lemma {:induction false} FlattenAt(lines: seq<seq<uint8>>)
    requires AllFullWidth(lines)
    ensures |Flatten(lines)| == BINS * |lines|
    ensures forall i, j :: 0 <= i < |lines| && 0 <= j < BINS ==> Flatten(lines)[BINS * i + j] == lines[i][j]
  {
    if lines != [] {
      var init := lines[..|lines| - 1];
      FlattenAt(init);
      var f := Flatten(lines);
      assert f == Flatten(init) + lines[|lines| - 1];
      forall i, j | 0 <= i < |lines| && 0 <= j < BINS
        ensures f[BINS * i + j] == lines[i][j]
      {
        if i < |lines| - 1 {
          assert f[BINS * i + j] == Flatten(init)[BINS * i + j];
          assert init[i] == lines[i];
        } else {
          assert BINS * i + j == |Flatten(init)| + j;
        }
      }
    }
  }

  /** `fd.write(header_bin)`, then `fd.write(line)` for every stored line, then read back the whole buffer. */
  method Serialize(headerBin: seq<uint8>, lines: seq<seq<uint8>>) returns (buff: seq<uint8>)
    ensures buff == headerBin + Flatten(lines)
  {
    buff := headerBin;
    for i := 0 to |lines|
      invariant buff == headerBin + Flatten(lines[..i])
    {
      assert lines[..i + 1][..i] == lines[..i];
      buff := buff + lines[i];
    }
    assert lines[..|lines|] == lines;
  }

  /** `struct.unpack` of the header needs 34 bytes; `np.reshape` needs a whole number of rows. */
  datatype ReplayError = HeaderTooShort | Unaligned

  datatype Replayed = Replayed(header: Header, rows: seq<seq<int>>)

  /** The replay of a buffer: its header, and its body as rows of 1024 values byte - 255. */
  function Replay(buff: seq<uint8>): Result<Replayed, ReplayError>
  {
    if |buff| < HEADER_LEN then Err(HeaderTooShort)
    else
      var body := buff[HEADER_LEN..];
      if |body| % BINS != 0 then Err(Unaligned)
      else
        var nT := |body| / BINS;
        Ok(Replayed(UnpackHeader(buff[..HEADER_LEN]),
                    seq(nT, i requires 0 <= i < nT =>
                      seq(BINS, j requires 0 <= j < BINS => ReplayValue(body[BINS * i + j])))))
  }

  /** Entry [i][j] of a replay is byte 34 + 1024 i + j of the buffer minus 255. */
  lemma ReplayAt(buff: seq<uint8>)
    requires Replay(buff).Ok?
    ensures |buff| >= HEADER_LEN && BINS * |Replay(buff).value.rows| == |buff| - HEADER_LEN
    ensures forall i, j :: 0 <= i < |Replay(buff).value.rows| && 0 <= j < BINS ==>
      |Replay(buff).value.rows[i]| == BINS && Replay(buff).value.rows[i][j] == buff[HEADER_LEN + BINS * i + j] as int - 255
  {
    var body := buff[HEADER_LEN..];
    var rows := Replay(buff).value.rows;
    forall i, j | 0 <= i < |rows| && 0 <= j < BINS
      ensures |rows[i]| == BINS && rows[i][j] == buff[HEADER_LEN + BINS * i + j] as int - 255
    {
      assert rows[i][j] == ReplayValue(body[BINS * i + j]);
    }
  }

  /**
   * Serialising then replaying is lossless: the header comes back as
   * (centre, span, padded timestamp), there is one row per stored line, and
   * entry [i][j] is byte j of line i minus 255.
   */
  lemma SerializeReplayRoundTrip(centerFreq: int, span: int, stamp: seq<uint8>, lines: seq<seq<uint8>>)
    requires IsU32(centerFreq) && IsU32(span) && AllFullWidth(lines)
    ensures PackHeader(centerFreq, span, stamp).Ok?
    ensures
      var r := Replay(PackHeader(centerFreq, span, stamp).value + Flatten(lines));
      && r.Ok?
      && r.value.header == Header(centerFreq, span, PadStamp(stamp))
      && |r.value.rows| == |lines|
      && forall i, j :: 0 <= i < |lines| && 0 <= j < BINS ==>
           |r.value.rows[i]| == BINS && r.value.rows[i][j] == lines[i][j] as int - 255
  {
    HeaderRoundTrip(centerFreq, span, stamp);
    FlattenAt(lines);
    var h := PackHeader(centerFreq, span, stamp).value;
    var buff := h + Flatten(lines);
    assert buff[..HEADER_LEN] == h;
    assert buff[HEADER_LEN..] == Flatten(lines);
    assert |Flatten(lines)| / BINS == |lines|;
    ReplayAt(buff);
    forall i, j | 0 <= i < |lines| && 0 <= j < BINS
      ensures buff[HEADER_LEN + BINS * i + j] == lines[i][j]
    {
      assert buff[HEADER_LEN + BINS * i + j] == Flatten(lines)[BINS * i + j];
    }
  }

  /**
   * The replay view is the live view shifted by the calibration: each
   * replayed entry is exactly 13 above the value the acquisition loop wrote
   * for the same byte.
   */
  lemma ReplayAboveLiveRows(centerFreq: int, span: int, stamp: seq<uint8>, lines: seq<seq<uint8>>)
    requires IsU32(centerFreq) && IsU32(span) && AllFullWidth(lines)
    ensures PackHeader(centerFreq, span, stamp).Ok?
    ensures
      var r := Replay(PackHeader(centerFreq, span, stamp).value + Flatten(lines));
      && r.Ok? && |r.value.rows| == |lines|
      && forall i, j :: 0 <= i < |lines| && 0 <= j < BINS ==>
           |r.value.rows[i]| == BINS && r.value.rows[i][j] == LiveRow(lines[i])[j] + CALIBRATION
  {
    SerializeReplayRoundTrip(centerFreq, span, stamp, lines);
  }

  /** `waterfall_array -= 255`, in place. */
  method SubtractInPlace(a: array2<int>, k: int)
    modifies a
    ensures forall i, j :: 0 <= i < a.Length0 && 0 <= j < a.Length1 ==> a[i, j] == old(a[i, j]) - k
  {
    for i := 0 to a.Length0
      invariant forall i', j :: 0 <= i' < i && 0 <= j < a.Length1 ==> a[i', j] == old(a[i', j]) - k
      invariant forall i', j :: i <= i' < a.Length0 && 0 <= j < a.Length1 ==> a[i', j] == old(a[i', j])
    {
      for j := 0 to a.Length1
        invariant forall i', j' :: 0 <= i' < i && 0 <= j' < a.Length1 ==> a[i', j'] == old(a[i', j']) - k
        invariant forall j' :: 0 <= j' < j ==> a[i, j'] == old(a[i, j']) - k
        invariant forall i', j' :: i <= i' < a.Length0 && 0 <= j' < a.Length1 && (i' != i || j' >= j) ==> a[i', j'] == old(a[i', j'])
      {
        a[i, j] := a[i, j] - k;
      }
    }
  }

  /**
   * The replay as the script runs it: unpack the header, reshape the body
   * into an `n_t` x 1024 array, subtract 255 in place. Fails where `Replay`
   * fails and otherwise holds exactly `Replay`'s rows.
   */
  method ReplayArray(buff: seq<uint8>) returns (r: Result<(Header, array2<int>), ReplayError>)
    ensures r.Err? <==> Replay(buff).Err?
    ensures r.Err? ==> r.error == Replay(buff).error
    ensures r.Ok? ==>
      var rep := Replay(buff).value;
      && fresh(r.value.1)
      && r.value.0 == rep.header
      && r.value.1.Length0 == |rep.rows| && r.value.1.Length1 == BINS
      && forall i, j :: 0 <= i < |rep.rows| && 0 <= j < BINS ==> r.value.1[i, j] == rep.rows[i][j]
  {
    if |buff| < HEADER_LEN {
      return Err(HeaderTooShort);
    }
    var header := UnpackHeader(buff[..HEADER_LEN]);
    var body := buff[HEADER_LEN..];
    if |body| % BINS != 0 {
      return Err(Unaligned);
    }
    var nT := |body| / BINS;
    var a := new int[nT, BINS]((i, j) requires 0 <= i < nT && 0 <= j < BINS => body[BINS * i + j] as int);
    SubtractInPlace(a, 255);
    r := Ok((header, a));
    ReplayAt(buff);
  }
}
