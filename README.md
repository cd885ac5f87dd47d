# microkiwi waterfall: a Dafny model of the acquisition and decode pipeline

`kiwiclient/microkiwi_waterfall.py` connects to a KiwiSDR receiver and configures it
with five `SET` commands. It then reads `length` waterfall lines of 1024 frequency bins
over a WebSocket and turns them into a power matrix. It computes the peak and trough
of that matrix, writes the header and the raw lines into an in-memory buffer, and
reads the buffer back for plotting. This project models the deterministic part of
that script and proves properties about it:

- **Config** (`config.dfy`). Covers the span chosen by the zoom level, the integer
  start offset, and the centre frequency. It also covers Python's `%d` formatting, the
  five configuration commands in their sending order, and the 34-byte header
  `struct.pack("II26s", centre, span, stamp)` with its unpacking.
- **Frame** (`frame.dfy`). A message is a waterfall line when it contains the bytes
  `W/F`. For such a line the model:
  - drops the 16-byte sub-header;
  - rewrites every byte 0x37 to 0xA0;
  - converts each byte `b` to the live calibrated power `-(255 - b) - 13` dBm.

  It also captures numpy's rule for writing a line into one 1024-wide row: a 1-byte
  line broadcasts across the row, a 1024-byte line fills it, and any other width
  raises.
- **AcquisitionLoop** (`acquisition.dfy`). The `while time < length` loop is a class
  `Session`. Its fields are the pre-zeroed `length × 1024` matrix `wfData` (an
  `array2`), the list `binaryWfList`, the counter `time` and the flag `processFailed`.
  The method `Acquire` is proved against the function `Acquisition`, which runs the
  same loop over the received messages. `Acquisition` is in turn proved equal to an
  independent description, `Expected`, that is read off the waterfall frames.
  `PeakTrough` plays the part of `np.max` and `np.min` over the whole matrix.
- **Buffer** (`buffer.dfy`). Serialising writes the header and then every stored
  line. Replaying splits off the 34-byte header, reshapes the rest into rows of 1024,
  and subtracts 255 in place. The model proves the serialise/replay round trip. It
  also proves that each replayed value is exactly 13 above the live value for the
  same byte.
- **Transport** (`transport.dfy`). `send_message` is modelled as appending to a log.
- **Script** (`script.dfy`). `Run` chains the steps in the script's order. The
  uncaught exceptions it models end the run with a `Crash` value: `2.**zoom`
  overflowing for zoom >= 1024, a header that does not pack, a negative `length`,
  a line that does not fit a row, peak and trough over zero rows, and a buffer that
  does not replay.

The WebSocket receive is an input of type `seq<Option<seq<uint8>>>`. `Some(msg)` is a
received message and `None` is a receive that raised. A receive past the end of the
sequence also counts as raising, which is what makes the loop terminate.

Behaviour worth noting:
- A decoded line of the wrong width does not cause a per-frame error. The line is
  appended to `binary_wf_list` first (line 135). numpy then raises on the row
  assignment (line 137) and nothing catches it. A line of exactly one byte is
  accepted, because numpy broadcasts it across the row.
- The header timestamp is the literal bytes `(datetime.now()` (line 87), padded to
  26 bytes. It is not a clock reading.
- The centre frequency adds the raw kHz start `offset_khz` (line 86), not the integer
  `offset`. A negative start is accepted: the offset is then 0, but the centre
  frequency can go below zero, and packing then raises `struct.error`.
- Negative zoom values are accepted and give the full span.
- Peak and trough over a zero-row matrix raise (line 153); there is no separate
  error kind for it. A negative `length` makes `np.zeros` raise (line 117).
- The two decode paths are kept as they are. The live path subtracts 268 in total
  (lines 138-139). The replay path subtracts only 255 (line 172).

## Model

| member | source | states |
|---|---|---|
| `Config.SpanHalves` | kiwiclient/microkiwi_waterfall.py:75-79 | `Span`: the span never exceeds 30000 kHz, and each extra zoom level halves it (floor division) |
| `Config.OffsetMeaning` | kiwiclient/microkiwi_waterfall.py:81-85 | `Offset`: the offset is a multiple of 16000; it is 0 exactly when `offset_khz <= 0`; otherwise it is 16000·k, where k is the number of whole 29-kHz bins (30000 div 1024) in `offset_khz + 100` |
| `Config.OffsetMonotone` | kiwiclient/microkiwi_waterfall.py:81-85 | `Offset`: a later kHz start never gives a smaller integer offset |
| `Config.CenterFreqBounds` | kiwiclient/microkiwi_waterfall.py:76-86 | `CenterFreq`: the centre frequency lies between `offset_khz` and `offset_khz + 15000`; it equals `offset_khz + 15000` when zoom <= 0 |
| `Config.FormatIntRoundTrip` | kiwiclient/microkiwi_waterfall.py:110 | `FormatInt`: `%d` output parses back to the same integer and contains no space |
| `Config.CommandsCarryConfiguration` | kiwiclient/microkiwi_waterfall.py:110-111 | `Commands`: there are five commands, auth first and compression last; the zoom command parses back to exactly (zoom, offset) |
| `Config.U32RoundTrip` | kiwiclient/microkiwi_waterfall.py:89 | `U32Bytes`: decoding a 4-byte unsigned field returns the encoded value |
| `Config.HeaderRoundTrip` | kiwiclient/microkiwi_waterfall.py:87-89 | `PackHeader`, `UnpackHeader`: packing succeeds exactly when centre and span fit in 32 unsigned bits; the header is then 34 bytes and unpacks to (centre, span, timestamp zero-padded to 26 bytes) |
| `Frame.ContainsIffOccurs` | kiwiclient/microkiwi_waterfall.py:128 | `IsWaterfallLine`: a message counts as a waterfall line exactly when `W/F` occurs in it at some position |
| `Frame.StripPrefix` | kiwiclient/microkiwi_waterfall.py:129 | `msg[16:]` is empty for messages of 16 bytes or fewer; otherwise it is the message from byte 16 on |
| `Frame.CorrectBytesSpec` | kiwiclient/microkiwi_waterfall.py:129 | `CorrectBytes`: the replacement keeps the length, leaves no 0x37, puts 0xA0 where 0x37 was, and leaves every other byte unchanged |
| `Frame.CorrectLineSpec` | kiwiclient/microkiwi_waterfall.py:129 | `CorrectLine`: the stored line has the length of `msg[16:]`, contains no 0x37, and byte k is `msg[16+k]`, or 0xA0 if that byte was 0x37 |
| `Frame.CorrectBytesIdempotent` | kiwiclient/microkiwi_waterfall.py:129 | `CorrectBytes`: applying the correction a second time changes nothing |
| `Frame.Dbm` | kiwiclient/microkiwi_waterfall.py:137-139 | the live value of byte b is b - 268, which lies in [-268, -13] |
| `Frame.LiveRow` | kiwiclient/microkiwi_waterfall.py:133-139 | a line that numpy accepts (`FitsRow`: one byte or 1024 bytes) yields a row of exactly 1024 values, all in [-268, -13] |
| `Frame.ReplayAboveLive` | kiwiclient/microkiwi_waterfall.py:172 | `ReplayValue` against `Dbm`: the replay value of a byte is exactly 13 above its live value |
| `AcquisitionLoop.ScanMatchesExpected` | kiwiclient/microkiwi_waterfall.py:121-142 | `Scan`: continuing the loop from any stored prefix gives that prefix followed by the independent description's result for the remaining rows |
| `AcquisitionLoop.AcquisitionMatchesExpected` | kiwiclient/microkiwi_waterfall.py:121-142 | `Acquisition`: the loop's stored lines and outcome equal the description read off the waterfall frames: the first min(length, #frames) frames, cut after the first line that does not fit |
| `AcquisitionLoop.AcquisitionOutcomes` | kiwiclient/microkiwi_waterfall.py:117-142 | `Acquisition`: stored line i is the corrected i-th waterfall message; the loop completes exactly when `length` fitting lines are stored; a failed receive keeps every frame received before it and stops below `length`; a shape error stops after the one line that does not fit |
| `AcquisitionLoop.Session.constructor` | kiwiclient/microkiwi_waterfall.py:115-119 | creates a zeroed `length × 1024` matrix, an empty line list, `time = 0` and no failure |
| `AcquisitionLoop.Session.WriteRow` | kiwiclient/microkiwi_waterfall.py:137-139 | row `time` receives the calibrated values of the line; every other row is unchanged |
| `AcquisitionLoop.Session.HandleMessage` | kiwiclient/microkiwi_waterfall.py:128-142 | chatter changes nothing; a waterfall line is appended; if it fits, it is written into row `time` and `time` advances; otherwise numpy raises |
| `AcquisitionLoop.Session.Acquire` | kiwiclient/microkiwi_waterfall.py:121-142 | the stored lines and the outcome are those of `Acquisition`; `processFailed` is set exactly on a failed receive; rows below `time` hold the stored lines and the rest stay zero; `time` never exceeds `length` |
| `AcquisitionLoop.Extremes` | kiwiclient/microkiwi_waterfall.py:153-154 | returns the largest and smallest entries of the matrix, both attained; returns None exactly when the matrix has no entries |
| `AcquisitionLoop.Session.PeakTrough` | kiwiclient/microkiwi_waterfall.py:153-154 | peak and trough are attained bounds of the whole matrix with -268 <= minsig <= maxsig <= 0; maxsig is 0 when fewer than `length` rows were written; None exactly when `length` is 0 |
| `Buffer.FlattenAt` | kiwiclient/microkiwi_waterfall.py:161-162 | `Flatten`: full-width lines concatenate to 1024 bytes per line, and line i occupies bytes 1024i .. 1024i+1023 |
| `Buffer.Serialize` | kiwiclient/microkiwi_waterfall.py:159-165 | the buffer is the header followed by every stored line, in order |
| `Buffer.ReplayAt` | kiwiclient/microkiwi_waterfall.py:164-172 | `Replay`: a successful replay has one row per 1024 body bytes, and entry [i][j] is buffer byte 34 + 1024i + j minus 255 |
| `Buffer.SerializeReplayRoundTrip` | kiwiclient/microkiwi_waterfall.py:159-172 | `Replay` after `Flatten`: replaying a serialised buffer of full-width lines succeeds; it returns (centre, span, padded timestamp) and one row per line, with entry [i][j] equal to byte j of line i minus 255 |
| `Buffer.ReplayAboveLiveRows` | kiwiclient/microkiwi_waterfall.py:137-172 | `Replay` against `LiveRow`: each replayed entry is exactly 13 above the live matrix value written for the same byte |
| `Buffer.SubtractInPlace` | kiwiclient/microkiwi_waterfall.py:172 | every array entry decreases by the given amount, in place |
| `Buffer.ReplayArray` | kiwiclient/microkiwi_waterfall.py:164-172 | the reshaped array minus 255 fails exactly where `Replay` fails, with the same error; otherwise it holds `Replay`'s header and rows |
| `Transport.Channel.SendMessage` | kiwiclient/microkiwi_waterfall.py:113 | appends the message to the send log |
| `Script.SendCommands` | kiwiclient/microkiwi_waterfall.py:112-113 | the messages are sent in list order |
| `Script.Run` | kiwiclient/microkiwi_waterfall.py:72-172 | zoom >= 1024 overflows `2.**zoom` and a packing error stops the run, both before anything is sent; otherwise the five commands go out first; a negative length, a shape error and zero rows each end in their own crash; otherwise the run succeeds exactly when the buffer (header followed by the stored lines) replays, always so when every line is 1024 bytes; a successful run reports `processFailed` exactly on a failed receive, the live matrix holding the decoded stored lines and zeros below them, its attained peak and trough with -268 <= minsig <= maxsig <= 0, the buffer, and its replayed header and rows |

## Left out

- The socket connection and `exit()` on failure (lines 91-96) are not modelled. They are network I/O.
- The WebSocket handshake and stream setup (lines 98-106) are not modelled. They are foreign libraries, and the URI also reads the clock.
- `receive_message` is an input sequence rather than a blocking call. A receive that would block forever cannot be expressed in this model.
- Closing the stream and socket, with its catch-all handler (lines 144-148), is not modelled. It is I/O, and its errors are never passed on.
- Option parsing (lines 53-69) is replaced by the `Options` record.
- The colormap table and every matplotlib call (lines 28-51, 173-184) are not modelled. This includes `vmin`/`vmax` and the plot title chosen by `processfailed`. They are presentation only.
- `np.mean`, `np.percentile`, the SNR and the report line (lines 150-152, 156-157) are not modelled. They are floating-point statistics.
- `print` output, the `verbosity` flag and `rbw` (lines 80, 130-132) are not modelled. They produce no state the pipeline uses.
- Span and offset are integers. The source computes them as floats (`2.**zoom`, `*1000.`), but the values are whole numbers. Python 3's `struct.pack` refuses a float field, so with zoom > 0 the source would raise at line 89. The model packs the integer value, as Python 2 does.
- The `OverflowError` raised at line 82 when `offset_khz` is too large to convert to a float (beyond about 1.8·10^308) is not modelled. `Offset` computes with unbounded integers there. The overflow of `2.**zoom` at line 77 is modelled as `SpanOverflow`.
- The 4-byte header fields are encoded little-endian. `struct` uses native byte order, and the round trip holds for either order.
- The matrix holds integers where numpy holds float64. Every value written is a whole number in [-268, 0].
