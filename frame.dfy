/**
 * Classification and decoding of one received message: a message is a
 * waterfall line when it contains the bytes `W/F`; its first 16 bytes are
 * dropped, every byte 0x37 is rewritten to 0xA0, and each byte b becomes the
 * calibrated power -(255 - b) - 13 dBm, written into one row of the matrix.
 */
module Frame {
  import opened Wrappers
  import opened Config

  /** The bytes `W/F`. */
  const MARKER: seq<uint8> := [0x57, 0x2F, 0x46]
  /** Length of the sub-header stripped from every waterfall message. */
  const PREFIX_LEN: nat := 16
  /** The byte the receiver uses for blocked frequency ranges (ASCII `7`)... */
  const BLOCKED: uint8 := 0x37
  /** ...and the byte it is rewritten to. */
  const REPLACEMENT: uint8 := 0xA0
  /** Waterfall calibration of the receiver, in dB. */
  const CALIBRATION: int := 13

  /** Python's `p in s` on bytes: `p` occurs in `s` as a contiguous run. */
  function Contains(s: seq<uint8>, p: seq<uint8>): bool
    decreases |s|
  {
    |s| >= |p| && (s[..|p|] == p || Contains(s[1..], p))
  }

  /** `p` occurs in `s` starting at position `i`. */
  predicate OccursAt(s: seq<uint8>, p: seq<uint8>, i: int) {
    0 <= i && i + |p| <= |s| && s[i..i + |p|] == p
  }

  /** `Contains` holds exactly when some position of `s` starts a copy of `p`. */
  lemma {:induction false} ContainsIffOccurs(s: seq<uint8>, p: seq<uint8>)
    decreases |s|
    ensures Contains(s, p) <==> exists i :: OccursAt(s, p, i)
  {
    if |s| >= |p| && s[..|p|] == p {
      assert OccursAt(s, p, 0);
    } else if |s| >= |p| {
      assert |s| > 0;
      ContainsIffOccurs(s[1..], p);
      if Contains(s[1..], p) {
        var i :| OccursAt(s[1..], p, i);
        assert s[1..][i..i + |p|] == s[i + 1..i + 1 + |p|];
        assert OccursAt(s, p, i + 1);
      }
      if exists i :: OccursAt(s, p, i) {
        var i :| OccursAt(s, p, i);
        assert i > 0;
        assert s[1..][i - 1..i - 1 + |p|] == s[i..i + |p|];
        assert OccursAt(s[1..], p, i - 1);
      }
    }
  }

  /** A waterfall line is a message holding `W/F`; everything else is chatter. */
  predicate IsWaterfallLine(msg: seq<uint8>) {
    Contains(msg, MARKER)
  }

  /** `msg[16:]`: empty when the message is 16 bytes or shorter. */
  function StripPrefix(msg: seq<uint8>): (r: seq<uint8>)
    ensures |r| == if |msg| <= PREFIX_LEN then 0 else |msg| - PREFIX_LEN
    ensures forall k :: 0 <= k < |r| ==> r[k] == msg[PREFIX_LEN + k]
  {
    if |msg| <= PREFIX_LEN then [] else msg[PREFIX_LEN..]
  }

  function CorrectByte(b: uint8): uint8 {
    if b == BLOCKED then REPLACEMENT else b
  }

  /** `bytes.replace(b"7", b"\xa0")`. */
  function CorrectBytes(s: seq<uint8>): seq<uint8>
  {
    if s == [] then [] else [CorrectByte(s[0])] + CorrectBytes(s[1..])
  }

  /**
   * The corrected bytes have the input's length, contain no 0x37, hold 0xA0
   * where the input held 0x37 and the input's byte everywhere else.
   */
  lemma {:induction false} CorrectBytesSpec(s: seq<uint8>)
    ensures |CorrectBytes(s)| == |s|
    ensures forall i :: 0 <= i < |s| ==>
      CorrectBytes(s)[i] == (if s[i] == BLOCKED then REPLACEMENT else s[i])
    ensures BLOCKED !in CorrectBytes(s)
  {
    if s != [] {
      CorrectBytesSpec(s[1..]);
      var r := CorrectBytes(s);
      forall i | 0 <= i < |s|
        ensures r[i] == (if s[i] == BLOCKED then REPLACEMENT else s[i])
      {
        if i > 0 {
          assert r[i] == CorrectBytes(s[1..])[i - 1];
        }
      }
    }
  }

  /** Correcting twice is correcting once. */
  lemma {:induction false} CorrectBytesIdempotent(s: seq<uint8>)
    ensures CorrectBytes(CorrectBytes(s)) == CorrectBytes(s)
  {
    if s != [] {
      CorrectBytesIdempotent(s[1..]);
      assert CorrectBytes(s)[1..] == CorrectBytes(s[1..]);
    }
  }

  /** The line kept for a waterfall message: header stripped, 0x37 rewritten. */
  function CorrectLine(msg: seq<uint8>): seq<uint8>
  {
    CorrectBytes(StripPrefix(msg))
  }

  /**
   * The stored line is `msg[16:]` with every 0x37 replaced by 0xA0: same
   * length as `msg[16:]`, no 0x37 left, every other byte unchanged.
   */
  lemma CorrectLineSpec(msg: seq<uint8>)
    ensures |CorrectLine(msg)| == |StripPrefix(msg)|
    ensures BLOCKED !in CorrectLine(msg)
    ensures forall k :: 0 <= k < |CorrectLine(msg)| ==>
      CorrectLine(msg)[k] == (if msg[PREFIX_LEN + k] == BLOCKED then REPLACEMENT else msg[PREFIX_LEN + k])
  {
    CorrectBytesSpec(StripPrefix(msg));
  }

  /** Live calibration of one byte: -(255 - b) - 13 dBm, which is b - 268, within [-268, -13]. */
  function Dbm(b: uint8): (r: int)
    ensures r == b as int - 268
    ensures -268 <= r <= -CALIBRATION
  {
    -(255 - b) - CALIBRATION
  }

  /**
   * numpy accepts `wf_data[time, :] = spectrum` only when the spectrum has
   * one element (broadcast over the row) or exactly one per bin.
   */
  predicate FitsRow(n: nat) {
    n == 1 || n == BINS
  }

  /** The row written for a stored line: every bin gets the calibrated value of its byte. */
  function LiveRow(line: seq<uint8>): (row: seq<int>)
    requires FitsRow(|line|)
    ensures |row| == BINS
    ensures forall j :: 0 <= j < BINS ==> -268 <= row[j] <= -CALIBRATION
  {
    if |line| == 1 then seq(BINS, _ => Dbm(line[0]))
    else seq(BINS, j requires 0 <= j < BINS => Dbm(line[j]))
  }

  /** A full-width line is decoded bin by bin: entry j is 268 below byte j. */
  lemma LiveRowAt(line: seq<uint8>, j: nat)
    requires |line| == BINS && j < BINS
    ensures LiveRow(line)[j] == line[j] as int - 268
  {
  }

  /** Replay calibration of one byte: b - 255, without the 13 dB live calibration. */
  function ReplayValue(b: uint8): (r: int)
    ensures -255 <= r <= 0
  {
    b as int - 255
  }

  /** The replay view of a byte is exactly the calibration constant above its live value. */
  lemma ReplayAboveLive(b: uint8)
    ensures ReplayValue(b) == Dbm(b) + CALIBRATION
  {
  }
}
