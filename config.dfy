/**
 * Receiver configuration: the span chosen by the zoom level, the integer
 * start offset sent to the receiver, the centre frequency written into the
 * header, the five configuration commands, and the 34-byte header packed as
 * `II26s` (two unsigned 32-bit fields and a zero-padded 26-byte timestamp).
 */
module Config {
  import opened Wrappers

  /** Number of frequency bins in one waterfall line. */
  const BINS: nat := 1024
  /** Full span of a 30 MHz receiver, in kHz. */
  const FULL_SPAN: nat := 30000
  /** Width of the timestamp field of the header. */
  const STAMP_LEN: nat := 26
  /** Two 4-byte unsigned fields plus the timestamp. */
  const HEADER_LEN: nat := 8 + STAMP_LEN
  /** One more than the largest value a 4-byte unsigned field holds. */
  const U32_LIMIT: nat := 0x1_0000_0000

  function Pow2(n: nat): (r: nat)
    ensures r >= 1
  {
    if n == 0 then 1 else 2 * Pow2(n - 1)
  }

  // ---------------------------------------------------------------------------
  // Span, offset and centre frequency

  /** Span in kHz: the full span divided by 2^zoom (floor division), or the full span when zoom <= 0. */
  function Span(zoom: int): (r: nat)
  {
    if zoom > 0 then DivBounds(FULL_SPAN, Pow2(zoom)); FULL_SPAN / Pow2(zoom) else FULL_SPAN
  }

  /** A positive multiple of a positive number is at least that number. */
  lemma {:induction false} MulAtLeast(d: nat, k: int)
    requires k >= 1
    ensures d * k >= d
  {
    if k > 1 {
      MulAtLeast(d, k - 1);
      assert d * k == d * (k - 1) + d;
    }
  }

  /** Quotient and remainder are unique. */
  lemma DivUnique(a: int, d: int, q: int, r: int)
    requires d > 0 && 0 <= r < d && a == d * q + r
    ensures a / d == q
  {
    var q', r' := a / d, a % d;
    assert a == d * q' + r';
    assert d * (q - q') == r' - r;
    if q - q' >= 1 {
      MulAtLeast(d, q - q');
    } else if q' - q >= 1 {
      MulAtLeast(d, q' - q);
    }
  }

  /** Floor division by a product is floor division twice. */
  lemma DivDiv(a: nat, b: nat, c: nat)
    requires b > 0 && c > 0
    ensures a / (b * c) == (a / b) / c
  {
    var q, r := a / b, a % b;
    var q2, r2 := q / c, q % c;
    assert a == b * q + r;
    assert q == c * q2 + r2;
    assert b * q == (b * c) * q2 + b * r2;
    assert b * r2 <= b * (c - 1) by {
      if r2 < c - 1 {
        MulAtLeast(b, c - 1 - r2);
        assert b * (c - 1) - b * r2 == b * (c - 1 - r2);
      }
    }
    assert b * (c - 1) == b * c - b;
    DivUnique(a, b * c, q2, b * r2 + r);
  }

  /** Floor division of a natural number by a positive one stays between zero and the dividend. */
  lemma DivBounds(a: nat, d: nat)
    requires d > 0
    ensures 0 <= a / d <= a
  {
    var q, r := a / d, a % d;
    assert a == d * q + r;
    if q > 0 {
      MulAtLeast(q, d);
      assert d * q == q * d;
    }
  }

  /** Each extra zoom level halves the span (with floor division), and the span never exceeds the full span. */
  lemma SpanHalves(zoom: nat)
    ensures Span(zoom) <= FULL_SPAN
    ensures Span(zoom + 1) == Span(zoom) / 2
  {
    if zoom == 0 {
      assert Span(1) == FULL_SPAN / 2;
    } else {
      DivDiv(FULL_SPAN, Pow2(zoom), 2);
      assert Pow2(zoom + 1) == Pow2(zoom) * 2;
    }
  }

  /**
   * The integer start offset sent in `SET zoom=… start=…`: zero for a
   * non-positive kHz start, otherwise the number of whole 29-kHz bins
   * (29 = 30000 div 1024) in offset_khz + 100, times 16 * 1000, clamped below at zero.
   */
  function Offset(offsetKhz: int): (r: nat)
  {
    if offsetKhz > 0 then Max(0, (offsetKhz + 100) / (FULL_SPAN / BINS) * 16 * 1000) else 0
  }

  function Max(a: int, b: int): (r: int)
    ensures r >= a && r >= b && (r == a || r == b)
  {
    if a >= b then a else b
  }

  /**
   * Offset is zero exactly for a non-positive start; otherwise it is 16000
   * times the number k of 29-kHz bins that fit in offset_khz + 100.
   */
  lemma OffsetMeaning(offsetKhz: int)
    ensures Offset(offsetKhz) % 16000 == 0
    ensures Offset(offsetKhz) == 0 <==> offsetKhz <= 0
    ensures offsetKhz > 0 ==>
      var k := Offset(offsetKhz) / 16000;
      29 * k <= offsetKhz + 100 < 29 * (k + 1)
  {
    assert FULL_SPAN / BINS == 29;
    if offsetKhz > 0 {
      var k := (offsetKhz + 100) / 29;
      assert k >= 3;
      assert Offset(offsetKhz) == k * 16000;
    }
  }

  /** A later start never gives a smaller offset. */
  lemma OffsetMonotone(a: int, b: int)
    requires a <= b
    ensures Offset(a) <= Offset(b)
  {
    assert FULL_SPAN / BINS == 29;
    if a > 0 {
      assert (a + 100) / 29 <= (b + 100) / 29;
    }
  }

  /** Centre frequency of the header: half the span (floor division) plus the kHz start, not the integer offset. */
  function CenterFreq(zoom: int, offsetKhz: int): int
  {
    Span(zoom) / 2 + offsetKhz
  }

  /** The centre lies at most half the full span above the kHz start; at zoom <= 0 exactly 15000 above it. */
  lemma CenterFreqBounds(zoom: int, offsetKhz: int)
    ensures offsetKhz <= CenterFreq(zoom, offsetKhz) <= offsetKhz + FULL_SPAN / 2
    ensures zoom <= 0 ==> CenterFreq(zoom, offsetKhz) == offsetKhz + 15000
  {
    if zoom > 0 {
      SpanHalves(zoom);
    }
  }

  // ---------------------------------------------------------------------------
  // `%d` formatting and the configuration commands

  function DigitChar(d: nat): (c: char)
    requires d < 10
    ensures '0' <= c <= '9'
  {
    ('0' as int + d) as char
  }

  predicate IsDigit(c: char) {
    '0' <= c <= '9'
  }

  /** Decimal digits of a natural number, most significant first, no leading zeros. */
  function NatToDecimal(n: nat): (s: string)
    ensures |s| >= 1
    ensures forall i :: 0 <= i < |s| ==> IsDigit(s[i])
  {
    if n < 10 then [DigitChar(n)] else NatToDecimal(n / 10) + [DigitChar(n % 10)]
  }

  /** Python's `%d`: a minus sign before the digits of a negative number. */
  function FormatInt(n: int): string
  {
    if n < 0 then "-" + NatToDecimal(-n) else NatToDecimal(n)
  }

  /** Value of a string of decimal digits. */
  function DecimalValue(s: string): nat
    requires forall i :: 0 <= i < |s| ==> IsDigit(s[i])
  {
    if s == [] then 0
    else
      assert IsDigit(s[|s| - 1]);
      var d: nat := s[|s| - 1] as int - '0' as int;
      DecimalValue(s[..|s| - 1]) * 10 + d
  }

  /** Reads back what `%d` writes: an optional minus sign, then one or more digits. */
  function ParseInt(s: string): Option<int>
  {
    if |s| > 0 && s[0] == '-' then
      var digits := s[1..];
      if |digits| > 0 && forall i :: 0 <= i < |digits| ==> IsDigit(digits[i])
      then Some(-(DecimalValue(digits) as int)) else None
    else if |s| > 0 && forall i :: 0 <= i < |s| ==> IsDigit(s[i]) then Some(DecimalValue(s))
    else None
  }

  lemma {:induction false} DecimalRoundTrip(n: nat)
    ensures DecimalValue(NatToDecimal(n)) == n
  {
    if n >= 10 {
      var s := NatToDecimal(n);
      assert s[..|s| - 1] == NatToDecimal(n / 10);
      DecimalRoundTrip(n / 10);
    }
  }

  /** `%d` is lossless: parsing the formatted number gives it back. */
  lemma FormatIntRoundTrip(n: int)
    ensures ParseInt(FormatInt(n)) == Some(n)
    ensures forall i :: 0 <= i < |FormatInt(n)| ==> FormatInt(n)[i] != ' '
  {
    if n < 0 {
      DecimalRoundTrip(-n);
      assert FormatInt(n)[1..] == NatToDecimal(-n);
    } else {
      DecimalRoundTrip(n);
    }
  }

  const AUTH_COMMAND: string := "SET auth t=kiwi p="
  const ZOOM_PREFIX: string := "SET zoom="
  const START_FIELD: string := " start="
  const DB_RANGE_COMMAND: string := "SET maxdb=0 mindb=-100"
  const SPEED_COMMAND: string := "SET wf_speed=4"
  const COMPRESSION_COMMAND: string := "SET wf_comp=0"

  function ZoomCommand(zoom: int, offset: int): string
  {
    ZOOM_PREFIX + FormatInt(zoom) + START_FIELD + FormatInt(offset)
  }

  /** The five configuration commands, in the order they are sent. */
  function Commands(zoom: int, offset: int): seq<string>
  {
    [AUTH_COMMAND, ZoomCommand(zoom, offset), DB_RANGE_COMMAND, SPEED_COMMAND, COMPRESSION_COMMAND]
  }

  /** Index of the first occurrence of `c` in `s`. */
  function IndexOf(s: string, c: char): (r: Option<nat>)
    ensures r.Some? ==> r.value < |s| && s[r.value] == c && forall k :: 0 <= k < r.value ==> s[k] != c
    ensures r.None? ==> forall k :: 0 <= k < |s| ==> s[k] != c
  {
    if s == [] then None
    else if s[0] == c then Some(0)
    else match IndexOf(s[1..], c)
      case None => None
      case Some(k) => Some(k + 1)
  }

  /** Reads the zoom and start back out of a `SET zoom=<Z> start=<O>` command. */
  function ParseZoomCommand(cmd: string): Option<(int, int)>
  {
    if |cmd| < |ZOOM_PREFIX| || cmd[..|ZOOM_PREFIX|] != ZOOM_PREFIX then None
    else
      var rest := cmd[|ZOOM_PREFIX|..];
      match IndexOf(rest, ' ')
      case None => None
      case Some(k) =>
        var tail := rest[k..];
        if |tail| < |START_FIELD| || tail[..|START_FIELD|] != START_FIELD then None
        else match (ParseInt(rest[..k]), ParseInt(tail[|START_FIELD|..]))
          case (Some(z), Some(o)) => Some((z, o))
          case _ => None
  }

  /** A zoom command whose two fields parse, the first free of spaces, parses to those two values. */
  lemma ParseZoomFields(z: string, o: string)
    requires ParseInt(z).Some? && ParseInt(o).Some?
    requires forall i :: 0 <= i < |z| ==> z[i] != ' '
    ensures ParseZoomCommand(ZOOM_PREFIX + z + START_FIELD + o) == Some((ParseInt(z).value, ParseInt(o).value))
  {
    var cmd := ZOOM_PREFIX + z + START_FIELD + o;
    assert cmd[..|ZOOM_PREFIX|] == ZOOM_PREFIX;
    var rest := cmd[|ZOOM_PREFIX|..];
    assert rest == z + START_FIELD + o;
    assert IndexOf(rest, ' ') == Some(|z|) by {
      assert rest[|z|] == ' ';
    }
    assert rest[..|z|] == z;
    var tail := rest[|z|..];
    assert tail == START_FIELD + o;
    assert tail[..|START_FIELD|] == START_FIELD;
    assert tail[|START_FIELD|..] == o;
  }

  /**
   * The command list has five entries in fixed order, and its zoom command
   * carries exactly the zoom and offset it was built from.
   */
  lemma CommandsCarryConfiguration(zoom: int, offset: int)
    ensures |Commands(zoom, offset)| == 5
    ensures Commands(zoom, offset)[0] == AUTH_COMMAND && Commands(zoom, offset)[4] == COMPRESSION_COMMAND
    ensures ParseZoomCommand(Commands(zoom, offset)[1]) == Some((zoom, offset))
  {
    FormatIntRoundTrip(zoom);
    FormatIntRoundTrip(offset);
    ParseZoomFields(FormatInt(zoom), FormatInt(offset));
  }

  // ---------------------------------------------------------------------------
  // The header: struct format `II26s`, little-endian

  datatype Header = Header(centerFreq: int, span: int, stamp: seq<uint8>)

  datatype PackError = FieldOutOfRange

  /** The timestamp the script packs: the literal bytes `(datetime.now()`, not a clock reading. */
  const NOW: seq<uint8> := Ascii("(datetime.now()")

  predicate IsU32(n: int) {
    0 <= n < U32_LIMIT
  }

  /** A 4-byte unsigned field, least significant byte first. */
  function U32Bytes(n: int): (r: seq<uint8>)
    requires IsU32(n)
    ensures |r| == 4
  {
    [n % 256, (n / 256) % 256, (n / 65536) % 256, n / 16777216]
  }

  function U32Value(b: seq<uint8>): int
    requires |b| == 4
  {
    var b0, b1, b2, b3: int := b[0], b[1], b[2], b[3];
    b0 + 256 * (b1 + 256 * (b2 + 256 * b3))
  }

  /** Decoding a 4-byte field gives back the value encoded. */
  lemma U32RoundTrip(n: int)
    requires IsU32(n)
    ensures U32Value(U32Bytes(n)) == n
  {
    var b := U32Bytes(n);
    assert n / 65536 == (n / 16777216) * 256 + (n / 65536) % 256 by {
      DivDiv(n, 65536, 256);
    }
    assert n / 256 == (n / 65536) * 256 + (n / 256) % 256 by {
      DivDiv(n, 256, 256);
    }
  }

  /** The `26s` field: truncated to 26 bytes, or padded with zero bytes up to 26. */
  function PadStamp(stamp: seq<uint8>): (r: seq<uint8>)
    ensures |r| == STAMP_LEN
  {
    if |stamp| >= STAMP_LEN then stamp[..STAMP_LEN] else stamp + seq(STAMP_LEN - |stamp|, _ => 0)
  }

  /** `struct.pack("II26s", center, span, stamp)`; a field outside 0..2^32-1 raises `struct.error`. */
  function PackHeader(centerFreq: int, span: int, stamp: seq<uint8>): Result<seq<uint8>, PackError>
  {
    if IsU32(centerFreq) && IsU32(span) then Ok(U32Bytes(centerFreq) + U32Bytes(span) + PadStamp(stamp))
    else Err(FieldOutOfRange)
  }

  /** `struct.unpack('2I26s', b)` on exactly 34 bytes. */
  function UnpackHeader(b: seq<uint8>): Header
    requires |b| == HEADER_LEN
  {
    Header(U32Value(b[0..4]), U32Value(b[4..8]), b[8..])
  }

  /**
   * Packing succeeds exactly when both fields fit in 32 unsigned bits; the
   * header is then 34 bytes, and unpacking it returns the two fields and the
   * zero-padded timestamp.
   */
  lemma HeaderRoundTrip(centerFreq: int, span: int, stamp: seq<uint8>)
    ensures PackHeader(centerFreq, span, stamp).Ok? <==> IsU32(centerFreq) && IsU32(span)
    ensures PackHeader(centerFreq, span, stamp).Ok? ==>
      var b := PackHeader(centerFreq, span, stamp).value;
      |b| == HEADER_LEN && UnpackHeader(b) == Header(centerFreq, span, PadStamp(stamp))
  {
    if IsU32(centerFreq) && IsU32(span) {
      var b := PackHeader(centerFreq, span, stamp).value;
      assert b[0..4] == U32Bytes(centerFreq);
      assert b[4..8] == U32Bytes(span);
      assert b[8..] == PadStamp(stamp);
      U32RoundTrip(centerFreq);
      U32RoundTrip(span);
    }
  }
}
