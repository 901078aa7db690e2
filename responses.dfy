/** The decoding half of src/libmccr/mccr.c: how a command's response payload
    becomes the values the library hands out, how a session id is laid out on
    the wire, and how a swipe-report usage becomes a byte range of the
    received input report. */
module Responses {
  import opened Types
  import opened HidSpec
  import FeatureReport

  // ---------------------------------------------------------------------------
  // Fixed-length payloads

  /** Response lengths the commands insist on. */
  const KSN_AND_COUNTER_SIZE: nat := 10
  const READER_STATE_SIZE: nat := 2
  const SECURITY_LEVEL_SIZE: nat := 1
  const ENCRYPTION_COUNTER_SIZE: nat := 19
  const MAGTEK_UPDATE_TOKEN_SIZE: nat := 36

  /** The payload of a response whose declared length must be exactly `expected`; None is
      UNEXPECTED_FORMAT. */
  function FixedPayload(response: seq<byte>, expected: nat): (r: Option<seq<byte>>)
    requires |response| >= FeatureReport.HEADER_SIZE
    ensures r.Some? <==> response[2] as nat == expected && FeatureReport.HEADER_SIZE + expected <= |response|
    ensures r.Some? ==> |r.value| == expected && FeatureReport.ResponsePayload(response) == r
  {
    match FeatureReport.ResponsePayload(response)
    case Some(p) => if |p| == expected then Some(p) else None
    case None => None
  }

  /** The check the fixed-length commands make as written (mccr.c:585, 678, 711, 743, 786):
      only the declared length is compared, never the room left in the response buffer. */
  function FixedAcceptedAsWritten(response: seq<byte>, expected: nat): (accepted: bool)
    requires |response| >= FeatureReport.HEADER_SIZE
    ensures accepted <==> FeatureReport.ResponseView(response).1 == expected
    ensures FixedPayload(response, expected).Some?
      <==> accepted && FeatureReport.HEADER_SIZE + expected <= |response|
  {
    response[2] as nat == expected
  }

  /** A declared length that equals the expected one but overruns the buffer is accepted as
      written, and the payload handed out then runs past the end of the response; the
      corrected FixedPayload rejects it. */
  lemma {:induction false} FixedLengthOverRead(response: seq<byte>, expected: nat)
    requires |response| >= FeatureReport.HEADER_SIZE && response[2] as nat == expected
    requires |response| < FeatureReport.HEADER_SIZE + expected
    ensures FixedAcceptedAsWritten(response, expected)
    ensures |FeatureReport.ResponseView(response).0| < expected
    ensures FixedPayload(response, expected).None?
  {
    assert |FeatureReport.ResponseView(response).0| == |response| - FeatureReport.HEADER_SIZE by {
      assert response[..FeatureReport.HEADER_SIZE] + FeatureReport.ResponseView(response).0 == response;
    }
  }

  // ---------------------------------------------------------------------------
  // Encryption counter

  /** The 16-byte device serial number and the 24-bit little-endian counter of a
      GET_ENCRYPTION_COUNTER payload. */
  function EncryptionCounter(payload: seq<byte>): (r: (seq<byte>, nat))
    requires |payload| == ENCRYPTION_COUNTER_SIZE
    ensures r.0 == payload[..16]
    ensures r.1 < 0x100_0000
  {
    assert Pow256(3) == 0x100_0000;
    (payload[..16], LittleEndian(payload[16..19]))
  }

  /** The counter is b16 + 256 * b17 + 65536 * b18. */
  lemma {:induction false} CounterBytes(payload: seq<byte>)
    requires |payload| == ENCRYPTION_COUNTER_SIZE
    ensures EncryptionCounter(payload).1
      == payload[16] as nat + 256 * payload[17] as nat + 65536 * payload[18] as nat
  {
    var c := payload[16..19];
    assert LittleEndian(c[2..]) == c[2] as nat + 256 * LittleEndian(c[3..]);
    assert LittleEndian(c[1..]) == c[1] as nat + 256 * LittleEndian(c[2..]) by {
      assert c[1..][1..] == c[2..];
    }
    assert c[3..] == [];
  }

  /** A serial number and a counter below 2^24 laid out by the device are recovered. */
  lemma {:induction false} EncryptionCounterRoundTrip(serial: seq<byte>, counter: nat)
    requires |serial| == 16 && counter < 0x100_0000
    ensures EncryptionCounter(serial + ToLittleEndian(counter, 3)) == (serial, counter)
  {
    var payload := serial + ToLittleEndian(counter, 3);
    assert payload[16..19] == ToLittleEndian(counter, 3);
    assert payload[..16] == serial;
    LittleEndianRoundTrip(counter, 3);
  }

  // ---------------------------------------------------------------------------
  // Session id

  /** `bytes` read most significant first. */
  function BigEndian(bytes: seq<byte>): (v: nat)
    ensures v < Pow256(|bytes|)
  {
    if bytes == [] then 0 else 256 * BigEndian(bytes[..|bytes| - 1]) + bytes[|bytes| - 1] as nat
  }

  /** The n-byte big-endian encoding of v (htobe64 for n = 8). */
  function ToBigEndian(v: nat, n: nat): (bytes: seq<byte>)
    requires v < Pow256(n)
    ensures |bytes| == n
  {
    if n == 0 then [] else ToBigEndian(v / 256, n - 1) + [(v % 256) as byte]
  }

  /** The 8 bytes SET_SESSION_ID carries for a 64-bit session id. */
  function SessionIdBytes(id: u64): (bytes: seq<byte>)
    ensures |bytes| == 8
  {
    Pow256Eight();
    ToBigEndian(id, 8)
  }

  lemma {:induction false} Pow256Eight()
    ensures Pow256(8) == U64_MODULUS
  {
    calc {
      Pow256(8);
      256 * Pow256(7);
      256 * (256 * Pow256(6));
      256 * (256 * (256 * Pow256(5)));
      256 * (256 * (256 * (256 * Pow256(4))));
      256 * (256 * (256 * (256 * (256 * (256 * (256 * (256 * Pow256(0))))))));
    }
  }

  /** Reading back what was encoded gives the number. */
  lemma {:induction false} BigEndianRoundTrip(v: nat, n: nat)
    requires v < Pow256(n)
    ensures BigEndian(ToBigEndian(v, n)) == v
    decreases n
  {
    if n > 0 {
      var bytes := ToBigEndian(v, n);
      assert bytes[..n - 1] == ToBigEndian(v / 256, n - 1);
      BigEndianRoundTrip(v / 256, n - 1);
    }
  }

  /** Encoding what was read back gives the bytes. */
  lemma {:induction false} ToBigEndianOfDecoded(bytes: seq<byte>)
    ensures ToBigEndian(BigEndian(bytes), |bytes|) == bytes
    decreases |bytes|
  {
    if bytes != [] {
      var init := bytes[..|bytes| - 1];
      ToBigEndianOfDecoded(init);
      assert bytes == init + [bytes[|bytes| - 1]];
    }
  }

  /** Division is determined by quotient and remainder. */
  lemma {:induction false} DivUnique(v: nat, d: nat, x: nat, y: nat)
    requires d > 0 && v == d * x + y && y < d
    ensures v / d == x
  {
    var q := v / d;
    if q < x {
      MulGap(d, q, x);
      assert false;
    } else if q > x {
      MulGap(d, x, q);
      assert false;
    }
  }

  lemma {:induction false} MulGap(d: nat, a: nat, b: nat)
    requires a < b
    ensures d * a + d <= d * b
  {
    var k := b - a;
    assert d * b == d * a + d * k by {
      assert b == a + k;
    }
    assert d * k == d + d * (k - 1);
  }

  lemma {:induction false} MulBelow(a: nat, r2: nat, r: nat, b: nat)
    requires r2 < b && r < a
    ensures a * r2 + r < a * b
  {
    assert a * r2 <= a * (b - 1);
  }

  lemma {:induction false} Regroup(a: nat, b: nat, q: nat, q2: nat, r2: nat)
    requires q == b * q2 + r2
    ensures a * q == (a * b) * q2 + a * r2
  {
  }

  lemma {:induction false} DivDiv(v: nat, a: nat, b: nat)
    requires a > 0 && b > 0
    ensures v / a / b == v / (a * b)
  {
    var q, r := v / a, v % a;
    assert v == a * q + r;
    var q2, r2 := q / b, q % b;
    assert q == b * q2 + r2;
    Regroup(a, b, q, q2, r2);
    MulBelow(a, r2, r, b);
    DivUnique(v, a * b, q2, a * r2 + r);
  }

  /** Byte k of the encoding is (v >> 8 * (n - 1 - k)) & 0xFF: most significant byte first. */
  lemma {:induction false} BigEndianByte(v: nat, n: nat, k: nat)
    requires v < Pow256(n) && k < n
    ensures ToBigEndian(v, n)[k] as nat == (v / Pow256(n - 1 - k)) % 256
    decreases n
  {
    if k < n - 1 {
      BigEndianByte(v / 256, n - 1, k);
      DivDiv(v, 256, Pow256(n - 2 - k));
    }
  }

  /** Byte k of a session id on the wire is (id >> (56 - 8k)) & 0xFF. */
  lemma {:induction false} SessionIdByte(id: u64, k: nat)
    requires k < 8
    ensures SessionIdBytes(id)[k] as nat == (id / Pow256(7 - k)) % 256
  {
    Pow256Eight();
    BigEndianByte(id, 8, k);
  }

  /** The session id is recovered from its bytes. */
  lemma {:induction false} SessionIdRoundTrip(id: u64)
    ensures BigEndian(SessionIdBytes(id)) == id
  {
    Pow256Eight();
    BigEndianRoundTrip(id, 8);
  }

  // ---------------------------------------------------------------------------
  // Track-enable property

  /** The decoded PROPERTY_TRACK_ID_ENABLE byte; a track state is 0 disabled, 1 enabled,
      2 enabled and required (3 is unnamed). */
  datatype TrackIdEnable = TrackIdEnable(aamva: bool, track1: nat, track2: nat, track3: nat)

  predicate WellFormed(t: TrackIdEnable)
  {
    t.track1 < 4 && t.track2 < 4 && t.track3 < 4
  }

  /** The bit fields of mccr_device_read_track_id_enable: AAMVA support in bit 7, track 1 in
      bits 0-1, track 2 in bits 2-3, track 3 in bits 4-5. */
  function DecodeTrackIdEnable(val: byte): (t: TrackIdEnable)
    ensures WellFormed(t)
  {
    TrackIdEnable(val >= 0x80, val as nat % 4, val as nat / 4 % 4, val as nat / 16 % 4)
  }

  /** The property byte that holds the given fields, bit 6 clear. */
  function EncodeTrackIdEnable(t: TrackIdEnable): byte
    requires WellFormed(t)
  {
    ((if t.aamva then 0x80 else 0) + 16 * t.track3 + 4 * t.track2 + t.track1) as byte
  }

  /** Each field is decoded from its own bits. */
  lemma {:induction false} TrackIdEnableRoundTrip(t: TrackIdEnable)
    requires WellFormed(t)
    ensures DecodeTrackIdEnable(EncodeTrackIdEnable(t)) == t
  {
    var v := EncodeTrackIdEnable(t) as nat;
    var low := 16 * t.track3 + 4 * t.track2 + t.track1;
    assert low < 64;
    assert v / 4 == 4 * t.track3 + t.track2 + (if t.aamva then 32 else 0);
    assert v / 16 == t.track3 + (if t.aamva then 8 else 0);
  }

  /** Decoding loses only bit 6. */
  lemma {:induction false} TrackIdEnableReencode(val: byte)
    ensures EncodeTrackIdEnable(DecodeTrackIdEnable(val)) as nat
      == val as nat - (if val as nat / 64 % 2 == 1 then 64 else 0)
  {
    var v := val as nat;
    assert v == 4 * (v / 4) + v % 4;
    assert v / 4 == 4 * (v / 16) + v / 4 % 4;
    assert v / 16 == 4 * (v / 64) + v / 16 % 4;
    assert v / 64 == 2 * (v / 128) + v / 64 % 2;
    assert v / 128 == (if val >= 0x80 then 1 else 0);
  }

  /** mccr_device_read_track_id_enable as written: the property read reports OK without
      writing its output when the reply is not one byte long, and the fields are then decoded
      from the caller's uninitialised variable. */
  function TrackIdEnableAsWritten(reply: Option<byte>, uninitialised: byte): (r: (Status, TrackIdEnable))
    ensures r.0 == Ok
    ensures reply.Some? ==> r.1 == DecodeTrackIdEnable(reply.value)
  {
    (Ok, DecodeTrackIdEnable(if reply.Some? then reply.value else uninitialised))
  }

  /** With a reply of the wrong length, OK is reported with fields that depend on whatever
      the uninitialised variable held. */
  lemma {:induction false} TrackIdEnableReadsUninitialised()
    ensures TrackIdEnableAsWritten(None, 0x00).0 == Ok && TrackIdEnableAsWritten(None, 0xFF).0 == Ok
    ensures TrackIdEnableAsWritten(None, 0x00).1 != TrackIdEnableAsWritten(None, 0xFF).1
  {
  }

  /** The track-enable read, corrected: a reply of the wrong length is UNEXPECTED_FORMAT, as
      for every other fixed-length response, and the fields come only from the reply. */
  function TrackIdEnableOf(reply: Option<byte>): (r: (Status, Option<TrackIdEnable>))
    ensures r.0 == Ok <==> r.1.Some?
    ensures r.0 == Ok <==> reply.Some?
    ensures reply.None? ==> r.0 == UnexpectedFormat
    ensures r.1.Some? ==> (WellFormed(r.1.value)
      && EncodeTrackIdEnable(r.1.value) as nat
        == reply.value as nat - (if reply.value as nat / 64 % 2 == 1 then 64 else 0))
  {
    match reply
    case None => (UnexpectedFormat, None)
    case Some(v) =>
      TrackIdEnableReencode(v);
      (Ok, Some(DecodeTrackIdEnable(v)))
  }

  // ---------------------------------------------------------------------------
  // Swipe-report usages

  /** The outcome of swipe_report_get_usage: a status and, on OK, the usage's byte range
      `start .. start + size` within the input report. */
  datatype UsageSpan = UsageSpan(status: Status, start: nat, size: nat)

  /** swipe_report_get_usage on the input layout `usages` and a received report of `dataSize`
      bytes; `expected` is the size in bytes the caller insists on, 0 for any. */
  function SwipeUsage(usages: seq<Usage>, id: byte, expected: nat, dataSize: nat): (r: UsageSpan)
    ensures r.status in {Ok, NotFound, Internal, UnexpectedFormat}
    ensures r.status == NotFound <==> FindUsage(usages, id).None?
    ensures FindUsage(usages, id).Some? ==> (var u := usages[FindUsage(usages, id).value];
      && (r.status == Internal <==> (u.offsetBits % 8 != 0 || u.sizeBits % 8 != 0))
      && (r.status == Ok <==> (u.offsetBits % 8 == 0 && u.sizeBits % 8 == 0
            && (expected == 0 || u.sizeBits / 8 == expected)
            && u.offsetBits / 8 + u.sizeBits / 8 <= dataSize))
      && (r.status == Ok ==> (r.start * 8 == u.offsetBits && r.size * 8 == u.sizeBits
            && r.start + r.size <= dataSize && (expected != 0 ==> r.size == expected))))
  {
    match FindUsage(usages, id)
    case None => UsageSpan(NotFound, 0, 0)
    case Some(k) =>
      var u := usages[k];
      if u.offsetBits % 8 != 0 || u.sizeBits % 8 != 0 then UsageSpan(Internal, 0, 0)
      else
        var start, size := u.offsetBits / 8, u.sizeBits / 8;
        if expected != 0 && size != expected then UsageSpan(UnexpectedFormat, 0, 0)
        else if start + size > dataSize then UsageSpan(UnexpectedFormat, 0, 0)
        else UsageSpan(Ok, start, size)
  }

  /** In the input layout of a parsed descriptor whose total did not wrap, every byte-aligned
      usage lies inside a fully received report, so the bounds check never fails there. */
  lemma {:induction false} ParsedUsageInBounds(us: seq<Usage>, id: byte)
    requires FinalizeReport(us).Some? && SumSizes(us) < U32_MODULUS
    requires var r := FinalizeReport(us).value;
      FindUsage(r.usages, id).Some?
      && r.usages[FindUsage(r.usages, id).value].offsetBits % 8 == 0
      && r.usages[FindUsage(r.usages, id).value].sizeBits % 8 == 0
    ensures var r := FinalizeReport(us).value;
      SwipeUsage(r.usages, id, 0, r.size).status == Ok
  {
    LayoutTiles(us);
    var r := FinalizeReport(us).value;
    var k := FindUsage(r.usages, id).value;
    assert r.usages[k].offsetBits + r.usages[k].sizeBits <= 8 * r.size;
  }
}
