/** The device layer of src/libmccr/mccr.c: a device session that is opened from
    a report descriptor and a transport and closed again, the commands it runs
    through the feature-report codec, and the swipe report it receives through
    the input-report receiver. */
module Mccr {
  import opened Types
  import opened Transport
  import opened HidSpec
  import opened FeatureReport
  import opened InputReport
  import opened Responses
  import Hid

  /** Property ids of GET_PROPERTY. */
  const PROPERTY_SOFTWARE_ID: byte := 0x00
  const PROPERTY_USB_SERIAL_NUMBER: byte := 0x01
  const PROPERTY_POLLING_INTERVAL: byte := 0x02
  const PROPERTY_DEVICE_SERIAL_NUMBER: byte := 0x03
  const PROPERTY_MAGNESAFE_VERSION_NUMBER: byte := 0x04
  const PROPERTY_TRACK_ID_ENABLE: byte := 0x05
  const PROPERTY_ISO_TRACK_MASK: byte := 0x07
  const PROPERTY_AAMVA_TRACK_MASK: byte := 0x08
  const PROPERTY_MAX_PACKET_SIZE: byte := 0x0A

  /** Input usage ids of the swipe report, per track 1, 2, 3 (mccr-hid.h). */
  const USAGE_TRACK_DECODE_STATUS: seq<byte> := [0x20, 0x21, 0x22]
  const USAGE_TRACK_ENCRYPTED_DATA_LENGTH: seq<byte> := [0x28, 0x29, 0x2a]
  const USAGE_TRACK_ENCRYPTED_DATA: seq<byte> := [0x30, 0x31, 0x32]
  const USAGE_TRACK_MASKED_DATA_LENGTH: seq<byte> := [0x47, 0x48, 0x49]
  const USAGE_TRACK_MASKED_DATA: seq<byte> := [0x4a, 0x4b, 0x4c]
  const USAGE_TRACK_ABSOLUTE_DATA_LENGTH: seq<byte> := [0x51, 0x52, 0x53]
  const USAGE_CARD_ENCODE_TYPE: byte := 0x38

  // ---------------------------------------------------------------------------
  // What a command yields, as a function of the transport's scripts

  /** The response buffer after a reset and an exchange whose read filled it. */
  function Reply(replies: seq<Option<seq<byte>>>, size: nat): (r: seq<byte>)
    requires ReplyCount(replies, size) == size
    ensures |r| == size && r == Replied(replies, Zeros(size))
  {
    replies[0].value[..size]
  }

  /** A command whose response must carry exactly `expected` bytes: the exchange status, then
      UNEXPECTED_FORMAT for any other declared length, otherwise OK with the payload. */
  function FixedOutcome(writes: seq<int>, replies: seq<Option<seq<byte>>>, size: nat, expected: nat): (r: (Status, seq<byte>))
    requires size >= HEADER_SIZE
    ensures r.0 == Ok ==> |r.1| == expected
  {
    var st := ExchangeStatus(writes, replies, size);
    if st != Ok then (st, [])
    else match FixedPayload(Reply(replies, size), expected)
      case None => (UnexpectedFormat, [])
      case Some(p) => (Ok, p)
  }

  /** A fixed-length command succeeds exactly when the whole request went out, the whole
      response came back with result code 0 and declared length `expected`, and the payload
      fits; its output is then the `expected` bytes after the header. */
  lemma {:induction false} FixedOutcomeOk(writes: seq<int>, replies: seq<Option<seq<byte>>>, size: nat, expected: nat)
    requires size >= HEADER_SIZE
    ensures var r := FixedOutcome(writes, replies, size, expected);
      (r.0 == Ok <==> (WriteCount(writes) == size && ReplyCount(replies, size) == size
        && replies[0].value[1] == RESULT_SUCCESS && replies[0].value[2] as nat == expected
        && HEADER_SIZE + expected <= size))
    ensures var r := FixedOutcome(writes, replies, size, expected);
      r.0 == Ok ==> r.1 == replies[0].value[3..3 + expected]
    ensures var r := FixedOutcome(writes, replies, size, expected);
      ExchangeStatus(writes, replies, size) == Ok && r.0 != Ok ==> r.0 == UnexpectedFormat
  {
    if WriteCount(writes) == size && ReplyCount(replies, size) == size {
      var reply := Reply(replies, size);
      assert reply[1] == replies[0].value[1] && reply[2] == replies[0].value[2];
      if HEADER_SIZE + expected <= size {
        assert reply[3..3 + expected] == replies[0].value[3..3 + expected];
      }
    }
  }

  /** A fixed-length command as written: the exchange status, then UNEXPECTED_FORMAT only for a
      declared length other than `expected`, whether or not that many bytes follow the header. */
  function FixedStatusAsWritten(writes: seq<int>, replies: seq<Option<seq<byte>>>, size: nat, expected: nat): (st: Status)
    requires size >= HEADER_SIZE
    ensures ExchangeStatus(writes, replies, size) != Ok ==> st == ExchangeStatus(writes, replies, size)
    ensures ExchangeStatus(writes, replies, size) == Ok
      ==> (st == Ok <==> replies[0].value[2] as nat == expected)
    ensures st == Ok && HEADER_SIZE + expected <= size ==> FixedOutcome(writes, replies, size, expected).0 == Ok
  {
    var st := ExchangeStatus(writes, replies, size);
    if st != Ok then st
    else
      var reply := Reply(replies, size);
      assert reply[2] == replies[0].value[2];
      FixedOutcomeOk(writes, replies, size, expected);
      if FixedAcceptedAsWritten(reply, expected) then Ok else UnexpectedFormat
  }

  /** A 5-byte report whose reply declares 10 bytes: mccr_device_get_dukpt_ksn_and_counter as
      written reports OK and copies 10 bytes from a buffer holding 2 after the header; the
      corrected outcome is UNEXPECTED_FORMAT. */
  lemma {:induction false} FixedCommandOverRead()
    ensures FixedStatusAsWritten([5], [Some([0, 0, 10, 1, 2])], 5, KSN_AND_COUNTER_SIZE) == Ok
    ensures HEADER_SIZE + KSN_AND_COUNTER_SIZE > 5
    ensures FixedOutcome([5], [Some([0, 0, 10, 1, 2])], 5, KSN_AND_COUNTER_SIZE).0 == UnexpectedFormat
  {
    FixedOutcomeOk([5], [Some([0, 0, 10, 1, 2])], 5, KSN_AND_COUNTER_SIZE);
  }

  /** A command whose response may carry any payload (property strings, run_generic): the
      exchange status, then UNEXPECTED_FORMAT if the declared length overruns the buffer. */
  function PayloadOutcome(writes: seq<int>, replies: seq<Option<seq<byte>>>, size: nat): (r: (Status, seq<byte>))
    requires size >= HEADER_SIZE
  {
    var st := ExchangeStatus(writes, replies, size);
    if st != Ok then (st, [])
    else match ResponsePayload(Reply(replies, size))
      case None => (UnexpectedFormat, [])
      case Some(p) => (Ok, p)
  }

  /** Such a command succeeds exactly when the exchange does and the declared length fits, and
      hands out exactly the declared number of bytes after the header. */
  lemma {:induction false} PayloadOutcomeOk(writes: seq<int>, replies: seq<Option<seq<byte>>>, size: nat)
    requires size >= HEADER_SIZE
    ensures var r := PayloadOutcome(writes, replies, size);
      (r.0 == Ok <==> (ExchangeStatus(writes, replies, size) == Ok
        && HEADER_SIZE + replies[0].value[2] as nat <= size))
    ensures var r := PayloadOutcome(writes, replies, size);
      r.0 == Ok ==> r.1 == replies[0].value[3..3 + replies[0].value[2] as nat]
  {
    if ExchangeStatus(writes, replies, size) == Ok {
      var reply := Reply(replies, size);
      assert reply[2] == replies[0].value[2];
      if HEADER_SIZE + reply[2] as nat <= size {
        assert reply[3..3 + reply[2] as nat] == replies[0].value[3..3 + reply[2] as nat];
      }
    }
  }

  /** common_device_read_property_byte: the exchange status; on OK the byte when exactly one
      came back, and nothing (still OK) otherwise. */
  function ByteOutcome(writes: seq<int>, replies: seq<Option<seq<byte>>>, size: nat): (r: (Status, Option<byte>))
    requires size >= HEADER_SIZE
    ensures r.0 == ExchangeStatus(writes, replies, size)
    ensures r.1.Some? ==> (r.0 == Ok && replies[0].value[2] == 1 && size >= HEADER_SIZE + 1
      && r.1.value == replies[0].value[3])
    ensures r.0 == Ok && replies[0].value[2] == 1 && size >= HEADER_SIZE + 1 ==> r.1.Some?
  {
    var st := ExchangeStatus(writes, replies, size);
    if st != Ok then (st, None)
    else
      var reply := Reply(replies, size);
      assert reply[2] == replies[0].value[2];
      match FixedPayload(reply, 1)
      case None => (Ok, None)
      case Some(p) => (Ok, Some(p[0]))
  }

  // ---------------------------------------------------------------------------
  // The device

  /** mccr_device_t: open exactly when it holds a descriptor context, a transport and a
      feature-report codec, all three or none. */
  class Device {
    var refcount: int
    var hid: HidDevice?
    var desc: Hid.DescriptorContext?
    var featureReport: FeatureBuffers?

    predicate Valid()
      reads this, desc, featureReport
    {
      && refcount >= 1
      && (desc == null <==> hid == null)
      && (desc == null <==> featureReport == null)
      && (desc != null ==> desc.refcount >= 1 && refcount >= 2)
      && (featureReport != null ==>
            desc != null && featureReport.Valid() && featureReport.reportSize == 1 + desc.feature.size)
    }

    /** The objects a command may change. */
    function CommandFrame(): set<object?>
      reads this, featureReport
    {
      if featureReport == null then {} else {featureReport.request, featureReport.response, hid}
    }

    /** device_new: one reference, closed. */
    constructor ()
      ensures Valid() && refcount == 1 && desc == null && hid == null && featureReport == null
    {
      refcount := 1;
      hid, desc, featureReport := null, null, null;
    }

    /** mccr_device_is_open */
    method IsOpen() returns (open: bool)
      requires Valid()
      ensures open <==> desc != null
      ensures open <==> hid != null && featureReport != null
    {
      open := desc != null;
    }

    /** device_clear_open_info: drops the codec, the descriptor reference and the transport. */
    method ClearOpenInfo()
      requires desc != null ==> desc.refcount >= 1
      modifies this`hid, this`desc, this`featureReport, desc
      ensures hid == null && desc == null && featureReport == null
      ensures old(desc) != null ==> old(desc).refcount == old(desc.refcount) - 1
    {
      featureReport := null;
      if desc != null {
        var _ := desc.Unref();
        desc := null;
      }
      hid := null;
    }

    /** mccr_device_open, given the outcome of reading the report descriptor (None is a failed
        read) and of opening the transport (null is a failure).  An open device only gains a
        reference; a closed one is opened with a fresh codec or left exactly as it was. */
    method Open(descriptor: Option<seq<byte>>, transport: HidDevice?) returns (st: Status)
      requires Valid()
      modifies this
      ensures Valid()
      ensures old(desc) != null ==> (st == Ok && refcount == old(refcount) + 1
        && desc == old(desc) && hid == old(hid) && featureReport == old(featureReport))
      ensures old(desc) == null ==>
        (st == Ok <==> (descriptor.Some? && Parse(descriptor.value).Some? && transport != null))
      ensures old(desc) == null && st == Ok ==> (refcount == old(refcount) + 1
        && desc != null && fresh(desc) && desc.refcount == 1
        && desc.input == Parse(descriptor.value).value.input
        && desc.feature == Parse(descriptor.value).value.feature
        && hid == transport
        && featureReport != null && fresh(featureReport)
        && fresh(featureReport.request) && fresh(featureReport.response)
        && featureReport.reportSize == 1 + desc.feature.size
        && featureReport.request[..] == Zeros(featureReport.reportSize)
        && featureReport.response[..] == Zeros(featureReport.reportSize))
      ensures old(desc) == null && st != Ok ==> (st == Failed && refcount == old(refcount)
        && desc == null && hid == null && featureReport == null)
    {
      if desc != null {
        refcount := refcount + 1;
        return Ok;
      }
      if descriptor.None? {
        ClearOpenInfo();
        return Failed;
      }
      var parsed, ctx := Hid.ParseReportDescriptorContext(descriptor.value);
      if parsed != Ok {
        ClearOpenInfo();
        return Failed;
      }
      desc := ctx;
      hid := transport;
      if hid == null {
        ClearOpenInfo();
        return Failed;
      }
      featureReport := new FeatureBuffers(desc);
      refcount := refcount + 1;
      st := Ok;
    }

    /** mccr_device_close: nothing on a closed device; otherwise everything is dropped and the
        reference taken by open is given back. */
    method Close()
      requires Valid()
      modifies this, desc
      ensures Valid()
      ensures desc == null && hid == null && featureReport == null
      ensures old(desc) == null ==> refcount == old(refcount)
      ensures old(desc) != null ==> (refcount == old(refcount) - 1
        && old(desc).refcount == old(desc.refcount) - 1)
    {
      if desc == null {
        return;
      }
      ClearOpenInfo();
      refcount := refcount - 1;
    }

    /** Reset, set the request, and exchange it: NOT_OPEN without a codec, otherwise the
        exchange status, the request that went out, and the response buffer the reply left. */
    method Command(command: byte, data: seq<byte>) returns (st: Status, response: seq<byte>)
      requires Valid()
      requires featureReport != null ==>
        featureReport.reportSize >= 2 && (|data| == 0 || HEADER_SIZE + |data| <= featureReport.reportSize)
      modifies CommandFrame()
      ensures featureReport == null ==> st == NotOpen
      ensures featureReport != null ==> (var size := featureReport.reportSize;
        && st == ExchangeStatus(old(hid.writeScript), old(hid.replyScript), size)
        && hid.written == old(hid.written) + [EncodeRequest(Zeros(size), command, data)]
        && hid.writeScript == Rest(old(hid.writeScript))
        && (st == Ok ==>
              response == Reply(old(hid.replyScript), size) && hid.replyScript == Rest(old(hid.replyScript)))
        && |response| == size && response == featureReport.response[..])
    {
      if featureReport == null {
        return NotOpen, [];
      }
      featureReport.Reset();
      featureReport.SetRequest(command, data);
      st := featureReport.SendReceive(hid);
      response := featureReport.response[..];
    }

    /** mccr_device_reset */
    method Reset() returns (st: Status)
      requires Valid() && (featureReport != null ==> featureReport.reportSize >= 2)
      modifies CommandFrame()
      ensures featureReport == null ==> st == NotOpen
      ensures featureReport != null ==> (var size := featureReport.reportSize;
        && st == ExchangeStatus(old(hid.writeScript), old(hid.replyScript), size)
        && hid.written == old(hid.written) + [EncodeRequest(Zeros(size), COMMAND_RESET_DEVICE, [])])
    {
      var response;
      st, response := Command(COMMAND_RESET_DEVICE, []);
    }

    /** common_device_read_property_string, with the declared length checked against the
        buffer: the property's payload as a string of bytes. */
    method ReadPropertyString(property: byte) returns (st: Status, value: seq<byte>)
      requires Valid() && (featureReport != null ==> featureReport.reportSize >= HEADER_SIZE + 1)
      modifies CommandFrame()
      ensures featureReport == null ==> st == NotOpen
      ensures featureReport != null ==> (var size := featureReport.reportSize;
        && (st, value) == PayloadOutcome(old(hid.writeScript), old(hid.replyScript), size)
        && hid.written == old(hid.written) + [EncodeRequest(Zeros(size), COMMAND_GET_PROPERTY, [property])])
    {
      var response;
      st, response := Command(COMMAND_GET_PROPERTY, [property]);
      if st != Ok {
        return st, [];
      }
      match ResponsePayload(response)
      case None => st, value := UnexpectedFormat, [];
      case Some(p) => value := p;
    }

    /** common_device_read_property_byte: OK with no value when the reply is not one byte. */
    method ReadPropertyByte(property: byte) returns (st: Status, value: Option<byte>)
      requires Valid() && (featureReport != null ==> featureReport.reportSize >= HEADER_SIZE + 1)
      modifies CommandFrame()
      ensures featureReport == null ==> st == NotOpen && value.None?
      ensures featureReport != null ==> (var size := featureReport.reportSize;
        && (st, value) == ByteOutcome(old(hid.writeScript), old(hid.replyScript), size)
        && hid.written == old(hid.written) + [EncodeRequest(Zeros(size), COMMAND_GET_PROPERTY, [property])])
    {
      var response;
      st, response := Command(COMMAND_GET_PROPERTY, [property]);
      if st != Ok {
        return st, None;
      }
      match FixedPayload(response, 1)
      case None => value := None;
      case Some(p) => value := Some(p[0]);
    }

    /** mccr_device_read_track_id_enable, corrected: a reply that is not one byte is
        UNEXPECTED_FORMAT instead of a decoding of an uninitialised byte. */
    method ReadTrackIdEnable() returns (st: Status, value: Option<TrackIdEnable>)
      requires Valid() && (featureReport != null ==> featureReport.reportSize >= HEADER_SIZE + 1)
      modifies CommandFrame()
      ensures featureReport == null ==> st == NotOpen
      ensures featureReport != null ==> (var size := featureReport.reportSize;
        var read := ByteOutcome(old(hid.writeScript), old(hid.replyScript), size);
        && (read.0 != Ok ==> st == read.0 && value.None?)
        && (read.0 == Ok ==> (st, value) == TrackIdEnableOf(read.1)))
    {
      var reply;
      st, reply := ReadPropertyByte(PROPERTY_TRACK_ID_ENABLE);
      if st != Ok {
        return st, None;
      }
      st, value := TrackIdEnableOf(reply).0, TrackIdEnableOf(reply).1;
    }

    /** mccr_device_get_dukpt_ksn_and_counter: exactly 10 bytes. */
    method GetDukptKsnAndCounter() returns (st: Status, ksn: seq<byte>)
      requires Valid() && (featureReport != null ==> featureReport.reportSize >= HEADER_SIZE)
      modifies CommandFrame()
      ensures featureReport == null ==> st == NotOpen
      ensures featureReport != null ==> (st, ksn) == FixedOutcome(old(hid.writeScript),
        old(hid.replyScript), featureReport.reportSize, KSN_AND_COUNTER_SIZE)
    {
      st, ksn := FixedCommand(COMMAND_GET_DUKPT_KSN_AND_COUNTER, KSN_AND_COUNTER_SIZE);
    }

    /** mccr_device_set_session_id: the id goes out most significant byte first. */
    method SetSessionId(id: u64) returns (st: Status)
      requires Valid() && (featureReport != null ==> featureReport.reportSize >= HEADER_SIZE + 8)
      modifies CommandFrame()
      ensures featureReport == null ==> st == NotOpen
      ensures featureReport != null ==> (var size := featureReport.reportSize;
        && st == ExchangeStatus(old(hid.writeScript), old(hid.replyScript), size)
        && hid.written == old(hid.written)
          + [EncodeRequest(Zeros(size), COMMAND_SET_SESSION_ID, SessionIdBytes(id))])
    {
      var response;
      st, response := Command(COMMAND_SET_SESSION_ID, SessionIdBytes(id));
    }

    /** mccr_device_get_reader_state: exactly 2 bytes, the state and its antecedent. */
    method GetReaderState() returns (st: Status, state: byte, antecedent: byte)
      requires Valid() && (featureReport != null ==> featureReport.reportSize >= HEADER_SIZE)
      modifies CommandFrame()
      ensures featureReport == null ==> st == NotOpen
      ensures featureReport != null ==> (var r := FixedOutcome(old(hid.writeScript),
          old(hid.replyScript), featureReport.reportSize, READER_STATE_SIZE);
        st == r.0 && (st == Ok ==> state == r.1[0] && antecedent == r.1[1]))
    {
      var payload;
      st, payload := FixedCommand(COMMAND_GET_READER_STATE, READER_STATE_SIZE);
      state, antecedent := 0, 0;
      if st == Ok {
        state, antecedent := payload[0], payload[1];
      }
    }

    /** mccr_device_get_security_level: SET_SECURITY_LEVEL with no data, exactly 1 byte back. */
    method GetSecurityLevel() returns (st: Status, level: byte)
      requires Valid() && (featureReport != null ==> featureReport.reportSize >= HEADER_SIZE)
      modifies CommandFrame()
      ensures featureReport == null ==> st == NotOpen
      ensures featureReport != null ==> (var r := FixedOutcome(old(hid.writeScript),
          old(hid.replyScript), featureReport.reportSize, SECURITY_LEVEL_SIZE);
        st == r.0 && (st == Ok ==> level == r.1[0]))
    {
      var payload;
      st, payload := FixedCommand(COMMAND_SET_SECURITY_LEVEL, SECURITY_LEVEL_SIZE);
      level := 0;
      if st == Ok {
        level := payload[0];
      }
    }

    /** mccr_device_get_encryption_counter: exactly 19 bytes, a 16-byte serial number and a
        24-bit counter. */
    method GetEncryptionCounter() returns (st: Status, serial: seq<byte>, counter: nat)
      requires Valid() && (featureReport != null ==> featureReport.reportSize >= HEADER_SIZE)
      modifies CommandFrame()
      ensures featureReport == null ==> st == NotOpen
      ensures featureReport != null ==> (var r := FixedOutcome(old(hid.writeScript),
          old(hid.replyScript), featureReport.reportSize, ENCRYPTION_COUNTER_SIZE);
        st == r.0 && (st == Ok ==> (serial, counter) == EncryptionCounter(r.1)))
      ensures st == Ok ==> |serial| == 16 && counter < 0x100_0000
    {
      var payload;
      st, payload := FixedCommand(COMMAND_GET_ENCRYPTION_COUNTER, ENCRYPTION_COUNTER_SIZE);
      serial, counter := [], 0;
      if st == Ok {
        serial, counter := EncryptionCounter(payload).0, EncryptionCounter(payload).1;
      }
    }

    /** mccr_device_get_magtek_update_token: exactly 36 bytes. */
    method GetMagtekUpdateToken() returns (st: Status, token: seq<byte>)
      requires Valid() && (featureReport != null ==> featureReport.reportSize >= HEADER_SIZE)
      modifies CommandFrame()
      ensures featureReport == null ==> st == NotOpen
      ensures featureReport != null ==> (st, token) == FixedOutcome(old(hid.writeScript),
        old(hid.replyScript), featureReport.reportSize, MAGTEK_UPDATE_TOKEN_SIZE)
    {
      st, token := FixedCommand(COMMAND_GET_MAGTEK_UPDATE_TOKEN, MAGTEK_UPDATE_TOKEN_SIZE);
    }

    /** A command with no data whose response must carry exactly `expected` bytes. */
    method FixedCommand(command: byte, expected: nat) returns (st: Status, payload: seq<byte>)
      requires Valid() && (featureReport != null ==> featureReport.reportSize >= HEADER_SIZE)
      modifies CommandFrame()
      ensures featureReport == null ==> st == NotOpen
      ensures featureReport != null ==> (st, payload) == FixedOutcome(old(hid.writeScript),
        old(hid.replyScript), featureReport.reportSize, expected)
    {
      var response;
      st, response := Command(command, []);
      if st != Ok {
        return st, [];
      }
      match FixedPayload(response, expected)
      case None => st, payload := UnexpectedFormat, [];
      case Some(p) => payload := p;
    }

    /** mccr_device_run_generic, with the declared length checked against the buffer: any
        command and data, and the response payload back. */
    method RunGeneric(command: byte, blob: seq<byte>) returns (st: Status, out: seq<byte>)
      requires Valid() && (featureReport != null ==> HEADER_SIZE + |blob| <= featureReport.reportSize)
      modifies CommandFrame()
      ensures featureReport == null ==> st == NotOpen
      ensures featureReport != null ==> (var size := featureReport.reportSize;
        && (st, out) == PayloadOutcome(old(hid.writeScript), old(hid.replyScript), size)
        && hid.written == old(hid.written) + [EncodeRequest(Zeros(size), command, blob)])
    {
      var response;
      st, response := Command(command, blob);
      if st != Ok {
        return st, [];
      }
      match ResponsePayload(response)
      case None => st, out := UnexpectedFormat, [];
      case Some(p) => out := p;
    }

    /** mccr_device_wait_swipe_report: NOT_OPEN when closed; otherwise one input report is
        received and, on OK, handed out with a new reference to the descriptor context. */
    method WaitSwipeReport(timeout: int) returns (st: Status, report: SwipeReport?)
      requires Valid()
      modifies hid, desc
      ensures old(desc) == null ==> st == NotOpen && report == null
      ensures desc != null ==> (var size := desc.input.size;
        var r := Received(old(hid.inputScript), size, timeout);
        && desc == old(desc) && desc.input == old(desc.input) && desc.feature == old(desc.feature)
        && st == Classify(r, size, timeout)
        && hid.inputScript == r.rest
        && hid.readTimeouts == old(hid.readTimeouts) + r.timeouts
        && hid.written == old(hid.written) && hid.replyScript == old(hid.replyScript)
        && (st == Ok ==> (report != null && fresh(report) && fresh(report.input.data)
              && report.desc == desc && report.input.reportSize == size
              && report.input.data[..] == r.data && desc.refcount == old(desc.refcount) + 1))
        && (st != Ok ==> report == null && desc.refcount == old(desc.refcount)))
    {
      if desc == null {
        return NotOpen, null;
      }
      var buffer := new InputBuffer(desc);
      st := buffer.Receive(hid, timeout);
      if st != Ok {
        return st, null;
      }
      report := new SwipeReport(desc, buffer);
      st := Ok;
    }
  }

  // ---------------------------------------------------------------------------
  // The swipe report

  /** mccr_swipe_report_t: a received input report and a reference to the layout that
      describes it. */
  class SwipeReport {
    const desc: Hid.DescriptorContext
    const input: InputBuffer

    constructor (desc: Hid.DescriptorContext, input: InputBuffer)
      modifies desc`refcount
      ensures this.desc == desc && this.input == input
      ensures desc.refcount == old(desc.refcount) + 1
    {
      this.desc := desc;
      this.input := input;
      new;
      desc.Ref();
    }

    /** mccr_swipe_report_free: gives the descriptor reference back. */
    method Free()
      requires desc.refcount >= 1
      modifies desc`refcount
      ensures desc.refcount == old(desc.refcount) - 1
    {
      var _ := desc.Unref();
    }

    /** swipe_report_get_usage: the usage's byte range in the received report, as SwipeUsage
        describes it, and on OK the bytes in that range. */
    method GetUsage(id: byte, expected: nat) returns (span: UsageSpan, bytes: seq<byte>)
      requires input.Valid()
      ensures span == SwipeUsage(desc.input.usages, id, expected, input.reportSize)
      ensures span.status == Ok ==> (span.start + span.size <= input.data.Length
        && bytes == input.data[span.start..span.start + span.size])
    {
      var found, offsetBits, sizeBits := desc.GetInputReportUsage(id);
      bytes := [];
      if !found {
        return UsageSpan(NotFound, 0, 0), bytes;
      }
      if offsetBits % 8 != 0 || sizeBits % 8 != 0 {
        return UsageSpan(Internal, 0, 0), bytes;
      }
      var start, size := offsetBits / 8, sizeBits / 8;
      if expected != 0 && size != expected {
        return UsageSpan(UnexpectedFormat, 0, 0), bytes;
      }
      var data, dataSize := input.GetData();
      if start + size > dataSize {
        return UsageSpan(UnexpectedFormat, 0, 0), bytes;
      }
      span, bytes := UsageSpan(Ok, start, size), data[start..start + size];
    }

    /** A one-byte usage of the report. */
    method ByteUsage(id: byte) returns (st: Status, value: byte)
      requires input.Valid()
      ensures var span := SwipeUsage(desc.input.usages, id, 1, input.reportSize);
        && st == span.status
        && (st == Ok ==> span.size == 1 && span.start < input.data.Length && value == input.data[span.start])
    {
      var span, bytes := GetUsage(id, 1);
      st, value := span.status, 0;
      if st == Ok {
        value := bytes[0];
      }
    }

    /** A usage of any size: the bytes it spans. */
    method DataUsage(id: byte) returns (st: Status, data: seq<byte>)
      requires input.Valid()
      ensures var span := SwipeUsage(desc.input.usages, id, 0, input.reportSize);
        && st == span.status
        && (st == Ok ==>
              span.start + span.size <= input.data.Length && data == input.data[span.start..span.start + span.size])
    {
      var span;
      span, data := GetUsage(id, 0);
      st := span.status;
    }

    /** mccr_swipe_report_get_track_N_decode_status */
    method TrackDecodeStatus(track: nat) returns (st: Status, value: byte)
      requires input.Valid() && 1 <= track <= 3
      ensures var span := SwipeUsage(desc.input.usages, USAGE_TRACK_DECODE_STATUS[track - 1], 1, input.reportSize);
        st == span.status && (st == Ok ==> span.start < input.data.Length && value == input.data[span.start])
    {
      st, value := ByteUsage(USAGE_TRACK_DECODE_STATUS[track - 1]);
    }

    /** mccr_swipe_report_get_track_N_encrypted_data_length */
    method TrackEncryptedDataLength(track: nat) returns (st: Status, value: byte)
      requires input.Valid() && 1 <= track <= 3
      ensures var span := SwipeUsage(desc.input.usages, USAGE_TRACK_ENCRYPTED_DATA_LENGTH[track - 1], 1, input.reportSize);
        st == span.status && (st == Ok ==> span.start < input.data.Length && value == input.data[span.start])
    {
      st, value := ByteUsage(USAGE_TRACK_ENCRYPTED_DATA_LENGTH[track - 1]);
    }

    /** mccr_swipe_report_get_track_N_absolute_data_length */
    method TrackAbsoluteDataLength(track: nat) returns (st: Status, value: byte)
      requires input.Valid() && 1 <= track <= 3
      ensures var span := SwipeUsage(desc.input.usages, USAGE_TRACK_ABSOLUTE_DATA_LENGTH[track - 1], 1, input.reportSize);
        st == span.status && (st == Ok ==> span.start < input.data.Length && value == input.data[span.start])
    {
      st, value := ByteUsage(USAGE_TRACK_ABSOLUTE_DATA_LENGTH[track - 1]);
    }

    /** mccr_swipe_report_get_track_N_masked_data_length */
    method TrackMaskedDataLength(track: nat) returns (st: Status, value: byte)
      requires input.Valid() && 1 <= track <= 3
      ensures var span := SwipeUsage(desc.input.usages, USAGE_TRACK_MASKED_DATA_LENGTH[track - 1], 1, input.reportSize);
        st == span.status && (st == Ok ==> span.start < input.data.Length && value == input.data[span.start])
    {
      st, value := ByteUsage(USAGE_TRACK_MASKED_DATA_LENGTH[track - 1]);
    }

    /** mccr_swipe_report_get_track_N_encrypted_data */
    method TrackEncryptedData(track: nat) returns (st: Status, data: seq<byte>)
      requires input.Valid() && 1 <= track <= 3
      ensures var span := SwipeUsage(desc.input.usages, USAGE_TRACK_ENCRYPTED_DATA[track - 1], 0, input.reportSize);
        st == span.status && (st == Ok ==>
          span.start + span.size <= input.data.Length && data == input.data[span.start..span.start + span.size])
    {
      st, data := DataUsage(USAGE_TRACK_ENCRYPTED_DATA[track - 1]);
    }

    /** mccr_swipe_report_get_track_N_masked_data */
    method TrackMaskedData(track: nat) returns (st: Status, data: seq<byte>)
      requires input.Valid() && 1 <= track <= 3
      ensures var span := SwipeUsage(desc.input.usages, USAGE_TRACK_MASKED_DATA[track - 1], 0, input.reportSize);
        st == span.status && (st == Ok ==>
          span.start + span.size <= input.data.Length && data == input.data[span.start..span.start + span.size])
    {
      st, data := DataUsage(USAGE_TRACK_MASKED_DATA[track - 1]);
    }

    /** mccr_swipe_report_get_card_encode_type */
    method CardEncodeType() returns (st: Status, value: byte)
      requires input.Valid()
      ensures var span := SwipeUsage(desc.input.usages, USAGE_CARD_ENCODE_TYPE, 1, input.reportSize);
        st == span.status && (st == Ok ==> span.start < input.data.Length && value == input.data[span.start])
    {
      st, value := ByteUsage(USAGE_CARD_ENCODE_TYPE);
    }
  }
}
