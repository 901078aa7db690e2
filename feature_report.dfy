/** The feature-report codec of src/libmccr/mccr-feature-report.c: a request
    and a response buffer of the feature report's size plus one report-id byte,
    both laid out as [report id, command or result code, data length, data...]. */
module FeatureReport {
  import opened Types
  import opened Transport
  import Hid

  /** sizeof (struct feature_report_request_s): report id, command, data length. */
  const HEADER_SIZE: nat := 3

  /** Result codes of a response. */
  const RESULT_SUCCESS: byte := 0x00
  const RESULT_FAILURE: byte := 0x01
  const RESULT_BAD_PARAMETER: byte := 0x02
  const RESULT_DELAYED: byte := 0x05
  const RESULT_INVALID_OPERATION: byte := 0x07

  /** Command codes (mccr-feature-report.h). */
  const COMMAND_GET_PROPERTY: byte := 0x00
  const COMMAND_RESET_DEVICE: byte := 0x02
  const COMMAND_GET_DUKPT_KSN_AND_COUNTER: byte := 0x09
  const COMMAND_SET_SESSION_ID: byte := 0x0A
  const COMMAND_GET_READER_STATE: byte := 0x14
  const COMMAND_SET_SECURITY_LEVEL: byte := 0x15
  const COMMAND_GET_MAGTEK_UPDATE_TOKEN: byte := 0x19
  const COMMAND_GET_ENCRYPTION_COUNTER: byte := 0x1C

  /** feature_report_result_to_mccr_status: total, and only success maps to OK. */
  function ResultToStatus(code: byte): (st: Status)
    ensures st == Ok <==> code == RESULT_SUCCESS
    ensures st == Internal <==> code == RESULT_BAD_PARAMETER
    ensures st == Delayed <==> code == RESULT_DELAYED
    ensures st == InvalidOperation <==> code == RESULT_INVALID_OPERATION
    ensures st == Failed <==> code !in {RESULT_SUCCESS, RESULT_BAD_PARAMETER, RESULT_DELAYED, RESULT_INVALID_OPERATION}
  {
    match code
    case 0x00 => Ok
    case 0x02 => Internal
    case 0x05 => Delayed
    case 0x07 => InvalidOperation
    case _ => Failed
  }

  function Zeros(n: nat): (z: seq<byte>)
    ensures |z| == n && forall k :: 0 <= k < n ==> z[k] == 0
  {
    seq(n, _ => 0)
  }

  /** The request buffer after set_request: the command at byte 1 and, only for a non-empty
      payload, its length (truncated to a byte) at byte 2 and the payload from byte 3. */
  function EncodeRequest(buffer: seq<byte>, command: byte, data: seq<byte>): (r: seq<byte>)
    requires |buffer| >= 2 && (|data| == 0 || HEADER_SIZE + |data| <= |buffer|)
    ensures |r| == |buffer| && r[0] == buffer[0] && r[1] == command
    ensures |data| == 0 ==> r[2..] == buffer[2..]
    ensures |data| > 0 ==> (r[2] as int == |data| % 256 && r[3..3 + |data|] == data
      && r[3 + |data|..] == buffer[3 + |data|..])
  {
    if |data| == 0 then buffer[1 := command]
    else buffer[..1] + [command, (|data| % 256) as byte] + data + buffer[3 + |data|..]
  }

  /** How the device reads a request: the command, and the payload of the declared length. */
  function RequestPayload(request: seq<byte>): seq<byte>
    requires |request| >= HEADER_SIZE && HEADER_SIZE + request[2] as nat <= |request|
  {
    request[3..3 + request[2] as nat]
  }

  /** A request encoded into a zeroed buffer carries its command and its whole payload. */
  lemma {:induction false} RequestRoundTrip(size: nat, command: byte, data: seq<byte>)
    requires size >= HEADER_SIZE && HEADER_SIZE + |data| <= size && |data| < 256
    ensures var r := EncodeRequest(Zeros(size), command, data);
      r[0] == 0 && r[1] == command && HEADER_SIZE + r[2] as nat <= size && RequestPayload(r) == data
  {
    var r := EncodeRequest(Zeros(size), command, data);
    if |data| == 0 {
      assert r[2] == Zeros(size)[2];
    }
  }

  /** mccr_feature_report_get_response as written: the data starts at byte 3 and its length is
      whatever byte 2 declares, with no check against the buffer. */
  function ResponseView(response: seq<byte>): (view: (seq<byte>, nat))
    requires |response| >= HEADER_SIZE
    ensures response[..HEADER_SIZE] + view.0 == response && view.1 < 256
    ensures view.1 == response[2] as nat
  {
    assert response[..3] + response[3..] == response;
    (response[3..], response[2] as nat)
  }

  /** The declared length can exceed what the buffer holds after the header, so a caller that
      copies `length` bytes from the view reads past the end of the response buffer. */
  lemma {:induction false} ResponseViewOverRead()
    ensures var view := ResponseView([0, 0, 5, 1]);
      view.1 > |view.0| && view.1 == 5 && |view.0| == 1
  {
  }

  /** The response payload, provided the declared length fits in the buffer. */
  function ResponsePayload(response: seq<byte>): (r: Option<seq<byte>>)
    requires |response| >= HEADER_SIZE
    ensures r.Some? <==> HEADER_SIZE + response[2] as nat <= |response|
    ensures r.Some? ==> (|r.value| == response[2] as nat
      && HEADER_SIZE + |r.value| <= |response|
      && response[..HEADER_SIZE] + r.value <= response)
  {
    if HEADER_SIZE + response[2] as nat <= |response| then
      assert response[..3] + response[3..3 + response[2] as nat] == response[..3 + response[2] as nat];
      Some(response[3..3 + response[2] as nat])
    else None
  }

  /** A response laid out by the device, [report id, result, length] + payload + padding,
      yields exactly its payload. */
  lemma {:induction false} ResponseRoundTrip(id: byte, result: byte, payload: seq<byte>, padding: seq<byte>)
    requires |payload| < 256
    ensures var response := [id, result, |payload| as byte] + payload + padding;
      ResponsePayload(response) == Some(payload)
  {
    var response := [id, result, |payload| as byte] + payload + padding;
    assert response[3..3 + |payload|] == payload;
  }

  /** The status of one send_receive: a short write, then a short read, then the result code
      of the response decide it. */
  function ExchangeStatus(writes: seq<int>, replies: seq<Option<seq<byte>>>, size: nat): (st: Status)
    requires size >= 2
    ensures WriteCount(writes) != size ==> st == WriteFailed
    ensures WriteCount(writes) == size && ReplyCount(replies, size) != size ==> st == ReadFailed
    ensures WriteCount(writes) == size && ReplyCount(replies, size) == size
      ==> st == ResultToStatus(replies[0].value[1])
  {
    if WriteCount(writes) != size then WriteFailed
    else if ReplyCount(replies, size) != size then ReadFailed
    else ResultToStatus(replies[0].value[1])
  }

  /** mccr_feature_report_t */
  class FeatureBuffers {
    const reportSize: nat
    const request: array<byte>
    const response: array<byte>

    predicate Valid()
      reads this
    {
      request.Length == reportSize && response.Length == reportSize && request != response
    }

    /** mccr_feature_report_new: one report-id byte plus the feature report size, both
        buffers zeroed. */
    constructor (desc: Hid.DescriptorContext)
      ensures Valid() && fresh(request) && fresh(response)
      ensures reportSize == 1 + desc.feature.size
      ensures request[..] == Zeros(reportSize) && response[..] == Zeros(reportSize)
    {
      var size := 1 + desc.FeatureReportSize();
      reportSize := size;
      request := new byte[size](_ => 0);
      response := new byte[size](_ => 0);
    }

    /** mccr_feature_report_reset */
    method Reset()
      requires Valid()
      modifies request, response
      ensures request[..] == Zeros(reportSize) && response[..] == Zeros(reportSize)
    {
      forall k | 0 <= k < request.Length {
        request[k] := 0;
      }
      forall k | 0 <= k < response.Length {
        response[k] := 0;
      }
    }

    /** mccr_feature_report_set_request: the payload must fit after the header. */
    method SetRequest(command: byte, data: seq<byte>)
      requires Valid() && reportSize >= 2 && (|data| == 0 || HEADER_SIZE + |data| <= reportSize)
      modifies request
      ensures request[..] == EncodeRequest(old(request[..]), command, data)
    {
      request[1] := command;
      if |data| > 0 {
        request[2] := (|data| % 256) as byte;
        Put(request, 3, data);
      }
    }

    /** mccr_feature_report_get_response */
    method GetResponse() returns (data: seq<byte>, dataSize: nat)
      requires Valid() && reportSize >= HEADER_SIZE
      ensures (data, dataSize) == ResponseView(response[..])
    {
      data := response[3..];
      dataSize := response[2] as nat;
    }

    /** mccr_feature_report_send_receive: the whole request is written, then the whole response
        read, and the response's result code gives the status. */
    method SendReceive(hid: HidDevice) returns (st: Status)
      requires Valid() && reportSize >= 2
      modifies hid`writeScript, hid`written, hid`replyScript, response
      ensures st == ExchangeStatus(old(hid.writeScript), old(hid.replyScript), reportSize)
      ensures hid.written == old(hid.written) + [request[..]]
      ensures hid.writeScript == Rest(old(hid.writeScript))
      ensures WriteCount(old(hid.writeScript)) != reportSize
        ==> hid.replyScript == old(hid.replyScript) && response[..] == old(response[..])
      ensures WriteCount(old(hid.writeScript)) == reportSize
        ==> (hid.replyScript == Rest(old(hid.replyScript))
          && response[..] == Replied(old(hid.replyScript), old(response[..])))
    {
      var sent := hid.SendFeatureReport(request);
      if sent != reportSize {
        return WriteFailed;
      }
      var received := hid.GetFeatureReport(response);
      if received != reportSize {
        return ReadFailed;
      }
      st := ResultToStatus(response[1]);
    }
  }
}
