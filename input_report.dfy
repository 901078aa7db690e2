/** The input-report receiver of src/libmccr/mccr-input-report.c: a buffer of
    the input report's size (no report-id byte) filled by successive reads until
    it is full, a read returns nothing, or a read fails. */
module InputReport {
  import opened Types
  import opened Transport
  import Hid

  /** DEFAULT_IN_PROGRESS_TIMEOUT_MS: the timeout of every read once some bytes have arrived. */
  const IN_PROGRESS_TIMEOUT_MS: int := 500

  /** The outcome of the receive loop: whether a read failed, the bytes gathered, what is left
      of the read script, and the timeout of each read made. */
  datatype Reception = Reception(failed: bool, data: seq<byte>, rest: seq<ReadOutcome>, timeouts: seq<int>)

  /** The do-while loop of mccr_input_report_receive, from `got` bytes already received and
      the timeouts `waited` of the reads already made: each read asks for the bytes still
      missing, waiting `timeout` while nothing has arrived and IN_PROGRESS_TIMEOUT_MS
      afterwards. */
  function Collect(script: seq<ReadOutcome>, size: nat, timeout: int, got: seq<byte>, waited: seq<int>): (r: Reception)
    requires |got| <= size
    ensures got <= r.data && |r.data| <= size
    ensures waited <= r.timeouts && |r.timeouts| > |waited|
    decreases size - |got|
  {
    var wait := if |got| == 0 then timeout else IN_PROGRESS_TIMEOUT_MS;
    var n := ReadCount(script, size - |got|);
    var next := got + ReadData(script, size - |got|);
    if n < 0 then Reception(true, got, Rest(script), waited + [wait])
    else if n == 0 then Reception(false, got, Rest(script), waited + [wait])
    else if |next| == size then Reception(false, next, Rest(script), waited + [wait])
    else Collect(Rest(script), size, timeout, next, waited + [wait])
  }

  /** The first read from `got` waits `timeout` if nothing has arrived yet and
      IN_PROGRESS_TIMEOUT_MS otherwise; every later read waits IN_PROGRESS_TIMEOUT_MS. */
  lemma {:induction false} CollectTimeouts(script: seq<ReadOutcome>, size: nat, timeout: int, got: seq<byte>, waited: seq<int>)
    requires |got| <= size
    ensures var r := Collect(script, size, timeout, got, waited);
      && r.timeouts[|waited|] == (if |got| == 0 then timeout else IN_PROGRESS_TIMEOUT_MS)
      && forall k :: |waited| < k < |r.timeouts| ==> r.timeouts[k] == IN_PROGRESS_TIMEOUT_MS
    decreases size - |got|
  {
    var wait := if |got| == 0 then timeout else IN_PROGRESS_TIMEOUT_MS;
    var n := ReadCount(script, size - |got|);
    var next := got + ReadData(script, size - |got|);
    if n > 0 && |next| != size {
      CollectTimeouts(Rest(script), size, timeout, next, waited + [wait]);
    }
  }

  /** One iteration of the receive loop, unfolded. */
  lemma {:induction false} CollectStep(script: seq<ReadOutcome>, size: nat, timeout: int, got: seq<byte>, waited: seq<int>)
    requires |got| < size || |got| == 0
    ensures var wait := if |got| == 0 then timeout else IN_PROGRESS_TIMEOUT_MS;
      var n := ReadCount(script, size - |got|);
      var next := got + ReadData(script, size - |got|);
      Collect(script, size, timeout, got, waited)
        == if n < 0 then Reception(true, got, Rest(script), waited + [wait])
          else if n == 0 || |next| == size then Reception(false, next, Rest(script), waited + [wait])
          else Collect(Rest(script), size, timeout, next, waited + [wait])
  {
  }

  /** The receive loop on a fresh buffer: at least one read, the first with the caller's
      timeout and every later one with IN_PROGRESS_TIMEOUT_MS, never more than `size` bytes. */
  function Received(script: seq<ReadOutcome>, size: nat, timeout: int): (r: Reception)
    ensures |r.data| <= size && |r.timeouts| >= 1
    ensures r.timeouts[0] == timeout
    ensures forall k :: 0 < k < |r.timeouts| ==> r.timeouts[k] == IN_PROGRESS_TIMEOUT_MS
  {
    CollectTimeouts(script, size, timeout, [], []);
    Collect(script, size, timeout, [], [])
  }

  /** The final classification of mccr_input_report_receive. */
  function Classify(r: Reception, size: nat, timeout: int): Status
  {
    if r.failed then ReportFailed
    else if timeout >= 0 && |r.data| == 0 then TimedOut
    else if |r.data| != size then UnexpectedFormat
    else Ok
  }

  /** OK exactly when the whole report arrived with no read error, except that an empty
      report with a non-negative timeout counts as timed out. */
  lemma {:induction false} ClassifyOk(script: seq<ReadOutcome>, size: nat, timeout: int)
    ensures var r := Received(script, size, timeout);
      (Classify(r, size, timeout) == Ok)
        <==> (!r.failed && |r.data| == size && !(timeout >= 0 && size == 0))
  {
  }

  /** Nothing arriving before the first timeout gives TIMED_OUT for a non-negative timeout,
      and UNEXPECTED_FORMAT for a negative one (unless the report is empty). */
  lemma {:induction false} NothingArrives(size: nat, timeout: int)
    ensures var r := Received([], size, timeout);
      && r.data == [] && r.timeouts == [timeout]
      && Classify(r, size, timeout) == (if timeout >= 0 then TimedOut else if size == 0 then Ok else UnexpectedFormat)
  {
  }

  function Flatten(chunks: seq<seq<byte>>): seq<byte>
  {
    if chunks == [] then [] else chunks[0] + Flatten(chunks[1..])
  }

  /** One read per chunk, each delivering its chunk. */
  function Reads(chunks: seq<seq<byte>>): (script: seq<ReadOutcome>)
    ensures |script| == |chunks|
    ensures forall k :: 0 <= k < |chunks| ==> script[k] == Delivered(chunks[k])
  {
    seq(|chunks|, k requires 0 <= k < |chunks| => Delivered(chunks[k]))
  }

  /** Chunks delivered one per read, none empty and together exactly the rest of the report,
      are received whole and in order, one read each. */
  lemma {:induction false} ChunksAssemble(chunks: seq<seq<byte>>, size: nat, timeout: int, got: seq<byte>, waited: seq<int>)
    requires forall k :: 0 <= k < |chunks| ==> |chunks[k]| > 0
    requires |chunks| > 0 && |got| + |Flatten(chunks)| == size
    ensures var r := Collect(Reads(chunks), size, timeout, got, waited);
      && !r.failed && r.data == got + Flatten(chunks)
      && |r.timeouts| == |waited| + |chunks| && r.rest == []
    decreases |chunks|
  {
    var script := Reads(chunks);
    assert Flatten(chunks) == chunks[0] + Flatten(chunks[1..]);
    assert Rest(script) == Reads(chunks[1..]);
    assert ReadCount(script, size - |got|) == |chunks[0]|;
    assert ReadData(script, size - |got|) == chunks[0];
    var wait := if |got| == 0 then timeout else IN_PROGRESS_TIMEOUT_MS;
    if |chunks| == 1 {
      assert Flatten(chunks[1..]) == [];
      assert Rest(script) == [];
    } else {
      assert |Flatten(chunks[1..])| > 0 by {
        assert Flatten(chunks[1..]) == chunks[1] + Flatten(chunks[2..]);
      }
      ChunksAssemble(chunks[1..], size, timeout, got + chunks[0], waited + [wait]);
      assert got + chunks[0] + Flatten(chunks[1..]) == got + Flatten(chunks);
    }
  }

  /** The whole report delivered in non-empty chunks gives OK with exactly those bytes, one
      read per chunk. */
  lemma {:induction false} ChunkedReportReceived(chunks: seq<seq<byte>>, size: nat, timeout: int)
    requires forall k :: 0 <= k < |chunks| ==> |chunks[k]| > 0
    requires |chunks| > 0 && |Flatten(chunks)| == size
    ensures var r := Received(Reads(chunks), size, timeout);
      && Classify(r, size, timeout) == Ok && r.data == Flatten(chunks) && |r.timeouts| == |chunks|
  {
    ChunksAssemble(chunks, size, timeout, [], []);
  }

  /** mccr_input_report_t */
  class InputBuffer {
    const reportSize: nat
    const data: array<byte>

    predicate Valid()
      reads this
    {
      data.Length == reportSize
    }

    /** mccr_input_report_new: a zeroed buffer of the input report's size, no report id. */
    constructor (desc: Hid.DescriptorContext)
      ensures Valid() && fresh(data) && reportSize == desc.input.size
      ensures forall k :: 0 <= k < reportSize ==> data[k] == 0
    {
      var size := desc.InputReportSize();
      reportSize := size;
      data := new byte[size](_ => 0);
    }

    /** mccr_input_report_receive: NOT_OPEN without a transport; otherwise the reads of the
        loop, the bytes received at the start of the buffer, and the classified outcome. */
    method Receive(hid: HidDevice?, timeout: int) returns (st: Status)
      requires Valid()
      modifies data, hid
      ensures hid == null ==> st == NotOpen && data[..] == old(data[..])
      ensures hid != null ==> (var r := Received(old(hid.inputScript), reportSize, timeout);
        && st == Classify(r, reportSize, timeout)
        && data[..] == r.data + old(data[|r.data|..])
        && hid.inputScript == r.rest
        && hid.readTimeouts == old(hid.readTimeouts) + r.timeouts
        && hid.writeScript == old(hid.writeScript) && hid.written == old(hid.written)
        && hid.replyScript == old(hid.replyScript))
    {
      if hid == null {
        return NotOpen;
      }
      st := ReceiveFrom(hid, timeout);
    }

    /** The classification of what the read loop gathered, on an open transport. */
    method ReceiveFrom(hid: HidDevice, timeout: int) returns (st: Status)
      requires Valid()
      modifies data, hid`inputScript, hid`readTimeouts
      ensures var r := Received(old(hid.inputScript), reportSize, timeout);
        && st == Classify(r, reportSize, timeout)
        && data[..] == r.data + old(data[|r.data|..])
        && hid.inputScript == r.rest
        && hid.readTimeouts == old(hid.readTimeouts) + r.timeouts
    {
      var failed, total := ReadLoop(hid, timeout);
      assert data[..] == data[..total] + data[total..];
      if failed {
        return ReportFailed;
      }
      if timeout >= 0 && total == 0 {
        return TimedOut;
      }
      if total != reportSize {
        return UnexpectedFormat;
      }
      return Ok;
    }

    /** The do-while read loop of mccr_input_report_receive: whether a read failed, and how
        many bytes arrived at the start of the buffer. */
    method ReadLoop(hid: HidDevice, timeout: int) returns (failed: bool, total: nat)
      requires Valid()
      modifies data, hid`inputScript, hid`readTimeouts
      ensures var r := Received(old(hid.inputScript), reportSize, timeout);
        && failed == r.failed && total == |r.data|
        && data[..total] == r.data && data[total..] == old(data[total..])
        && hid.inputScript == r.rest
        && hid.readTimeouts == old(hid.readTimeouts) + r.timeouts
    {
      ghost var spec := Collect(hid.inputScript, reportSize, timeout, [], []);
      total := 0;
      ghost var received: seq<byte> := [];
      ghost var timeouts: seq<int> := [];
      while true
        invariant total == |received| <= reportSize && (total == 0 || total < reportSize)
        invariant data[..total] == received && data[total..] == old(data[total..])
        invariant Collect(hid.inputScript, reportSize, timeout, received, timeouts) == spec
        invariant hid.readTimeouts == old(hid.readTimeouts) + timeouts
        decreases reportSize - total
      {
        ghost var script := hid.inputScript;
        var wait := if total == 0 then timeout else IN_PROGRESS_TIMEOUT_MS;
        CollectStep(script, reportSize, timeout, received, timeouts);
        var n := ReadChunk(hid, total, wait, received, old(data[..]));
        timeouts := timeouts + [wait];
        if n < 0 {
          return true, total;
        }
        if n == 0 {
          return false, total;
        }
        received := received + ReadData(script, reportSize - total);
        total := total + n;
        if total == reportSize {
          return false, total;
        }
      }
    }

    /** One read of the loop into the bytes still missing, after the `total` already received;
        the bytes past those received stay as in `original`. */
    method ReadChunk(hid: HidDevice, total: nat, wait: int, ghost received: seq<byte>, ghost original: seq<byte>)
      returns (n: int)
      requires Valid() && total == |received| <= reportSize && |original| == reportSize
      requires data[..total] == received && data[total..] == original[total..]
      modifies data, hid`inputScript, hid`readTimeouts
      ensures n == ReadCount(old(hid.inputScript), reportSize - total)
      ensures var got := received + ReadData(old(hid.inputScript), reportSize - total);
        && data[..|got|] == got && data[|got|..] == original[|got|..]
      ensures hid.inputScript == Rest(old(hid.inputScript))
      ensures hid.readTimeouts == old(hid.readTimeouts) + [wait]
    {
      n := hid.ReadTimeout(data, total, reportSize - total, wait);
      ghost var got := received + ReadData(old(hid.inputScript), reportSize - total);
      assert data[..|got|] == data[..total] + data[total..|got|];
      assert data[|got|..] == old(data[total..])[|got| - total..];
    }

    /** mccr_input_report_get_data: the whole buffer and its size. */
    method GetData() returns (bytes: seq<byte>, size: nat)
      requires Valid()
      ensures bytes == data[..] && size == reportSize == |bytes|
    {
      bytes, size := data[..], reportSize;
    }
  }
}
