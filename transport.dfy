/** The hidapi handle (`hid_device`) the library talks to, as an abstract
    transport.  What the device does is given by scripts consumed one call at a
    time, so every outcome the library must handle (short reads, errors,
    timeouts, short writes) is a possible script. */
module Transport {
  import opened Types

  /** What one hid_read_timeout call yields: an input report (delivered up to the requested
      length), or an error. */
  datatype ReadOutcome = Delivered(bytes: seq<byte>) | ReadError

  function Min(a: nat, b: nat): nat
  {
    if a < b then a else b
  }

  /** The count hid_read_timeout returns for the next outcome: -1 on error, 0 once nothing more
      arrives (the timeout expires), otherwise the bytes delivered, at most `length`. */
  function ReadCount(script: seq<ReadOutcome>, length: nat): (n: int)
    ensures -1 <= n <= length
  {
    if script == [] then 0
    else match script[0]
      case ReadError => -1
      case Delivered(bytes) => Min(|bytes|, length)
  }

  /** The bytes the next read places in the caller's buffer. */
  function ReadData(script: seq<ReadOutcome>, length: nat): (data: seq<byte>)
    ensures |data| == if ReadCount(script, length) > 0 then ReadCount(script, length) else 0
  {
    if script == [] then []
    else match script[0]
      case ReadError => []
      case Delivered(bytes) => bytes[..Min(|bytes|, length)]
  }

  function Rest<T>(script: seq<T>): seq<T>
  {
    if script == [] then [] else script[1..]
  }

  /** The count hid_send_feature_report returns: the scripted count, -1 once the script is
      exhausted. */
  function WriteCount(script: seq<int>): int
  {
    if script == [] then -1 else script[0]
  }

  /** The count hid_get_feature_report returns: -1 on error or an exhausted script, otherwise
      the reply's length, at most `length`. */
  function ReplyCount(script: seq<Option<seq<byte>>>, length: nat): (n: int)
    ensures -1 <= n <= length
  {
    if script == [] || script[0].None? then -1 else Min(|script[0].value|, length)
  }

  /** `buffer` after the next reply has been copied to its start. */
  function Replied(script: seq<Option<seq<byte>>>, buffer: seq<byte>): (r: seq<byte>)
    ensures |r| == |buffer|
    ensures ReplyCount(script, |buffer|) == |buffer| ==> r == script[0].value[..|buffer|]
  {
    var n := ReplyCount(script, |buffer|);
    if n <= 0 then buffer else script[0].value[..n] + buffer[n..]
  }

  /** hid_device */
  class HidDevice {
    /** What successive hid_read_timeout calls deliver. */
    var inputScript: seq<ReadOutcome>
    /** The timeout of every hid_read_timeout call so far, in call order. */
    var readTimeouts: seq<int>
    /** What successive hid_send_feature_report calls return. */
    var writeScript: seq<int>
    /** Every feature report sent so far, in order. */
    var written: seq<seq<byte>>
    /** What successive hid_get_feature_report calls deliver; None is an error. */
    var replyScript: seq<Option<seq<byte>>>

    constructor (inputs: seq<ReadOutcome>, writes: seq<int>, replies: seq<Option<seq<byte>>>)
      ensures inputScript == inputs && writeScript == writes && replyScript == replies
      ensures readTimeouts == [] && written == []
    {
      inputScript, writeScript, replyScript := inputs, writes, replies;
      readTimeouts, written := [], [];
    }

    /** hid_read_timeout into buffer[offset .. offset + length]. */
    method ReadTimeout(buffer: array<byte>, offset: nat, length: nat, timeout: int) returns (n: int)
      requires offset + length <= buffer.Length
      modifies this`inputScript, this`readTimeouts, buffer
      ensures n == ReadCount(old(inputScript), length)
      ensures var data := ReadData(old(inputScript), length);
        && buffer[..offset] == old(buffer[..offset])
        && buffer[offset..offset + |data|] == data
        && buffer[offset + |data|..] == old(buffer[offset + |data|..])
      ensures inputScript == Rest(old(inputScript))
      ensures readTimeouts == old(readTimeouts) + [timeout]
    {
      n := ReadCount(inputScript, length);
      var data := ReadData(inputScript, length);
      Put(buffer, offset, data);
      inputScript := Rest(inputScript);
      readTimeouts := readTimeouts + [timeout];
    }

    /** hid_send_feature_report */
    method SendFeatureReport(buffer: array<byte>) returns (n: int)
      modifies this`writeScript, this`written
      ensures n == WriteCount(old(writeScript))
      ensures writeScript == Rest(old(writeScript))
      ensures written == old(written) + [buffer[..]]
    {
      n := WriteCount(writeScript);
      writeScript := Rest(writeScript);
      written := written + [buffer[..]];
    }

    /** hid_get_feature_report */
    method GetFeatureReport(buffer: array<byte>) returns (n: int)
      modifies this`replyScript, buffer
      ensures n == ReplyCount(old(replyScript), buffer.Length)
      ensures buffer[..] == Replied(old(replyScript), old(buffer[..]))
      ensures replyScript == Rest(old(replyScript))
    {
      n := ReplyCount(replyScript, buffer.Length);
      if n > 0 {
        Put(buffer, 0, replyScript[0].value[..n]);
      }
      replyScript := Rest(replyScript);
    }
  }

  /** Copies `data` into `buffer` at `offset`, leaving every other byte as it was. */
  method Put(buffer: array<byte>, offset: nat, data: seq<byte>)
    requires offset + |data| <= buffer.Length
    modifies buffer
    ensures buffer[..] == old(buffer[..offset]) + data + old(buffer[offset + |data|..])
  {
    forall k | offset <= k < offset + |data| {
      buffer[k] := data[k - offset];
    }
    assert buffer[..] == old(buffer[..offset]) + data + old(buffer[offset + |data|..]);
  }
}
