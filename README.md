# libmccr, modelled in Dafny

libmccr drives MagTek magnetic-stripe card readers over USB HID. This project models the
core of the library and proves properties of that model:

- the interpreter that turns the reader's HID report descriptor into two report layouts
  (`src/libmccr/mccr-hid.c`);
- the feature-report codec that frames commands and responses
  (`src/libmccr/mccr-feature-report.c`);
- the input-report receiver that collects one swipe report from successive reads
  (`src/libmccr/mccr-input-report.c`);
- the device session, its commands and the swipe-report accessors (`src/libmccr/mccr.c`);
- the hexadecimal and ASCII string helpers (`src/common/common.c`).

Modules, one per part of the library:

- `Types` (types.dfy): `byte`, `u32` and `u64` as bounded integers; `Status`, the
  library's `mccr_status_t`; and `Option`.
- `Transport` (transport.dfy): the hidapi handle `hid_device`. hidapi itself is not part of
  this model. Its handle is a class whose reads, feature-report writes and feature-report
  reads consume scripted outcomes, so every outcome hidapi can return becomes an input.
  The handle also records every timeout waited on and every feature report sent.
- `HidSpec` (hid_spec.dfy): what the descriptor interpreter means, written as functions.
  - How one item changes the parse state: `ShortItem` and the handlers below it.
  - The scan over a whole descriptor: `Scan`.
  - Offset assignment and byte sizing of a finished report: `FinalizeReport`.
  - The whole parse: `Parse`.
  - Usage lookup: `FindUsage`.
  Lemmas about these functions state what the parser guarantees.
- `Hid` (hid.dfy): the parser as the source runs it. The parse context is a class whose
  fields the item handlers update in place. The scan and finalisation are loops, each
  proved against `HidSpec`. The class also holds the reference-counted descriptor context
  and its usage getters.
- `FeatureReport` (feature_report.dfy): the two buffers of `mccr_feature_report_t`, laid
  out as `[report id, command or result, data length, data...]`. It covers request
  encoding, response decoding and the write-then-read exchange, with its status mapping.
- `InputReport` (input_report.dfy): the receive loop. It is specified by a function,
  `Collect`, on the read script. The lemmas state which timeouts are used, how results are
  classified, and that chunked delivery reassembles the report.
- `Responses` (responses.dfy): what command responses mean.
  - Fixed-length payloads.
  - The 24-bit encryption counter.
  - The big-endian session id.
  - The track-enable bit fields.
  - The byte range of a swipe-report usage.
- `Mccr` (device.dfy): the device. Open and close keep the descriptor context, the
  transport and the codec all present or all absent. Every command is stated in terms of
  the transport's scripts. The swipe report gets one accessor per track field.
- `Hex` (hex.dfy): `strhex`, `strhex_multiline`, `strbin` and `strascii`. Each is a loop
  over a character or byte array, proved against a function that defines the text. A
  round-trip lemma links `strbin` back to `strhex`.

I/O is modelled as follows:

- Reading the report descriptor from the device and opening the hidapi handle are
  parameters of `Mccr.Device.Open`: the descriptor read's outcome and the handle, or null.
- What the reader sends back is the transport's scripts.
- Logging is left out.

Where the description of the library and its code disagree, the model follows the code.

- A long item (prefix 0xFE) is skipped by `desc[i + 1] + 1` bytes from its prefix
  (`src/libmccr/mccr-hid.c:620-628`, `:665-666`). The length byte, the tag byte and the data
  are not all counted, as section 6.2.2.3 of the HID 1.11 class definition would require.
- An item of a reserved type is only logged.
- Report ID items are ignored.
- A Report Size other than 8 is stored and only logged.
- `mccr_device_close` (`src/libmccr/mccr.c:367-379`) tears down an open session on every call
  and drops exactly one reference; it does not keep the session open for other openers.
  After open, open, close the device is closed for both openers, and the second open's
  reference is never returned. `Mccr.Device.Close` follows the code.

`Hid.DescriptorContext.InputReportSize` and `FeatureReportSize` model
`mccr_report_descriptor_get_input_report_size` and `get_feature_report_size`
(`src/libmccr/mccr-hid.c:280-284`, `:305-309`). They are plain reads of the layouts'
sizes; the buffer constructors `FeatureReport.FeatureBuffers.constructor` and
`InputReport.InputBuffer.constructor` take their sizes from them, as
`mccr-feature-report.c:91` and `mccr-input-report.c:53` do.

## Model

| member | source | states |
|---|---|---|
| HidSpec.PrefixFields | src/libmccr/mccr-hid.c:632-636 | the tag, type and size code of an item prefix recompose the prefix; the type is below 4 and the data size is one of 0, 1, 2, 4 |
| HidSpec.LittleEndianRoundTrip | src/libmccr/mccr-hid.c:646-647 | reading an item's data bytes little-endian recovers the number they encode |
| HidSpec.ToLittleEndianOfDecoded | src/libmccr/mccr-hid.c:646-647 | re-encoding the value read gives back the data bytes, so the reading is injective |
| HidSpec.CommitPending | src/libmccr/mccr-hid.c:339-380 | corrected: Input appends the pending usages, in order, to the input layout; Feature appends them to the feature layout; Output and other main tags only drop them; pending is always emptied and nothing else changes |
| HidSpec.CommitAbortsAsWritten | src/libmccr/mccr-hid.c:177-199 | as written: committing no usages to an Input or Feature layout that has none yet reaches the null-array assertion; everywhere that happens, the corrected CommitPending leaves the state unchanged |
| HidSpec.InputAfterCollectionAborts | src/libmccr/mccr-hid.c:372-375 | an Input item right after a successful Collection, before any input usage, is an aborting commit as written, while the corrected scan steps over it with the state unchanged |
| HidSpec.Collection | src/libmccr/mccr-hid.c:382-432 | a collection is fatal unless exactly one usage is pending, it is the application usage 0x01 and the collection type is Application; on success the type is stored and pending emptied; on failure only the fatal flag changes |
| HidSpec.CollectionEnd | src/libmccr/mccr-hid.c:434-449 | End Collection is fatal exactly when usages are pending; it always resets the collection and keeps the layouts |
| HidSpec.SumSizesUniform | src/libmccr/mccr-hid.c:514-521 | giving every pending usage the same size makes their total size count times that size |
| HidSpec.ReportCount | src/libmccr/mccr-hid.c:479-522 | the product count × report size is taken modulo 2^32; with no pending usage nothing changes; one usage gets the whole product and a zero product is fatal; several usages split it evenly, and fatal exactly when it does not divide; on success the pending sizes sum to the product |
| HidSpec.ScanShortItem | src/libmccr/mccr-hid.c:631-666 | a short item runs its handler only when all its data bytes are in the descriptor, and the scan then continues after its data |
| HidSpec.ScanStopsAtFatal | src/libmccr/mccr-hid.c:614 | once a fatal error is set, the scan changes nothing more |
| HidSpec.ShortItemExtends | src/libmccr/mccr-hid.c:339-603 | no item handler removes or rewrites a committed usage: both layouts only grow at their end, and a fatal error is never cleared |
| HidSpec.ScanExtends | src/libmccr/mccr-hid.c:605-670 | the whole scan only appends to the input and feature layouts |
| HidSpec.TruncatedItemIgnored | src/libmccr/mccr-hid.c:638-644 | a short item whose data would run past the end changes nothing |
| HidSpec.LongItemSkipped | src/libmccr/mccr-hid.c:620-629 | a long item changes no state: the scan ends at a long-item prefix in the last byte, and otherwise resumes desc[i + 1] + 1 bytes further on |
| HidSpec.FinalizeReport | src/libmccr/mccr-hid.c:672-714 | a report is finished exactly when it has usages and its 32-bit bit total is a whole number of bytes; its size in bytes is then that total / 8 and its usages carry the running offsets |
| HidSpec.TotalBitsIsWrappedSum | src/libmccr/mccr-hid.c:692-704 | the 32-bit running total is the true sum of the usage sizes modulo 2^32 |
| HidSpec.OffsetsTile | src/libmccr/mccr-hid.c:692-704 | when the total does not wrap, the offsets are prefix sums: the first usage starts at bit 0, each usage starts where the previous one ends, ids and sizes are kept, and every usage ends within the total |
| HidSpec.LayoutTiles | src/libmccr/mccr-hid.c:672-714 | a finished layout tiles its report: consecutive fields, the first at bit 0 and the last ending exactly at 8 × size, so every field lies inside the report |
| HidSpec.ParsedLayouts | src/libmccr/mccr-hid.c:716-744 | a successful parse has a non-fatal scan and non-empty input and feature layouts of whole bytes, holding in order exactly the usages the scan committed |
| HidSpec.ForeignUsagePageFails | src/libmccr/mccr-hid.c:533-546 | a descriptor that starts with a Usage Page other than 0xFF00 never parses, whatever follows |
| HidSpec.NoFeatureUsagesFails | src/libmccr/mccr-hid.c:686-690 | a descriptor that commits no feature usage never parses |
| HidSpec.FindFrom | src/libmccr/mccr-hid.c:211-226 | the index found is the first one at or after k with the requested id; none is found exactly when no usage from k on has that id |
| Hid.DescriptorContext.constructor | src/libmccr/mccr-hid.c:725-726 | a new descriptor context holds one reference and empty layouts |
| Hid.DescriptorContext.Ref | src/libmccr/mccr-hid.c:253-259 | takes one more reference |
| Hid.DescriptorContext.Unref | src/libmccr/mccr-hid.c:241-251 | drops one reference and reports the release exactly when the last one goes |
| Hid.DescriptorContext.GetInputReportUsage | src/libmccr/mccr-hid.c:261-278 | found exactly when some input usage has the id; then the offset and size of the first such usage |
| Hid.DescriptorContext.GetFeatureReportUsage | src/libmccr/mccr-hid.c:286-303 | the same lookup in the feature layout |
| Hid.LookupUsageArray | src/libmccr/mccr-hid.c:211-226 | the linear search finds exactly the first usage with the id (FindUsage) |
| Hid.ParseContext.constructor | src/libmccr/mccr-hid.c:721-726 | the zeroed parse context, with a fresh descriptor context holding one reference |
| Hid.ParseContext.ProcessInputOutputFeature | src/libmccr/mccr-hid.c:339-380 | corrected: the parse state afterwards is CommitPending of the state before, and the layouts' sizes and the reference count are kept |
| Hid.ParseContext.ProcessCollection | src/libmccr/mccr-hid.c:382-432 | the new state is Collection of the old one |
| Hid.ParseContext.ProcessCollectionEnd | src/libmccr/mccr-hid.c:434-449 | the new state is CollectionEnd of the old one |
| Hid.ParseContext.ParseItemMain | src/libmccr/mccr-hid.c:451-477 | the new state is MainItem of the old one: Input, Output and Feature commit, Collection and End Collection check, and any other main tag drops the pending usages |
| Hid.ParseContext.ProcessReportCount | src/libmccr/mccr-hid.c:479-522 | the new state is ReportCount of the old one |
| Hid.ParseContext.ResizePending | src/libmccr/mccr-hid.c:514-521 | the loop gives every pending usage the single size, keeping ids, offsets and order |
| Hid.ParseContext.ProcessReportSize | src/libmccr/mccr-hid.c:524-531 | any report size is stored; nothing else changes |
| Hid.ParseContext.ProcessUsagePage | src/libmccr/mccr-hid.c:533-546 | the usage page is stored, and any page other than 0xFF00 is fatal |
| Hid.ParseContext.ParseItemGlobal | src/libmccr/mccr-hid.c:548-571 | the new state is GlobalItem of the old one; every global tag but Usage Page, Report Size and Report Count is ignored |
| Hid.ParseContext.ProcessUsage | src/libmccr/mccr-hid.c:573-588 | appends a pending usage with the value as its id and zero size and offset |
| Hid.ParseContext.ParseItemLocal | src/libmccr/mccr-hid.c:590-603 | the new state is LocalItem of the old one; only Usage is handled |
| Hid.ParseContext.ParseReportDescriptor | src/libmccr/mccr-hid.c:605-670 | the item loop leaves exactly the state Scan defines, and the layouts' sizes and the reference count are kept |
| Hid.ParseContext.ParseShortItem | src/libmccr/mccr-hid.c:649-663 | dispatches a short item by type; the new state is ShortItem of the old one |
| Hid.ParseContext.ProcessReport | src/libmccr/mccr-hid.c:672-714 | finishes the chosen layout as FinishReport does, leaving the other layout and every parse field but the fatal flag unchanged |
| Hid.ParseContext.AssignOffsets | src/libmccr/mccr-hid.c:692-704 | the loop sets each usage's offset to the 32-bit running total before it and returns the total |
| Hid.ParseContext.Clear | src/libmccr/mccr-hid.c:332-337 | drops the parse context's reference to the descriptor context and its pending usages |
| Hid.ParseReportDescriptorContext | src/libmccr/mccr-hid.c:716-744 | corrected: OK exactly when Parse succeeds, and then a fresh context holding the single reference and exactly the parsed layouts; otherwise FAILED and no context |
| FeatureReport.ResultToStatus | src/libmccr/mccr-feature-report.c:63-79 | only result 0x00 is OK; 0x02 is INTERNAL, 0x05 DELAYED and 0x07 INVALID_OPERATION, each in both directions; every other code is FAILED |
| FeatureReport.EncodeRequest | src/libmccr/mccr-feature-report.c:121-133 | the command goes to byte 1; for a non-empty payload the length, truncated to a byte, goes to byte 2 and the payload follows it; every other byte is kept |
| FeatureReport.RequestRoundTrip | src/libmccr/mccr-feature-report.c:114-133 | a request encoded into a reset buffer carries its command, and its length byte reads back exactly its payload |
| FeatureReport.ResponseView | src/libmccr/mccr-feature-report.c:135-142 | as written: the data is everything after the 3-byte header, and the length is byte 2, unchecked |
| FeatureReport.ResponseViewOverRead | src/libmccr/mccr-feature-report.c:135-142 | a declared length can exceed the bytes present after the header |
| FeatureReport.ResponsePayload | src/libmccr/mccr-feature-report.c:135-142 | corrected: a payload exactly when the declared length fits the buffer, and then exactly that many bytes after the header |
| FeatureReport.ResponseRoundTrip | src/libmccr/mccr-feature-report.c:135-142 | a response laid out as header, payload and padding yields exactly its payload |
| FeatureReport.ExchangeStatus | src/libmccr/mccr-feature-report.c:144-169 | a short or failed write is WRITE_FAILED; then a short or failed read is READ_FAILED; otherwise the status is that of the response's result code |
| FeatureReport.FeatureBuffers.constructor | src/libmccr/mccr-feature-report.c:81-101 | two distinct zeroed buffers of one report-id byte plus the feature report size |
| FeatureReport.FeatureBuffers.Reset | src/libmccr/mccr-feature-report.c:114-119 | both buffers are zeroed |
| FeatureReport.FeatureBuffers.SetRequest | src/libmccr/mccr-feature-report.c:121-133 | the request buffer becomes EncodeRequest of its old contents |
| FeatureReport.FeatureBuffers.GetResponse | src/libmccr/mccr-feature-report.c:135-142 | hands out ResponseView of the response buffer |
| FeatureReport.FeatureBuffers.SendReceive | src/libmccr/mccr-feature-report.c:144-169 | the whole request is sent; the response is read only after a full write; the status is ExchangeStatus of the transport's scripts |
| InputReport.Collect | src/libmccr/mccr-input-report.c:85-100 | the loop only adds to the bytes received, never beyond the report size, and makes at least one more read |
| InputReport.CollectTimeouts | src/libmccr/mccr-input-report.c:86-89 | the next read waits the caller's timeout if nothing has arrived and 500 ms otherwise, and every later read waits 500 ms |
| InputReport.CollectStep | src/libmccr/mccr-input-report.c:85-100 | one iteration: a failed read stops with an error, an empty read or a full report stops, anything else continues from the bytes received |
| InputReport.Received | src/libmccr/mccr-input-report.c:78-100 | from an empty buffer: at most the report size is received, the first read waits the caller's timeout, and every later read waits 500 ms |
| InputReport.ClassifyOk | src/libmccr/mccr-input-report.c:102-112 | OK exactly when no read failed and the whole report arrived, except that an empty report with a non-negative timeout is TIMED_OUT |
| InputReport.NothingArrives | src/libmccr/mccr-input-report.c:85-112 | when nothing arrives, one read is made with the caller's timeout; the result is TIMED_OUT for a non-negative timeout and otherwise UNEXPECTED_FORMAT (OK for an empty report) |
| InputReport.Reads | src/libmccr/mccr-input-report.c:85-100 | one read per chunk, each delivering that chunk |
| InputReport.ChunksAssemble | src/libmccr/mccr-input-report.c:85-100 | non-empty chunks that together complete the report are received whole and in order, with one read each and no read left over |
| InputReport.ChunkedReportReceived | src/libmccr/mccr-input-report.c:72-113 | a report delivered in non-empty chunks gives OK with exactly its bytes, one read per chunk |
| InputReport.InputBuffer.constructor | src/libmccr/mccr-input-report.c:44-60 | a zeroed buffer of the input report's size, with no report-id byte |
| InputReport.InputBuffer.Receive | src/libmccr/mccr-input-report.c:72-113 | NOT_OPEN with no transport; otherwise the status is Classify of Received, the bytes received sit at the start of the buffer, the rest of the buffer is unchanged, and exactly the reads of the loop are made |
| InputReport.InputBuffer.ReceiveFrom | src/libmccr/mccr-input-report.c:85-112 | on an open transport, the same status, buffer and reads as Receive |
| InputReport.InputBuffer.ReadLoop | src/libmccr/mccr-input-report.c:85-100 | the do-while loop gathers exactly what Received defines, at the start of the buffer |
| InputReport.InputBuffer.ReadChunk | src/libmccr/mccr-input-report.c:86-89 | one read into the missing tail of the buffer, asking only for the bytes still missing |
| InputReport.InputBuffer.GetData | src/libmccr/mccr-input-report.c:115-122 | the whole buffer and its size |
| Responses.FixedPayload | src/libmccr/mccr.c:565-599 | corrected: a response payload is accepted exactly when the declared length is the expected one and fits the buffer |
| Responses.FixedAcceptedAsWritten | src/libmccr/mccr.c:582-586 | as written: the fixed-length commands accept exactly when the declared length is the expected one; FixedPayload accepts exactly when that holds and the payload also fits the buffer |
| Responses.FixedLengthOverRead | src/libmccr/mccr.c:582-586 | a declared length equal to the expected one that overruns the buffer is accepted as written, with fewer than the expected bytes after the header, while FixedPayload rejects it |
| Responses.EncryptionCounter | src/libmccr/mccr.c:723-761 | the first 16 payload bytes are the serial number, and the counter is below 2^24 |
| Responses.CounterBytes | src/libmccr/mccr.c:723-761 | the counter is b16 + 256·b17 + 65536·b18 |
| Responses.EncryptionCounterRoundTrip | src/libmccr/mccr.c:723-761 | a serial number and a 24-bit counter laid out by the device are recovered exactly |
| Responses.SessionIdByte | src/libmccr/mccr.c:604-622 | byte k of a session id on the wire is (id >> (56 − 8k)) & 0xFF: most significant byte first |
| Responses.SessionIdRoundTrip | src/libmccr/mccr.c:604-622 | the 64-bit session id is recovered from its 8 bytes |
| Responses.BigEndianRoundTrip | src/libmccr/mccr.c:604-622 | reading back a big-endian encoding gives the number |
| Responses.ToBigEndianOfDecoded | src/libmccr/mccr.c:604-622 | encoding a number read big-endian gives back the bytes |
| Responses.BigEndianByte | src/libmccr/mccr.c:604-622 | byte k of an n-byte big-endian encoding is (v / 256^(n−1−k)) mod 256 |
| Responses.DecodeTrackIdEnable | src/libmccr/mccr.c:529-536 | each track state is a 2-bit field |
| Responses.TrackIdEnableRoundTrip | src/libmccr/mccr.c:529-536 | AAMVA support in bit 7 and tracks 1 to 3 in bits 0-1, 2-3 and 4-5 are each decoded from their own bits |
| Responses.TrackIdEnableReencode | src/libmccr/mccr.c:529-536 | decoding loses only bit 6 of the property byte |
| Responses.TrackIdEnableAsWritten | src/libmccr/mccr.c:440-467 | as written: always OK, and the fields come from the reply only when it is one byte long |
| Responses.TrackIdEnableReadsUninitialised | src/libmccr/mccr.c:516-539 | with a reply of the wrong length, OK is reported with fields that depend on an uninitialised variable |
| Responses.TrackIdEnableOf | src/libmccr/mccr.c:516-539 | corrected: OK exactly when a one-byte reply came back, UNEXPECTED_FORMAT otherwise, and then well-formed fields that re-encode the reply less bit 6 |
| Responses.SwipeUsage | src/libmccr/mccr.c:859-901 | NOT_FOUND exactly when no input usage has the id; INTERNAL exactly when its offset or size is not byte-aligned; OK exactly when it is aligned, has the expected size (if one is given) and lies inside the received report, and the range is then the usage's offset and size in bytes |
| Responses.ParsedUsageInBounds | src/libmccr/mccr.c:893-897 | in a parsed input layout whose total does not wrap, every byte-aligned usage lies inside the report, so the bounds check cannot fail |
| Mccr.Reply | src/libmccr/mccr-feature-report.c:164 | the response buffer after a full read is the first report-size bytes of the reply |
| Mccr.FixedOutcome | src/libmccr/mccr.c:565-599 | corrected: on OK, the payload handed out has exactly the expected length |
| Mccr.FixedOutcomeOk | src/libmccr/mccr.c:565-599 | corrected: a fixed-length command is OK exactly when the whole request went out, the whole response came back with result 0, the declared length is the expected one and it fits; the output is then the bytes after the header, and a failure after a good exchange is UNEXPECTED_FORMAT |
| Mccr.FixedStatusAsWritten | src/libmccr/mccr.c:577-586 | as written: a failed exchange keeps its status; after a good one the status is OK exactly when the declared length is the expected one; whenever it is OK and the payload fits, the corrected FixedOutcome is OK too |
| Mccr.FixedCommandOverRead | src/libmccr/mccr.c:582-586 | a 5-byte report whose reply `[0, 0, 10, 1, 2]` declares 10 bytes: as written the KSN command reports OK although only 2 bytes follow the header; the corrected outcome is UNEXPECTED_FORMAT |
| Mccr.PayloadOutcomeOk | src/libmccr/mccr.c:805-841 | a variable-length command is OK exactly when the exchange is and the declared length fits, and then hands out exactly the declared bytes after the header |
| Mccr.ByteOutcome | src/libmccr/mccr.c:440-467 | the status is that of the exchange; a byte is handed out exactly when the exchange is OK and the reply is one byte long, and it is that byte |
| Mccr.Device.constructor | src/libmccr/mccr.c:97-136 | a new device holds one reference and is closed |
| Mccr.Device.IsOpen | src/libmccr/mccr.c:361-365 | open exactly when the device holds a descriptor context, and then also a transport and a codec |
| Mccr.Device.ClearOpenInfo | src/libmccr/mccr.c:284-301 | drops the codec, the transport and the reference to the descriptor context |
| Mccr.Device.Open | src/libmccr/mccr.c:303-359 | an open device only gains a reference; a closed one opens exactly when the descriptor was read and parses and the transport opened, with a fresh context, the transport and fresh zeroed buffers sized from the feature layout, and takes a reference; otherwise FAILED with everything unchanged and closed |
| Mccr.Device.Close | src/libmccr/mccr.c:367-379 | nothing on a closed device; otherwise it drops the codec, the transport and the context reference, and gives back the reference open took |
| Mccr.Device.Command | src/libmccr/mccr.c:410-422 | NOT_OPEN when closed; otherwise exactly one request is sent, EncodeRequest of a zeroed buffer, and the status is that of the exchange; on OK the response is Reply of the transport's script |
| Mccr.Device.Reset | src/libmccr/mccr.c:384-393 | sends RESET_DEVICE with no data; the status is that of the exchange |
| Mccr.Device.ReadPropertyString | src/libmccr/mccr.c:410-438 | corrected: sends GET_PROPERTY with the property id and returns PayloadOutcome, the payload only when its declared length fits |
| Mccr.Device.ReadPropertyByte | src/libmccr/mccr.c:440-467 | sends GET_PROPERTY with the property id and returns ByteOutcome: OK with no value when the reply is not one byte |
| Mccr.Device.ReadTrackIdEnable | src/libmccr/mccr.c:516-539 | corrected: a failed property read keeps its status, otherwise the outcome is TrackIdEnableOf of the byte read |
| Mccr.Device.GetDukptKsnAndCounter | src/libmccr/mccr.c:565-599 | corrected: FixedOutcome with exactly 10 bytes |
| Mccr.Device.SetSessionId | src/libmccr/mccr.c:604-622 | sends SET_SESSION_ID with the id's 8 big-endian bytes; the status is that of the exchange |
| Mccr.Device.GetReaderState | src/libmccr/mccr.c:658-687 | corrected: FixedOutcome with exactly 2 bytes: the state, then its antecedent |
| Mccr.Device.GetSecurityLevel | src/libmccr/mccr.c:692-718 | corrected: SET_SECURITY_LEVEL with no data, FixedOutcome with exactly 1 byte, the level |
| Mccr.Device.GetEncryptionCounter | src/libmccr/mccr.c:723-761 | corrected: FixedOutcome with exactly 19 bytes, decoded as a 16-byte serial number and a 24-bit counter |
| Mccr.Device.GetMagtekUpdateToken | src/libmccr/mccr.c:766-800 | corrected: FixedOutcome with exactly 36 bytes |
| Mccr.Device.FixedCommand | src/libmccr/mccr.c:565-599 | corrected: a command with no data whose outcome is FixedOutcome |
| Mccr.Device.RunGeneric | src/libmccr/mccr.c:805-841 | corrected: sends any command and data, and returns PayloadOutcome |
| Mccr.Device.WaitSwipeReport | src/libmccr/mccr.c:1057-1091 | NOT_OPEN when closed; otherwise the status is that of the receive loop, and on OK a fresh report holding exactly the bytes received and a new reference to the descriptor context; on failure no report and no new reference |
| Mccr.SwipeReport.constructor | src/libmccr/mccr.c:1076-1083 | the report keeps the received buffer and takes a reference to the descriptor context |
| Mccr.SwipeReport.Free | src/libmccr/mccr.c:851-857 | gives the descriptor reference back |
| Mccr.SwipeReport.GetUsage | src/libmccr/mccr.c:859-901 | the outcome is SwipeUsage of the input layout and the received report, and on OK exactly the bytes the usage spans |
| Mccr.SwipeReport.ByteUsage | src/libmccr/mccr.c:1038-1055 | a one-byte usage: the status of SwipeUsage, and on OK the byte at its offset |
| Mccr.SwipeReport.DataUsage | src/libmccr/mccr.c:961-978 | a usage of any size: the status of SwipeUsage, and on OK the bytes it spans |
| Mccr.SwipeReport.TrackDecodeStatus | src/libmccr/mccr.c:904-921 | usage 0x20 + track − 1, exactly one byte |
| Mccr.SwipeReport.TrackEncryptedDataLength | src/libmccr/mccr.c:923-940 | usage 0x28 + track − 1, exactly one byte |
| Mccr.SwipeReport.TrackAbsoluteDataLength | src/libmccr/mccr.c:942-959 | usage 0x51 + track − 1, exactly one byte |
| Mccr.SwipeReport.TrackEncryptedData | src/libmccr/mccr.c:961-978 | usage 0x30 + track − 1, of any size: the bytes it spans |
| Mccr.SwipeReport.TrackMaskedDataLength | src/libmccr/mccr.c:980-997 | usage 0x47 + track − 1, exactly one byte |
| Mccr.SwipeReport.TrackMaskedData | src/libmccr/mccr.c:999-1016 | usage 0x4a + track − 1, of any size: the bytes it spans |
| Mccr.SwipeReport.CardEncodeType | src/libmccr/mccr.c:1038-1055 | usage 0x38, exactly one byte |
| Hex.DigitValue | src/common/common.c:104-109 | a value from 0 to 15 exactly for a hexadecimal digit of either case, and −1 for any other character |
| Hex.HexDigit | src/common/common.c:46 | the upper-case digit printed for a nibble reads back as that nibble, and is neither a separator nor NUL |
| Hex.HexPair | src/common/common.c:46 | `%02X` gives two digits that read back as the byte, high nibble first |
| Hex.HexLength | src/common/common.c:38 | the text of N bytes has length 2N + (N − 1)·\|delimiter\|, which is the allocation less its NUL byte |
| Hex.HexLayout | src/common/common.c:44-50 | byte i is printed at i·(2 + \|delimiter\|) as its two digits, and every byte but the last is followed by the delimiter |
| Hex.HexCons | src/common/common.c:44-50 | the text is the first byte's pair, the delimiter, then the text of the rest |
| Hex.StrHex | src/common/common.c:17-54 | the loop writes exactly Hex of the data, of the allocated length |
| Hex.HexLinesSingleLine | src/common/common.c:56-102 | with at most one line of bytes, strhex_multiline prints exactly what strhex prints |
| Hex.HexLinesLength | src/common/common.c:79-99 | the multiline text has exactly the length MultilineLength computes |
| Hex.MultilineAllocationOverflow | src/common/common.c:70-76 | as written: 10 bytes, one per line, with no prefix and no delimiter, need 30 characters with the NUL but get 22 |
| Hex.StrHexMultiline | src/common/common.c:56-102 | corrected: the loop writes exactly HexLines of the data into a buffer of exactly its length |
| Hex.PutLineTerm | src/common/common.c:81-97 | one iteration for a byte before the last: its pair, then a line break and the prefix after every perLine-th byte, the delimiter otherwise |
| Hex.Unhex | src/common/common.c:121-147 | the bytes decoded only extend what was stored, never beyond the capacity; a non-negative result is their count; −1 means the buffer is full; −2 to −4 are the other errors, each one's input stated by the StrBin lemmas below |
| Hex.StrBin | src/common/common.c:111-148 | the loop returns Unhex's code, stores Unhex's bytes at the front of the buffer and leaves the rest of the buffer unchanged |
| Hex.UnhexSkipsSeparators | src/common/common.c:125-128 | spaces, newlines and colons are skipped without effect |
| Hex.UnhexHexTerms | src/common/common.c:121-145 | strbin reads back every pair strhex printed, across delimiters made of separators |
| Hex.StrBinOfStrHex | src/common/common.c:17-148 | round trip: strbin of strhex's text recovers the bytes exactly, for a delimiter made of separators (none, " " or ":") and a buffer of at least N bytes |
| Hex.StrBinTooSmall | src/common/common.c:129-130 | strhex text of more bytes than the buffer holds: −1, with exactly the bytes that fit written |
| Hex.StrBinOddDigit | src/common/common.c:136-137 | well-formed pairs, room for one more byte, then a lone hexadecimal digit at the end: −3 with the pairs' bytes written |
| Hex.StrBinBadHighDigit | src/common/common.c:132-134 | well-formed pairs, room for one more byte, then a character that is neither a separator nor a digit: −2 with the pairs' bytes written |
| Hex.StrBinBadLowDigit | src/common/common.c:139-141 | well-formed pairs, room for one more byte, then a first digit followed by a non-digit, a separator included: −4 with the pairs' bytes written |
| Hex.HexTermsNoNul | src/common/common.c:44-50 | strhex's text holds no NUL, so strbin sees all of it |
| Hex.StrAscii | src/common/common.c:150-171 | one character per byte: printable bytes (0x20 to 0x7E) as themselves and every other byte as '#', so the text is all printable |

## Left out

- Logging (`mccr_log`, `mccr_log_raw`), the `*_to_string` tables and `mccr_init` /
  `mccr_exit` are left out. They only produce text or set up global state.
- Enumeration of hidapi devices, the device-info getters that return wide strings, and
  `device_new`'s device path are left out. They are calls into hidapi, which is not part of
  this model.
- Allocation failures are left out: calloc returning NULL, and the FAILED paths that follow
  from it.
- The atomics and the mutex behind reference counting are left out. The model is
  single-threaded.
- The property wrappers (`mccr_device_read_software_id`, `…_polling_interval` and so on)
  are left out as separate members. Each only passes its PROPERTY_* id to
  `Mccr.Device.ReadPropertyString` or `Mccr.Device.ReadPropertyByte`. The iso and aamva
  track masks and the max packet size are such wrappers too.
- Null out-parameters are left out. Every output is always returned.
- `Mccr.Device.ReadPropertyString`: no C string is built. The property value is the payload's
  bytes, so the truncation at an embedded NUL and the added NUL byte are left out.
- The requires on buffer sizes stand for the source's assertion in
  `mccr_feature_report_set_request` and its unchecked layout. `Mccr.Device.Command` and
  `Mccr.Device.Reset` need only the report-id and command bytes (`reportSize >= 2`), plus
  room after the header for any data. At report size 2 the assertion's unsigned subtraction
  wraps, so a request with no data passes it. The commands that read a reply's declared length
  need `reportSize >= HEADER_SIZE`, because at report size 2 reading byte 2 after an OK
  exchange is past the buffer. Report size 1, and that read, are undefined behaviour in the
  source and are not modelled.
- `Hex.StrHex` and `Hex.StrHexMultiline` require a non-empty input, as the source asserts.
  `Hex.StrHexMultiline` also requires a positive line length, since 0 divides by zero in
  the source. Both require the delimiter (and the prefix) to hold no NUL, since the source
  takes them as C strings and measures them with strlen.
- `Hex.StrAscii` follows `isprint` in the C locale (0x20 to 0x7E). Under another locale
  `isprint` may accept bytes from 0x80 up, which the model still prints as '#'.
- `Hex.StrBin` reads characters from 0x80 up as non-digits (`DigitValue` gives −1), so
  they yield −2 or −4, as with an unsigned `char`. Where `char` is signed the source
  indexes `hextable` with a negative value; that out-of-bounds read is not modelled.
- `HidSpec.OffsetsTile`, `HidSpec.LayoutTiles` and `Responses.ParsedUsageInBounds` hold only
  when the sum of the usage sizes is below 2^32. Beyond that the 32-bit total wraps, which
  `HidSpec.TotalBitsIsWrappedSum` states.
- `InputReport.Collect`: the contract states only growth and bounds. Its exact outcome is
  given by `InputReport.CollectStep`, `InputReport.ChunksAssemble` and
  `InputReport.CollectTimeouts`.
- `Mccr.SwipeReport.Free` drops only the descriptor reference. Freeing the input buffer is
  memory management.
- `InputReport.InputBuffer` has no free: `mccr_input_report_free` only releases memory.

## Findings

| source | as written | input that shows it | evidently intended | confidence | as-written member | corrected member |
|---|---|---|---|---|---|---|
| src/libmccr/mccr-feature-report.c:135-142, src/libmccr/mccr.c:410-438, src/libmccr/mccr.c:805-841 | the response length handed out is byte 2 of the response, never checked against the buffer; read_property_string and run_generic then copy that many bytes | a 4-byte response buffer `[0, 0, 5, 1]`: 5 bytes are declared but 1 follows the header, so the copy reads 4 bytes past the buffer | reject a declared length that overruns the response buffer with UNEXPECTED_FORMAT | not executed | FeatureReport.ResponseViewOverRead | FeatureReport.ResponsePayload |
| src/libmccr/mccr.c:440-467, src/libmccr/mccr.c:516-539 | read_property_byte returns OK without writing its output when the reply is not one byte, and read_track_id_enable then decodes its uninitialised `val` | any reply whose declared length is not 1: the fields then come from the stack, e.g. all zero for 0x00 and tracks 3, 3, 3 with AAMVA for 0xFF | report UNEXPECTED_FORMAT, as every other fixed-length command does | not executed | Responses.TrackIdEnableReadsUninitialised | Responses.TrackIdEnableOf |
| src/libmccr/mccr.c:582-586, src/libmccr/mccr.c:675-679, src/libmccr/mccr.c:708-712, src/libmccr/mccr.c:740-744, src/libmccr/mccr.c:783-787 | the fixed-length commands compare only the declared length with the expected one, then copy that many bytes from the response buffer | a 5-byte feature report whose reply is `[0, 0, 10, 1, 2]`: the KSN command reports OK and copies 10 bytes of which 8 lie past the buffer | reject a declared length that overruns the response buffer with UNEXPECTED_FORMAT | not executed | Mccr.FixedStatusAsWritten | Mccr.FixedOutcome |
| src/libmccr/mccr-hid.c:177-199, src/libmccr/mccr-hid.c:372-375 | process_input_output_feature appends the pending usages even when there are none; append_to_usage_array then allocates nothing for a layout that has never received a usage, and `assert (*array)` aborts | Usage Page 0xFF00, Usage 0x01, Collection (Application), then an Input item before any input usage (bytes 06 00 FF 09 01 A1 01 81 02): the Input commits nothing to the still-unallocated input layout | an empty commit leaves the layout as it is | not executed | HidSpec.CommitAbortsAsWritten | HidSpec.CommitPending |
| src/common/common.c:70-76 | strhex_multiline allocates 2 + 2N + (N / perLine)·\|prefix\| + (N − 1)·\|delimiter\| bytes, leaving no room for a newline where no delimiter character would have stood | N = 10, perLine = 1, no prefix, no delimiter: 20 digits, 9 newlines and the NUL need 30 bytes, but 22 are allocated | allocate the text's exact length plus its NUL | not executed | Hex.MultilineAllocationOverflow | Hex.StrHexMultiline |
