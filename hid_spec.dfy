/** The meaning of src/libmccr/mccr-hid.c as functions: how one descriptor item
    changes the parse state, the scan over a whole descriptor, the offset
    assignment that finalises a report, and usage lookup.  The imperative parser
    in module Hid is proved against these functions.

    Item framing follows the Device Class Definition for HID 1.11 (short items,
    section 6.2.2.2; main, global and local items, sections 6.2.2.4 to 6.2.2.8),
    with one deviation the source has: a long item (section 6.2.2.3) is skipped
    by desc[i + 1] + 1 bytes from its prefix, not by 3 + bDataSize. */
module HidSpec {
  import opened Types

  /** MCCR_USAGE_PAGE and MCCR_USAGE: the only usage page and application usage accepted. */
  const VENDOR_USAGE_PAGE: u32 := 0xFF00
  const APPLICATION_USAGE: u32 := 0x01
  /** Collection type "Application". */
  const COLLECTION_APPLICATION: u32 := 0x01

  const LONG_ITEM_PREFIX: byte := 0xFE

  /** Item types. */
  const TYPE_MAIN: nat := 0
  const TYPE_GLOBAL: nat := 1
  const TYPE_LOCAL: nat := 2

  /** Main item tags. */
  const TAG_INPUT: nat := 0x8
  const TAG_OUTPUT: nat := 0x9
  const TAG_COLLECTION: nat := 0xA
  const TAG_FEATURE: nat := 0xB
  const TAG_END_COLLECTION: nat := 0xC

  /** Global item tags. */
  const TAG_USAGE_PAGE: nat := 0x0
  const TAG_REPORT_SIZE: nat := 0x7
  const TAG_REPORT_COUNT: nat := 0x9

  /** Local item tag. */
  const TAG_USAGE: nat := 0x0

  /** usage_t: a named field and its place in a report, in bits. */
  datatype Usage = Usage(id: u32, sizeBits: u32, offsetBits: u32)

  /** The fields of parse_context_t that steer the parse, and the two layouts under construction. */
  datatype ParseState = ParseState(
    usagePage: u32,
    reportSize: u32,
    collection: u32,
    fatal: bool,
    pending: seq<Usage>,
    input: seq<Usage>,
    feature: seq<Usage>)

  const INITIAL: ParseState := ParseState(0, 0, 0, false, [], [], [])

  /** report_t once processed: its usages with offsets, and its size in bytes. */
  datatype Report = Report(usages: seq<Usage>, size: nat)

  /** The two layouts of a descriptor context. */
  datatype Layouts = Layouts(input: Report, feature: Report)

  // ---------------------------------------------------------------------------
  // Item framing

  /** prefix >> 4 */
  function ItemTag(prefix: byte): nat
  {
    prefix as nat / 16
  }

  /** (prefix & 0b1100) >> 2 */
  function ItemType(prefix: byte): nat
  {
    (prefix as nat / 4) % 4
  }

  /** prefix & 0b11, where the code 3 stands for four data bytes. */
  function DataSize(prefix: byte): nat
  {
    if prefix as nat % 4 == 3 then 4 else prefix as nat % 4
  }

  /** The prefix fields determine the prefix: tag, type and size code recompose it. */
  lemma {:induction false} PrefixFields(prefix: byte)
    ensures ItemTag(prefix) < 16 && ItemType(prefix) < 4
    ensures DataSize(prefix) in {0, 1, 2, 4}
    ensures prefix as nat == 16 * ItemTag(prefix) + 4 * ItemType(prefix) + prefix as nat % 4
  {
  }

  function Pow256(n: nat): (p: nat)
    ensures p > 0
  {
    if n == 0 then 1 else 256 * Pow256(n - 1)
  }

  /** The data bytes of an item read as a little-endian unsigned number (memcpy into a zeroed
      u32 followed by le32toh). */
  function LittleEndian(bytes: seq<byte>): (v: nat)
    ensures v < Pow256(|bytes|)
  {
    if bytes == [] then 0 else bytes[0] as nat + 256 * LittleEndian(bytes[1..])
  }

  /** The little-endian encoding of v in n bytes, least significant first. */
  function ToLittleEndian(v: nat, n: nat): (bytes: seq<byte>)
    requires v < Pow256(n)
    ensures |bytes| == n
  {
    if n == 0 then [] else [(v % 256) as byte] + ToLittleEndian(v / 256, n - 1)
  }

  /** Decoding inverts encoding: the item value is exactly the number the bytes encode. */
  lemma {:induction false} LittleEndianRoundTrip(v: nat, n: nat)
    requires v < Pow256(n)
    ensures LittleEndian(ToLittleEndian(v, n)) == v
  {
    if n > 0 {
      LittleEndianRoundTrip(v / 256, n - 1);
    }
  }

  /** Encoding inverts decoding. */
  lemma {:induction false} ToLittleEndianOfDecoded(bytes: seq<byte>)
    ensures ToLittleEndian(LittleEndian(bytes), |bytes|) == bytes
  {
    if bytes != [] {
      var v := LittleEndian(bytes);
      ByteDivMod(bytes[0], LittleEndian(bytes[1..]));
      ToLittleEndianOfDecoded(bytes[1..]);
      assert ToLittleEndian(v, |bytes|) == [bytes[0]] + ToLittleEndian(v / 256, |bytes| - 1);
      assert [bytes[0]] + bytes[1..] == bytes;
    }
  }

  /** Splitting b + 256 * w back into its low byte and the rest. */
  lemma {:induction false} ByteDivMod(b: byte, w: nat)
    ensures (b as nat + 256 * w) % 256 == b as nat && (b as nat + 256 * w) / 256 == w
  {
  }

  /** The value of a short item: at most four bytes, so it fits the u32 the source uses. */
  function ItemValue(bytes: seq<byte>): (v: u32)
    requires |bytes| <= 4
  {
    assert Pow256(|bytes|) <= Pow256(4) by { Pow256Monotone(|bytes|, 4); }
    LittleEndian(bytes)
  }

  lemma {:induction false} Pow256Monotone(a: nat, b: nat)
    requires a <= b
    ensures Pow256(a) <= Pow256(b)
    decreases b - a
  {
    if a < b {
      Pow256Monotone(a, b - 1);
    }
  }

  // ---------------------------------------------------------------------------
  // Items

  /** Input or Feature: append every pending usage, in order, to that layout; Output and the
      other main tags only drop them. */
  function CommitPending(s: ParseState, tag: nat): (r: ParseState)
    ensures r.pending == []
    ensures r.input == (if tag == TAG_INPUT then s.input + s.pending else s.input)
    ensures r.feature == (if tag == TAG_FEATURE then s.feature + s.pending else s.feature)
    ensures r.fatal == s.fatal && r.usagePage == s.usagePage && r.reportSize == s.reportSize
    ensures r.collection == s.collection
  {
    if tag == TAG_INPUT then s.(input := s.input + s.pending, pending := [])
    else if tag == TAG_FEATURE then s.(feature := s.feature + s.pending, pending := [])
    else s.(pending := [])
  }

  /** process_input_output_feature as written: append_to_usage_array allocates only when the
      layout must grow, so committing no usages to an Input or Feature layout that has never
      received one reaches `assert (*array)` with a null array and aborts.  The corrected
      CommitPending treats that commit as the no-op it is everywhere else. */
  function CommitAbortsAsWritten(s: ParseState, tag: nat): (aborts: bool)
    ensures aborts ==> CommitPending(s, tag) == s
    ensures aborts ==> (tag == TAG_INPUT || tag == TAG_FEATURE) && |s.pending| == 0
  {
    && s.pending == []
    && ((tag == TAG_INPUT && s.input == []) || (tag == TAG_FEATURE && s.feature == []))
  }

  /** Collection: only one Application collection on the application usage is accepted. */
  function Collection(s: ParseState, value: u32): (r: ParseState)
    ensures r.fatal <==> (s.fatal
      || !(|s.pending| == 1 && s.pending[0].id == APPLICATION_USAGE && value == COLLECTION_APPLICATION))
    ensures r.fatal && !s.fatal ==> r == s.(fatal := true)
    ensures !r.fatal ==> r == s.(collection := value, pending := [])
  {
    if |s.pending| == 0 then s.(fatal := true)
    else if |s.pending| != 1 then s.(fatal := true)
    else if s.pending[0].id != APPLICATION_USAGE then s.(fatal := true)
    else if value != COLLECTION_APPLICATION then s.(fatal := true)
    else s.(collection := value, pending := [])
  }

  /** End Collection: pending usages are an error; the collection marker is reset. */
  function CollectionEnd(s: ParseState): (r: ParseState)
    ensures r.fatal <==> s.fatal || |s.pending| > 0
    ensures r.collection == 0 && r.pending == s.pending
    ensures r.input == s.input && r.feature == s.feature
  {
    if |s.pending| > 0 then s.(fatal := true, collection := 0) else s.(collection := 0)
  }

  function MainItem(s: ParseState, tag: nat, value: u32): ParseState
  {
    if tag == TAG_INPUT || tag == TAG_OUTPUT || tag == TAG_FEATURE then CommitPending(s, tag)
    else if tag == TAG_COLLECTION then Collection(s, value)
    else if tag == TAG_END_COLLECTION then CollectionEnd(s)
    else CommitPending(s, tag)
  }

  function SumSizes(us: seq<Usage>): nat
  {
    if us == [] then 0 else SumSizes(us[..|us| - 1]) + us[|us| - 1].sizeBits
  }

  /** Every usage of `us` given size `size`, ids and offsets kept. */
  function Resized(us: seq<Usage>, size: u32): (r: seq<Usage>)
    ensures |r| == |us|
    ensures forall k :: 0 <= k < |us| ==> r[k] == us[k].(sizeBits := size)
  {
    seq(|us|, k requires 0 <= k < |us| => us[k].(sizeBits := size))
  }

  lemma {:induction false} SumSizesUniform(us: seq<Usage>, size: u32)
    requires forall k :: 0 <= k < |us| ==> us[k].sizeBits == size
    ensures SumSizes(us) == |us| * size
  {
    if us != [] {
      SumSizesUniform(us[..|us| - 1], size);
    }
  }

  /** Report Count with S = count * report size (a u32 product): sizes the pending usages. */
  function ReportCount(s: ParseState, count: u32): (r: ParseState)
    ensures var bits := (count * s.reportSize) % U32_MODULUS;
      && r.pending == (if |s.pending| == 0 || (|s.pending| > 1 && bits % |s.pending| != 0) then s.pending
                       else Resized(s.pending, bits / |s.pending|))
      && (r.fatal <==> s.fatal || (|s.pending| == 1 && bits == 0) || (|s.pending| > 1 && bits % |s.pending| != 0))
      && (|s.pending| > 0 && !r.fatal ==> SumSizes(r.pending) == bits)
    ensures r.input == s.input && r.feature == s.feature && r.usagePage == s.usagePage
    ensures r.reportSize == s.reportSize && r.collection == s.collection
  {
    var bits: u32 := (count * s.reportSize) % U32_MODULUS;
    var n := |s.pending|;
    if n == 0 then s
    else if n == 1 then
      SumSizesUniform(Resized(s.pending, bits), bits);
      s.(pending := Resized(s.pending, bits), fatal := s.fatal || bits == 0)
    else if bits % n != 0 then s.(fatal := true)
    else
      SumSizesUniform(Resized(s.pending, bits / n), bits / n);
      s.(pending := Resized(s.pending, bits / n))
  }

  function GlobalItem(s: ParseState, tag: nat, value: u32): ParseState
  {
    if tag == TAG_USAGE_PAGE then s.(usagePage := value, fatal := s.fatal || value != VENDOR_USAGE_PAGE)
    else if tag == TAG_REPORT_SIZE then s.(reportSize := value)
    else if tag == TAG_REPORT_COUNT then ReportCount(s, value)
    else s
  }

  function LocalItem(s: ParseState, tag: nat, value: u32): ParseState
  {
    if tag == TAG_USAGE then s.(pending := s.pending + [Usage(value, 0, 0)]) else s
  }

  function ShortItem(s: ParseState, prefix: byte, value: u32): ParseState
  {
    var tag := ItemTag(prefix);
    var kind := ItemType(prefix);
    if kind == TYPE_MAIN then MainItem(s, tag, value)
    else if kind == TYPE_GLOBAL then GlobalItem(s, tag, value)
    else if kind == TYPE_LOCAL then LocalItem(s, tag, value)
    else s
  }

  /** Where the item at i ends: a long item skips desc[i + 1] + 1 bytes, a short one 1 + its
      data size. */
  function NextItem(desc: seq<byte>, i: nat): (next: nat)
    requires i < |desc|
    requires desc[i] == LONG_ITEM_PREFIX ==> i + 1 < |desc|
    ensures next > i
  {
    if desc[i] == LONG_ITEM_PREFIX then i + desc[i + 1] as nat + 1 else i + DataSize(desc[i]) + 1
  }

  /** The scan of parse_report_descriptor from position i: item by item until the end, a long
      item with no length byte, or the first fatal error. */
  function Scan(s: ParseState, desc: seq<byte>, i: nat): ParseState
    decreases |desc| - i
  {
    if i >= |desc| || s.fatal then s
    else if desc[i] == LONG_ITEM_PREFIX then
      if i + 1 >= |desc| then s else Scan(s, desc, NextItem(desc, i))
    else if i + DataSize(desc[i]) >= |desc| then Scan(s, desc, NextItem(desc, i))
    else Scan(ShortItem(s, desc[i], ItemValue(desc[i + 1 .. NextItem(desc, i)])), desc, NextItem(desc, i))
  }

  /** One short item of the scan: its handler runs when its data bytes are all present. */
  lemma {:induction false} ScanShortItem(s: ParseState, desc: seq<byte>, i: nat, t: ParseState)
    requires i < |desc| && !s.fatal && desc[i] != LONG_ITEM_PREFIX
    requires t == if i + DataSize(desc[i]) < |desc|
      then ShortItem(s, desc[i], ItemValue(desc[i + 1 .. i + 1 + DataSize(desc[i])])) else s
    ensures Scan(s, desc, i) == Scan(t, desc, i + 1 + DataSize(desc[i]))
  {
  }

  // ---------------------------------------------------------------------------
  // Properties of the scan

  /** A fatal state is final: the scan changes nothing once an error has been seen. */
  lemma {:induction false} ScanStopsAtFatal(s: ParseState, desc: seq<byte>, i: nat)
    requires s.fatal
    ensures Scan(s, desc, i) == s
  {
  }

  /** An item never takes back what is committed: each layout only grows at its end. */
  lemma {:induction false} ShortItemExtends(s: ParseState, prefix: byte, value: u32)
    ensures s.input <= ShortItem(s, prefix, value).input
    ensures s.feature <= ShortItem(s, prefix, value).feature
    ensures s.fatal ==> ShortItem(s, prefix, value).fatal
  {
  }

  /** The scan only appends to the layouts, never rewrites or removes committed usages. */
  lemma {:induction false} ScanExtends(s: ParseState, desc: seq<byte>, i: nat)
    ensures s.input <= Scan(s, desc, i).input
    ensures s.feature <= Scan(s, desc, i).feature
    decreases |desc| - i
  {
    if i >= |desc| || s.fatal {
    } else if desc[i] == LONG_ITEM_PREFIX {
      if i + 1 < |desc| {
        ScanExtends(s, desc, NextItem(desc, i));
      }
    } else if i + DataSize(desc[i]) >= |desc| {
      ScanExtends(s, desc, NextItem(desc, i));
    } else {
      var t := ShortItem(s, desc[i], ItemValue(desc[i + 1 .. NextItem(desc, i)]));
      ShortItemExtends(s, desc[i], ItemValue(desc[i + 1 .. NextItem(desc, i)]));
      ScanExtends(t, desc, NextItem(desc, i));
    }
  }

  /** A short item whose data runs past the end is skipped: nothing changes. */
  lemma {:induction false} TruncatedItemIgnored(s: ParseState, desc: seq<byte>, i: nat)
    requires i < |desc| && desc[i] != LONG_ITEM_PREFIX && i + DataSize(desc[i]) >= |desc|
    ensures Scan(s, desc, i) == s
  {
  }

  /** A long item changes no parse state: the scan continues desc[i + 1] + 1 bytes further, and
      a long-item prefix in the last byte ends the scan without an error. */
  lemma {:induction false} LongItemSkipped(s: ParseState, desc: seq<byte>, i: nat)
    requires i < |desc| && desc[i] == LONG_ITEM_PREFIX && !s.fatal
    ensures i + 1 >= |desc| ==> Scan(s, desc, i) == s
    ensures i + 1 < |desc| ==> Scan(s, desc, i) == Scan(s, desc, i + desc[i + 1] as nat + 1)
  {
  }

  // ---------------------------------------------------------------------------
  // Finalisation (process_report)

  /** The running bit total after the given usages, accumulated in a u32. */
  function TotalBits(us: seq<Usage>): u32
  {
    if us == [] then 0 else (TotalBits(us[..|us| - 1]) + us[|us| - 1].sizeBits) % U32_MODULUS
  }

  /** Every usage with its offset set to the running total of the usages before it. */
  function WithOffsets(us: seq<Usage>): (r: seq<Usage>)
    ensures |r| == |us|
  {
    seq(|us|, k requires 0 <= k < |us| => us[k].(offsetBits := TotalBits(us[..k])))
  }

  /** What process_report leaves behind: the fatal flag and the report. */
  datatype Finished = Finished(fatal: bool, report: Report)

  /** process_report on one report: nothing happens after an earlier error; an empty report is
      fatal; otherwise offsets are assigned, and the byte size total / 8 is stored unless the
      total is not a whole number of bytes, which is fatal. */
  function FinishReport(fatal: bool, r: Report): Finished
  {
    if fatal then Finished(true, r)
    else if |r.usages| == 0 then Finished(true, r)
    else if TotalBits(r.usages) % 8 != 0 then Finished(true, r.(usages := WithOffsets(r.usages)))
    else Finished(false, Report(WithOffsets(r.usages), TotalBits(r.usages) / 8))
  }

  /** The layout process_report produces from the committed usages, if it succeeds. */
  function FinalizeReport(us: seq<Usage>): (r: Option<Report>)
    ensures r.Some? <==> |us| > 0 && TotalBits(us) % 8 == 0
    ensures r.Some? ==> r.value.size * 8 == TotalBits(us) && r.value.usages == WithOffsets(us)
  {
    var f := FinishReport(false, Report(us, 0));
    if f.fatal then None else Some(f.report)
  }

  lemma {:induction false} ModAdd(a: nat, b: nat)
    ensures (a % U32_MODULUS + b) % U32_MODULUS == (a + b) % U32_MODULUS
  {
    var q := a / U32_MODULUS;
    assert a == q * U32_MODULUS + a % U32_MODULUS;
  }

  /** The u32 running total is the true sum of the sizes, reduced modulo 2^32. */
  lemma {:induction false} TotalBitsIsWrappedSum(us: seq<Usage>)
    ensures TotalBits(us) == SumSizes(us) % U32_MODULUS
  {
    if us != [] {
      var init := us[..|us| - 1];
      TotalBitsIsWrappedSum(init);
      ModAdd(SumSizes(init), us[|us| - 1].sizeBits);
    }
  }

  lemma {:induction false} SumSizesPrefix(us: seq<Usage>, k: nat)
    requires k <= |us|
    ensures SumSizes(us[..k]) <= SumSizes(us)
    decreases |us| - k
  {
    if k < |us| {
      SumSizesPrefix(us, k + 1);
      assert us[..k + 1][..k] == us[..k];
      assert SumSizes(us[..k + 1]) == SumSizes(us[..k]) + us[k].sizeBits;
    } else {
      assert us[..k] == us;
    }
  }

  /** Without wrap-around of the total, the running total at k is the plain prefix sum. */
  lemma {:induction false} PrefixTotal(us: seq<Usage>, k: nat)
    requires k <= |us| && SumSizes(us) < U32_MODULUS
    ensures TotalBits(us[..k]) == SumSizes(us[..k])
  {
    SumSizesPrefix(us, k);
    TotalBitsIsWrappedSum(us[..k]);
  }

  /** Where usage k ends: the prefix sum up to and including it. */
  lemma {:induction false} UsageEnd(us: seq<Usage>, k: nat)
    requires k < |us| && SumSizes(us) < U32_MODULUS
    ensures WithOffsets(us)[k].offsetBits + us[k].sizeBits == SumSizes(us[..k + 1])
  {
    PrefixTotal(us, k);
    assert us[..k + 1][..k] == us[..k];
    assert SumSizes(us[..k + 1]) == SumSizes(us[..k]) + us[k].sizeBits;
  }

  /** Each usage starts where the previous one ends. */
  lemma {:induction false} OffsetChain(us: seq<Usage>, k: nat)
    requires k + 1 < |us| && SumSizes(us) < U32_MODULUS
    ensures WithOffsets(us)[k + 1].offsetBits == WithOffsets(us)[k].offsetBits + us[k].sizeBits
  {
    UsageEnd(us, k);
    PrefixTotal(us, k + 1);
  }

  /** Each usage ends within the true total. */
  lemma {:induction false} UsageInside(us: seq<Usage>, k: nat)
    requires k < |us| && SumSizes(us) < U32_MODULUS
    ensures WithOffsets(us)[k].offsetBits + us[k].sizeBits <= SumSizes(us)
  {
    UsageEnd(us, k);
    SumSizesPrefix(us, k + 1);
  }

  /** Offsets are prefix sums: every usage starts where the previous one ends, the first at
      bit 0, and every usage ends within the true total.  This holds when the total does not
      wrap the u32 accumulator. */
  lemma {:induction false} OffsetsTile(us: seq<Usage>)
    requires |us| > 0 && SumSizes(us) < U32_MODULUS
    ensures var w := WithOffsets(us);
      && w[0].offsetBits == 0
      && (forall k :: 0 <= k < |us| ==> w[k].id == us[k].id && w[k].sizeBits == us[k].sizeBits)
      && (forall k :: 0 <= k < |us| - 1 ==> w[k + 1].offsetBits == w[k].offsetBits + w[k].sizeBits)
      && w[|us| - 1].offsetBits + w[|us| - 1].sizeBits == SumSizes(us)
      && (forall k :: 0 <= k < |us| ==> w[k].offsetBits + w[k].sizeBits <= SumSizes(us))
  {
    var w := WithOffsets(us);
    var n := |us|;
    assert us[..0] == [];
    forall k | 0 <= k < n - 1
      ensures w[k + 1].offsetBits == w[k].offsetBits + w[k].sizeBits
    {
      OffsetChain(us, k);
    }
    UsageEnd(us, n - 1);
    assert us[..n] == us;
    forall k | 0 <= k < n
      ensures w[k].offsetBits + w[k].sizeBits <= SumSizes(us)
    {
      UsageInside(us, k);
    }
  }

  /** A finished layout tiles its report: offsets are prefix sums starting at bit 0, and the
      last usage ends exactly at the report's byte size, so every field lies inside the report
      (when the total does not wrap the u32 accumulator). */
  lemma {:induction false} LayoutTiles(us: seq<Usage>)
    requires FinalizeReport(us).Some?
    requires SumSizes(us) < U32_MODULUS
    ensures var r := FinalizeReport(us).value;
      && |r.usages| == |us| > 0
      && r.usages[0].offsetBits == 0
      && (forall k :: 0 <= k < |us| ==> r.usages[k].id == us[k].id && r.usages[k].sizeBits == us[k].sizeBits)
      && (forall k :: 0 <= k < |us| - 1 ==>
            r.usages[k + 1].offsetBits == r.usages[k].offsetBits + r.usages[k].sizeBits)
      && r.usages[|us| - 1].offsetBits + r.usages[|us| - 1].sizeBits == 8 * r.size
      && (forall k :: 0 <= k < |us| ==> r.usages[k].offsetBits + r.usages[k].sizeBits <= 8 * r.size)
  {
    OffsetsTile(us);
    TotalBitsIsWrappedSum(us);
  }

  // ---------------------------------------------------------------------------
  // The whole parse

  /** mccr_parse_report_descriptor: scan, then finalise the input report and, only if that
      succeeded, the feature report; any fatal error gives no layouts at all. */
  function Parse(desc: seq<byte>): Option<Layouts>
  {
    var s := Scan(INITIAL, desc, 0);
    if s.fatal then None
    else match FinalizeReport(s.input)
      case None => None
      case Some(input) =>
        match FinalizeReport(s.feature)
        case None => None
        case Some(feature) => Some(Layouts(input, feature))
  }

  /** A successful parse has a non-empty input and feature layout, each a whole number of
      bytes, holding in order exactly the usages the scan committed. */
  lemma {:induction false} ParsedLayouts(desc: seq<byte>)
    requires Parse(desc).Some?
    ensures var l := Parse(desc).value;
      var s := Scan(INITIAL, desc, 0);
      && !s.fatal
      && |l.input.usages| == |s.input| > 0 && |l.feature.usages| == |s.feature| > 0
      && l.input.size * 8 == TotalBits(s.input) && l.feature.size * 8 == TotalBits(s.feature)
      && (forall k :: 0 <= k < |s.input| ==> l.input.usages[k].id == s.input[k].id)
      && (forall k :: 0 <= k < |s.feature| ==> l.feature.usages[k].id == s.feature[k].id)
  {
  }

  /** A descriptor whose first item is a Usage Page other than the vendor page never parses. */
  lemma {:induction false} ForeignUsagePageFails(page: u32, rest: seq<byte>)
    requires page < 0x1_0000 && page != VENDOR_USAGE_PAGE
    ensures Parse([0x06, (page % 256) as byte, (page / 256) as byte] + rest).None?
  {
    var desc: seq<byte> := [0x06, (page % 256) as byte, (page / 256) as byte] + rest;
    var data := desc[1..3];
    assert data == [(page % 256) as byte, (page / 256) as byte];
    assert LittleEndian(data) == page % 256 + 256 * (page / 256) by {
      assert data[1..][1..] == [];
    }
    var s := ShortItem(INITIAL, 0x06, ItemValue(data));
    assert s.fatal;
    assert Scan(INITIAL, desc, 0) == Scan(s, desc, 3);
  }

  /** An Input item straight after the application Collection, before any input usage has
      been committed: the source aborts there, while the corrected scan steps over the item
      with the state unchanged.  Usage Page 0xFF00, Usage 0x01, Collection (Application),
      Input is such a descriptor. */
  lemma {:induction false} InputAfterCollectionAborts(s: ParseState, value: u32, desc: seq<byte>, i: nat)
    requires !s.fatal && s.input == [] && !Collection(s, value).fatal
    requires i < |desc| && desc[i] != LONG_ITEM_PREFIX
    requires ItemType(desc[i]) == TYPE_MAIN && ItemTag(desc[i]) == TAG_INPUT
    ensures CommitAbortsAsWritten(Collection(s, value), TAG_INPUT)
    ensures Scan(Collection(s, value), desc, i) == Scan(Collection(s, value), desc, i + 1 + DataSize(desc[i]))
  {
    var c := Collection(s, value);
    ScanShortItem(c, desc, i, c);
  }

  /** A descriptor that never declares a usage for the feature report never parses. */
  lemma {:induction false} NoFeatureUsagesFails(desc: seq<byte>)
    requires Scan(INITIAL, desc, 0).feature == []
    ensures Parse(desc).None?
  {
  }

  // ---------------------------------------------------------------------------
  // Lookup

  /** Index of the first usage with the given id at or after k. */
  function FindFrom(us: seq<Usage>, id: byte, k: nat): (r: Option<nat>)
    requires k <= |us|
    ensures r.Some? ==> (k <= r.value < |us| && us[r.value].id == id as int
      && forall j :: k <= j < r.value ==> us[j].id != id as int)
    ensures r.None? ==> forall j :: k <= j < |us| ==> us[j].id != id as int
    decreases |us| - k
  {
    if k == |us| then None
    else if us[k].id == id as int then Some(k)
    else FindFrom(us, id, k + 1)
  }

  /** The first usage whose id equals the given byte, as lookup_usage_array returns it. */
  function FindUsage(us: seq<Usage>, id: byte): Option<nat>
  {
    FindFrom(us, id, 0)
  }
}
