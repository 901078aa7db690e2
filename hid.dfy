/** The report-descriptor interpreter of src/libmccr/mccr-hid.c as the source
    runs it: a parse context whose fields the item handlers update in place,
    the descriptor context it fills, and the scan and finalisation loops.
    Every method is proved against the functions of module HidSpec. */
module Hid {
  import opened Types
  import opened HidSpec

  /** mccr_report_descriptor_context_t: the input and feature layouts and a reference count. */
  class DescriptorContext {
    var refcount: int
    var input: Report
    var feature: Report

    constructor ()
      ensures refcount == 1 && input == Report([], 0) && feature == Report([], 0)
    {
      refcount := 1;
      input := Report([], 0);
      feature := Report([], 0);
    }

    /** mccr_report_descriptor_context_ref */
    method Ref()
      modifies this`refcount
      ensures refcount == old(refcount) + 1
    {
      refcount := refcount + 1;
    }

    /** mccr_report_descriptor_context_unref: `released` says the last reference was dropped. */
    method Unref() returns (released: bool)
      requires refcount >= 1
      modifies this`refcount
      ensures refcount == old(refcount) - 1
      ensures released <==> refcount == 0
    {
      released := refcount == 1;
      refcount := refcount - 1;
    }

    /** mccr_report_descriptor_get_input_report_usage */
    method GetInputReportUsage(id: byte) returns (found: bool, offsetBits: u32, sizeBits: u32)
      ensures found <==> FindUsage(input.usages, id).Some?
      ensures found ==> (var u := input.usages[FindUsage(input.usages, id).value];
        u.id == id as int && offsetBits == u.offsetBits && sizeBits == u.sizeBits)
    {
      var k;
      found, k := LookupUsageArray(input.usages, id);
      offsetBits, sizeBits := 0, 0;
      if found {
        offsetBits, sizeBits := input.usages[k].offsetBits, input.usages[k].sizeBits;
      }
    }

    /** mccr_report_descriptor_get_feature_report_usage */
    method GetFeatureReportUsage(id: byte) returns (found: bool, offsetBits: u32, sizeBits: u32)
      ensures found <==> FindUsage(feature.usages, id).Some?
      ensures found ==> (var u := feature.usages[FindUsage(feature.usages, id).value];
        u.id == id as int && offsetBits == u.offsetBits && sizeBits == u.sizeBits)
    {
      var k;
      found, k := LookupUsageArray(feature.usages, id);
      offsetBits, sizeBits := 0, 0;
      if found {
        offsetBits, sizeBits := feature.usages[k].offsetBits, feature.usages[k].sizeBits;
      }
    }

    /** mccr_report_descriptor_get_input_report_size */
    function InputReportSize(): nat
      reads this
    {
      input.size
    }

    /** mccr_report_descriptor_get_feature_report_size */
    function FeatureReportSize(): nat
      reads this
    {
      feature.size
    }
  }

  /** lookup_usage_array: the index of the first usage whose id equals the byte `id`. */
  method LookupUsageArray(usages: seq<Usage>, id: byte) returns (found: bool, index: nat)
    ensures found <==> FindUsage(usages, id).Some?
    ensures found ==> index == FindUsage(usages, id).value
  {
    var i := 0;
    while i < |usages|
      invariant i <= |usages|
      invariant FindUsage(usages, id) == FindFrom(usages, id, i)
    {
      if usages[i].id == id as int {
        return true, i;
      }
      i := i + 1;
    }
    return false, 0;
  }

  /** parse_context_t, less its logging indent and its never-written report_count. */
  class ParseContext {
    const descCtx: DescriptorContext
    var usagePage: u32
    var reportSize: u32
    var collection: u32
    var fatalError: bool
    var pending: seq<Usage>

    /** The abstract state the item handlers are specified on. */
    function State(): ParseState
      reads this, descCtx
    {
      ParseState(usagePage, reportSize, collection, fatalError, pending,
                 descCtx.input.usages, descCtx.feature.usages)
    }

    /** The parts of the descriptor context that the scan never changes. */
    function Sizes(): (int, nat, nat)
      reads this, descCtx
    {
      (descCtx.refcount, descCtx.input.size, descCtx.feature.size)
    }

    /** The zeroed parse context with a fresh descriptor context holding one reference. */
    constructor ()
      ensures State() == INITIAL
      ensures fresh(descCtx) && descCtx.refcount == 1
      ensures descCtx.input == Report([], 0) && descCtx.feature == Report([], 0)
    {
      descCtx := new DescriptorContext();
      usagePage, reportSize, collection := 0, 0, 0;
      fatalError := false;
      pending := [];
    }

    /** process_input_output_feature */
    method ProcessInputOutputFeature(tag: nat)
      modifies this, descCtx
      ensures State() == CommitPending(old(State()), tag) && Sizes() == old(Sizes())
    {
      if tag == TAG_INPUT {
        descCtx.input := descCtx.input.(usages := descCtx.input.usages + pending);
      } else if tag == TAG_FEATURE {
        descCtx.feature := descCtx.feature.(usages := descCtx.feature.usages + pending);
      }
      pending := [];
    }

    /** process_collection */
    method ProcessCollection(value: u32)
      modifies this
      ensures State() == Collection(old(State()), value)
    {
      if |pending| == 0 {
        fatalError := true;
        return;
      }
      if |pending| != 1 {
        fatalError := true;
        return;
      }
      if pending[0].id != APPLICATION_USAGE {
        fatalError := true;
        return;
      }
      if value != COLLECTION_APPLICATION {
        fatalError := true;
        return;
      }
      collection := value;
      pending := [];
    }

    /** process_collection_end */
    method ProcessCollectionEnd()
      modifies this
      ensures State() == CollectionEnd(old(State()))
    {
      if |pending| > 0 {
        fatalError := true;
      }
      collection := 0;
    }

    /** parse_item_main */
    method ParseItemMain(tag: nat, value: u32)
      modifies this, descCtx
      ensures State() == MainItem(old(State()), tag, value) && Sizes() == old(Sizes())
    {
      if tag == TAG_INPUT || tag == TAG_OUTPUT || tag == TAG_FEATURE {
        ProcessInputOutputFeature(tag);
      } else if tag == TAG_COLLECTION {
        ProcessCollection(value);
      } else if tag == TAG_END_COLLECTION {
        ProcessCollectionEnd();
      } else {
        pending := [];
      }
    }

    /** process_report_count: the product count * report size wraps at 32 bits. */
    method ProcessReportCount(count: u32)
      modifies this
      ensures State() == ReportCount(old(State()), count)
    {
      var bits: u32 := (count * reportSize) % U32_MODULUS;
      var n := |pending|;
      if n == 0 {
        return;
      }
      if n == 1 {
        pending := pending[0 := pending[0].(sizeBits := bits)];
        if bits == 0 {
          fatalError := true;
        }
        assert pending == Resized(old(pending), bits);
        return;
      }
      if bits % n != 0 {
        fatalError := true;
        return;
      }
      ResizePending(bits / n);
    }

    /** The loop of process_report_count that gives every pending usage the same size. */
    method ResizePending(single: u32)
      modifies this`pending
      ensures pending == Resized(old(pending), single)
    {
      var i := 0;
      while i < |pending|
        invariant i <= |pending| == |old(pending)|
        invariant pending[..i] == Resized(old(pending), single)[..i]
        invariant pending[i..] == old(pending)[i..]
      {
        pending := pending[i := pending[i].(sizeBits := single)];
        i := i + 1;
      }
      assert pending == pending[..i];
    }

    /** process_report_size: any size is stored; a size other than 8 is only logged. */
    method ProcessReportSize(value: u32)
      modifies this
      ensures State() == GlobalItem(old(State()), TAG_REPORT_SIZE, value)
    {
      reportSize := value;
    }

    /** process_usage_page */
    method ProcessUsagePage(value: u32)
      modifies this
      ensures State() == GlobalItem(old(State()), TAG_USAGE_PAGE, value)
    {
      usagePage := value;
      if usagePage != VENDOR_USAGE_PAGE {
        fatalError := true;
      }
    }

    /** parse_item_global: Report ID and every other global tag are ignored. */
    method ParseItemGlobal(tag: nat, value: u32)
      modifies this
      ensures State() == GlobalItem(old(State()), tag, value)
    {
      if tag == TAG_USAGE_PAGE {
        ProcessUsagePage(value);
      } else if tag == TAG_REPORT_SIZE {
        ProcessReportSize(value);
      } else if tag == TAG_REPORT_COUNT {
        ProcessReportCount(value);
      }
    }

    /** process_usage */
    method ProcessUsage(value: u32)
      modifies this
      ensures State() == LocalItem(old(State()), TAG_USAGE, value)
    {
      pending := pending + [Usage(value, 0, 0)];
    }

    /** parse_item_local */
    method ParseItemLocal(tag: nat, value: u32)
      modifies this
      ensures State() == LocalItem(old(State()), tag, value)
    {
      if tag == TAG_USAGE {
        ProcessUsage(value);
      }
    }

    /** parse_report_descriptor: walks the items from the start until the end of the
        descriptor, a long item without its length byte, or the first fatal error. */
    method ParseReportDescriptor(desc: seq<byte>)
      modifies this, descCtx
      ensures State() == Scan(old(State()), desc, 0) && Sizes() == old(Sizes())
    {
      var i: nat := 0;
      while i < |desc| && !fatalError
        invariant Scan(State(), desc, i) == Scan(old(State()), desc, 0)
        invariant Sizes() == old(Sizes())
        decreases |desc| - i
      {
        var prefix := desc[i];
        if prefix == LONG_ITEM_PREFIX {
          if i + 1 >= |desc| {
            break;
          }
          i := NextItem(desc, i);
          continue;
        }
        var size := DataSize(prefix);
        ghost var before := State();
        if i + size < |desc| {
          ParseShortItem(prefix, ItemValue(desc[i + 1 .. i + 1 + size]));
        }
        ScanShortItem(before, desc, i, State());
        i := i + size + 1;
      }
    }

    /** The switch of parse_report_descriptor on a short item's type; reserved items are
        only logged. */
    method ParseShortItem(prefix: byte, value: u32)
      modifies this, descCtx
      ensures State() == ShortItem(old(State()), prefix, value) && Sizes() == old(Sizes())
    {
      var kind := ItemType(prefix);
      var tag := ItemTag(prefix);
      if kind == TYPE_MAIN {
        ParseItemMain(tag, value);
      } else if kind == TYPE_GLOBAL {
        ParseItemGlobal(tag, value);
      } else if kind == TYPE_LOCAL {
        ParseItemLocal(tag, value);
      }
    }

    /** process_report on the input (feature == false) or feature layout. */
    method ProcessReport(feature: bool)
      modifies this, descCtx
      ensures usagePage == old(usagePage) && reportSize == old(reportSize)
      ensures collection == old(collection) && pending == old(pending)
      ensures descCtx.refcount == old(descCtx.refcount)
      ensures !feature ==> (descCtx.feature == old(descCtx.feature)
        && Finished(fatalError, descCtx.input) == FinishReport(old(fatalError), old(descCtx.input)))
      ensures feature ==> (descCtx.input == old(descCtx.input)
        && Finished(fatalError, descCtx.feature) == FinishReport(old(fatalError), old(descCtx.feature)))
    {
      if fatalError {
        return;
      }
      var report := if feature then descCtx.feature else descCtx.input;
      if |report.usages| == 0 {
        fatalError := true;
        return;
      }
      var usages, offsetBits := AssignOffsets(report.usages);
      report := report.(usages := usages);
      if offsetBits % 8 != 0 {
        fatalError := true;
      } else {
        report := report.(size := offsetBits / 8);
      }
      if feature {
        descCtx.feature := report;
      } else {
        descCtx.input := report;
      }
    }

    /** The loop of process_report: each usage's offset is the running total of the sizes
        before it, summed in 32 bits. */
    static method AssignOffsets(us: seq<Usage>) returns (r: seq<Usage>, total: u32)
      ensures r == WithOffsets(us) && total == TotalBits(us)
    {
      r, total := us, 0;
      var i := 0;
      while i < |us|
        invariant i <= |us| == |r|
        invariant total == TotalBits(us[..i])
        invariant forall k :: 0 <= k < i ==> r[k] == WithOffsets(us)[k]
        invariant r[i..] == us[i..]
      {
        r := r[i := r[i].(offsetBits := total)];
        assert us[..i + 1][..i] == us[..i];
        total := (total + us[i].sizeBits) % U32_MODULUS;
        i := i + 1;
      }
      assert us[..i] == us;
    }

    /** parse_context_clear: drops the parse context's reference and its pending usages. */
    method Clear()
      requires descCtx.refcount >= 1
      modifies this`pending, descCtx`refcount
      ensures pending == [] && descCtx.refcount == old(descCtx.refcount) - 1
    {
      var _ := descCtx.Unref();
      pending := [];
    }
  }

  /** mccr_parse_report_descriptor: FAILED and no context on any fatal error; otherwise OK and
      a new context holding the only reference and the two finished layouts. */
  method ParseReportDescriptorContext(desc: seq<byte>) returns (status: Status, ctx: DescriptorContext?)
    ensures status == Ok || status == Failed
    ensures status == Ok <==> Parse(desc).Some?
    ensures status == Failed ==> ctx == null
    ensures status == Ok ==> (ctx != null && fresh(ctx) && ctx.refcount == 1
      && ctx.input == Parse(desc).value.input && ctx.feature == Parse(desc).value.feature)
  {
    var pc := new ParseContext();
    pc.ParseReportDescriptor(desc);
    ghost var scanned := pc.State();
    assert scanned == Scan(INITIAL, desc, 0);
    pc.ProcessReport(false);
    pc.ProcessReport(true);
    if pc.fatalError {
      pc.Clear();
      return Failed, null;
    }
    pc.descCtx.Ref();
    ctx := pc.descCtx;
    pc.Clear();
    status := Ok;
  }
}
