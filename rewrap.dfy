/** `rewrap`: reads a source image and writes it again, either part by part (passing the
    subimages of a multi-part source through, or splitting a flat source into layers) or as a
    single part, with a new region, metadata and compression. */
module Rewrap {
  import opened Wrappers
  import opened Strings
  import opened Image
  import opened Metadata
  import opened Channels
  import opened Split
  import opened Output

  /** A source as OpenImageIO delivers it: each subimage's spec well formed. A file that does
      not load has no subimage at all, and `rewrap` goes on with the empty native spec. */
  predicate Loaded(img: SourceImage)
  {
    forall i :: 0 <= i < |img.subimages| ==> WellFormed(img.subimages[i])
  }

  /** The region the wrapper writes: the data window of subimage 0, or the region of its
      non-empty pixels when cropping. The same region is used for every subimage. */
  function Region(img: SourceImage, opts: Options): Roi
  {
    if opts.autocrop then img.nonzero else NativeSpec(img).roi
  }

  /** The parts to write and the region in force once they are known. No specs means a
      single-part write. */
  datatype Plan = Plan(roi: Roi, specs: seq<Spec>, pixels: seq<Pixels>)

  /** The subimages of a multi-part source, passed through: each spec updated, each buffer the
      whole subimage cut to the region. */
  function PassThrough(img: SourceImage, roi: Roi, rmManifest: bool, compression: Option<string>): Plan
  {
    var n := |img.subimages|;
    Plan(roi, seq(n, i requires 0 <= i < n => Updated(img.subimages[i], roi, rmManifest, compression)),
         seq(n, i requires 0 <= i < n => Pixels(i, None, roi)))
  }

  /** The parts `rewrap` writes: the subimages of a multi-part source, else the layers of a flat
      source when `multipart` is asked, else none. */
  function RewrapPlan(img: SourceImage, opts: Options): Plan
    requires Loaded(img)
  {
    var roi := Region(img, opts);
    var compression := Override(opts.compression);
    if |img.subimages| > 1 then PassThrough(img, roi, opts.rmManifest, compression)
    else if opts.multipart then
      var parts := SplitPlan(NativeSpec(img), compression, opts.rmManifest, opts.fixChannels, roi);
      Plan(parts.roi, parts.specs, parts.pixels)
    else Plan(roi, [], [])
  }

  /** The spec of a single-part write: subimage 0's spec, updated. */
  function SingleSpec(img: SourceImage, opts: Options, roi: Roi): Spec
  {
    Updated(NativeSpec(img), roi, opts.rmManifest, Override(opts.compression))
  }

  /** The calls `rewrap` makes on the writer and what it returns. */
  function RewrapOutcome(img: SourceImage, opts: Options, accepts: nat -> bool): Outcome
    requires Loaded(img)
  {
    var plan := RewrapPlan(img, opts);
    if |plan.specs| > 0 then MultiPart(plan.specs, plan.pixels, accepts)
    else SinglePart(SingleSpec(img, opts, plan.roi), Pixels(0, None, plan.roi), accepts)
  }

  lemma PassThroughSizes(img: SourceImage, roi: Roi, rmManifest: bool, compression: Option<string>)
    ensures var plan := PassThrough(img, roi, rmManifest, compression);
            |plan.specs| == |plan.pixels| == |img.subimages|
  {
  }

  /** There are as many pixel buffers as specs. */
  lemma PlanSizes(img: SourceImage, opts: Options)
    requires Loaded(img)
    ensures |RewrapPlan(img, opts).specs| == |RewrapPlan(img, opts).pixels|
  {
    if |img.subimages| > 1 {
      PassThroughSizes(img, Region(img, opts), opts.rmManifest, Override(opts.compression));
    }
  }

  /** Two call logs that open and write the same first `k` parts and then make the same call
      are the same log. */
  lemma SameCalls(a: seq<Event>, b: seq<Event>, specs: seq<Spec>, pixels: seq<Pixels>, k: nat)
    requires k <= |specs| == |pixels|
    requires PartsWritten(a, specs, pixels, k) && PartsWritten(b, specs, pixels, k)
    requires |a| == |b| == 2 * k + 1 && a[2 * k] == b[2 * k]
    ensures a == b
  {
    forall x | 0 <= x < |a|
      ensures a[x] == b[x]
    {
      if x < 2 * k {
        var j := x / 2;
        assert j < k && (x == 2 * j || x == 2 * j + 1);
        assert a[2 * j] == PartOpen(specs, j, true) == b[2 * j];
        assert a[2 * j + 1] == Wrote(pixels[j]) == b[2 * j + 1];
      }
    }
  }

  /** The compression override the `compression` option stands for, computed as `rewrap` does:
      `keep` is turned into no option first, and an empty option does not count. */
  method CompressionOption(compression: Option<string>) returns (c: Option<string>)
    ensures c == Override(compression)
  {
    var option := compression;
    if option == Some("keep") {
      option := None;
    }
    c := None;
    if option.Some? && option.value != "" {
      c := Some(Strip(option.value, '\''));
    }
  }

  /** The parts loop over the subimages of a multi-part source. */
  method PassSubimages(img: SourceImage, roi: Roi, rmManifest: bool, compression: Option<string>)
    returns (specs: seq<Spec>, pixels: seq<Pixels>)
    ensures Plan(roi, specs, pixels) == PassThrough(img, roi, rmManifest, compression)
  {
    specs := [];
    pixels := [];
    for i := 0 to |img.subimages|
      invariant |specs| == |pixels| == i
      invariant forall j :: 0 <= j < i ==>
                  specs[j] == Updated(img.subimages[j], roi, rmManifest, compression) && pixels[j] == Pixels(j, None, roi)
    {
      var spec := UpdateSpec(img.subimages[i], roi, rmManifest, compression);
      specs := specs + [spec];
      pixels := pixels + [Pixels(i, None, roi)];
    }
    var plan := PassThrough(img, roi, rmManifest, compression);
    assert specs == plan.specs;
    assert pixels == plan.pixels;
  }

  /** Writes the parts: one open with every spec, then part by part, appending every part but
      the first, giving up at the first failed open; closes after the last part. */
  method WriteParts(out: Writer, specs: seq<Spec>, pixels: seq<Pixels>) returns (ok: bool)
    requires 0 < |pixels| == |specs| && out.opens == 0 && out.log == []
    modifies out
    ensures Outcome(out.log, ok) == MultiPart(specs, pixels, out.accepts)
  {
    ok := out.Open(CreateParts, specs);
    if !ok {
      return;
    }
    for i := 0 to |pixels|
      invariant out.opens == (if i == 0 then 1 else i)
      invariant forall j :: 0 <= j < i ==> out.accepts(j)
      invariant i == 0 ==> out.log == [Opened(CreateParts, specs, true)]
      invariant i > 0 ==> |out.log| == 2 * i && PartsWritten(out.log, specs, pixels, i)
    {
      if i != 0 {
        ok := out.Open(AppendSubimage, [specs[i]]);
        if !ok {
          MultiPartRejected(specs, pixels, out.accepts, i);
          SameCalls(out.log, MultiPart(specs, pixels, out.accepts).events, specs, pixels, i);
          return;
        }
      }
      out.WriteImage(pixels[i]);
    }
    out.Close();
    ok := true;
    MultiPartAccepted(specs, pixels, out.accepts);
    SameCalls(out.log, MultiPart(specs, pixels, out.accepts).events, specs, pixels, |pixels|);
  }

  /** The parts `rewrap` collects once the region and the compression are chosen: the
      subimages of a multi-part source, else the layers of a flat source when `multipart` is
      asked, else none. */
  method CollectParts(img: SourceImage, opts: Options, roi: Roi, compression: Option<string>) returns (plan: Plan)
    requires Loaded(img) && roi == Region(img, opts) && compression == Override(opts.compression)
    ensures plan == RewrapPlan(img, opts)
  {
    plan := Plan(roi, [], []);
    if |img.subimages| > 1 {
      var specs, pixels := PassSubimages(img, roi, opts.rmManifest, compression);
      plan := Plan(roi, specs, pixels);
    } else if opts.multipart {
      var parts := SplitSubimages(NativeSpec(img), compression, opts.rmManifest, opts.fixChannels, roi);
      plan := Plan(parts.roi, parts.specs, parts.pixels);
    }
  }

  /** Writes a single part: creates the file with `spec`, writes the whole buffer and closes,
      giving up when the open fails. */
  method WriteSingle(out: Writer, spec: Spec, roi: Roi) returns (ok: bool)
    requires out.opens == 0 && out.log == []
    modifies out
    ensures Outcome(out.log, ok) == SinglePart(spec, Pixels(0, None, roi), out.accepts)
  {
    ok := out.Open(Create, [spec]);
    if !ok {
      return;
    }
    out.WriteImage(Pixels(0, None, roi));
    out.Close();
    ok := true;
  }

  /** `rewrap`: chooses the region and the compression, collects the parts, and writes them
      through a new writer, or writes subimage 0 as a single part when there are none. */
  method RewrapImage(img: SourceImage, opts: Options, accepts: nat -> bool) returns (ok: bool, out: Writer)
    requires Loaded(img)
    ensures fresh(out) && out.accepts == accepts
    ensures Outcome(out.log, ok) == RewrapOutcome(img, opts, accepts)
  {
    var roi := NativeSpec(img).roi;
    if opts.autocrop {
      roi := img.nonzero;
    }
    var compression := CompressionOption(opts.compression);
    var plan := CollectParts(img, opts, roi, compression);
    PlanSizes(img, opts);
    out := new Writer(accepts);
    if |plan.specs| > 0 {
      ok := WriteParts(out, plan.specs, plan.pixels);
    } else {
      var spec := UpdateSpec(NativeSpec(img), plan.roi, opts.rmManifest, compression);
      ok := WriteSingle(out, spec, plan.roi);
    }
  }

  /** A multi-part source is passed through subimage by subimage whether or not `multipart` is
      asked: every subimage keeps its channels and formats, is given the region of subimage 0
      and the updated attributes, and is written whole. */
  lemma RewrapPassesThrough(img: SourceImage, opts: Options)
    requires Loaded(img) && |img.subimages| > 1
    ensures var plan := RewrapPlan(img, opts);
            RewrapPlan(img, opts.(multipart := !opts.multipart)) == plan
            && |plan.specs| == |plan.pixels| == |img.subimages| && plan.roi == Region(img, opts)
            && forall i :: 0 <= i < |img.subimages| ==>
                 var s := img.subimages[i];
                 plan.specs[i].channelNames == s.channelNames && plan.specs[i].nchannels == s.nchannels
                 && plan.specs[i].format == s.format && plan.specs[i].channelFormats == s.channelFormats
                 && plan.specs[i].width == s.width && plan.specs[i].height == s.height
                 && plan.specs[i].roi == plan.roi
                 && plan.specs[i].attribs == UpdatedAttributes(s.attribs, opts.rmManifest, Override(opts.compression))
                 && plan.pixels[i] == Pixels(i, None, plan.roi)
  {
  }

  /** A flat source with channels is split when `multipart` is asked: one part per layer, the
      parts' buffers hold every channel of the source once and in order, and the region has its
      channel end set to 4. */
  lemma RewrapSplitsFlat(img: SourceImage, opts: Options)
    requires Loaded(img) && |img.subimages| == 1 && opts.multipart && img.subimages[0].nchannels > 0
    ensures var plan := RewrapPlan(img, opts);
            var src := img.subimages[0];
            |plan.specs| == |plan.pixels| == |Runs(Keys(src.channelNames))| > 0
            && PixelChannels(plan.pixels) == src.channelNames
            && plan.roi == Region(img, opts).(chend := 4)
  {
    var src := img.subimages[0];
    var c := Override(opts.compression);
    RunsContiguous(Keys(src.channelNames));
    SplitKeepsChannels(src, c, opts.rmManifest, opts.fixChannels, Region(img, opts));
  }

  /** A source with at most one subimage is written as one part when `multipart` is not asked,
      or when it has no channel to split: the native spec, updated, and its whole buffer. This
      includes a file that did not load, whose native spec is the empty one. */
  lemma RewrapSinglePart(img: SourceImage, opts: Options, accepts: nat -> bool)
    requires Loaded(img) && |img.subimages| <= 1 && (!opts.multipart || NativeSpec(img).nchannels == 0)
    ensures var roi := if opts.multipart then Region(img, opts).(chend := 4) else Region(img, opts);
            var o := RewrapOutcome(img, opts, accepts);
            o == SinglePart(SingleSpec(img, opts, roi), Pixels(0, None, roi), accepts)
            && (o.ok <==> accepts(0))
            && (o.ok ==> o.events == [Opened(Create, [SingleSpec(img, opts, roi)], true), Wrote(Pixels(0, None, roi)), Closed])
  {
  }

  /** A file that did not load is written as one part from the empty spec, with the region the
      options choose (its channel end set to 4 when `multipart` is asked). */
  lemma RewrapUnloaded(img: SourceImage, opts: Options, accepts: nat -> bool)
    requires |img.subimages| == 0
    ensures var roi := if opts.multipart then Region(img, opts).(chend := 4) else Region(img, opts);
            RewrapOutcome(img, opts, accepts)
            == SinglePart(Updated(EmptySpec, roi, opts.rmManifest, Override(opts.compression)), Pixels(0, None, roi), accepts)
  {
    RewrapSinglePart(img, opts, accepts);
  }

  /** How many open calls `rewrap` makes at most: one per part, or one for a single part. */
  function OpenCalls(img: SourceImage, opts: Options): nat
    requires Loaded(img)
  {
    var n := |RewrapPlan(img, opts).specs|;
    if n > 0 then n else 1
  }

  /** The outcome of writing `plan`, or the single part `spec` when it has no parts: success
      exactly when every open call succeeds, then closed last with every buffer written. */
  lemma PlanResult(plan: Plan, spec: Spec, accepts: nat -> bool)
    requires |plan.specs| == |plan.pixels|
    ensures var o := if |plan.specs| > 0 then MultiPart(plan.specs, plan.pixels, accepts)
                     else SinglePart(spec, Pixels(0, None, plan.roi), accepts);
            var n := if |plan.specs| > 0 then |plan.specs| else 1;
            (o.ok <==> forall i :: 0 <= i < n ==> accepts(i))
            && (o.ok <==> Closed in o.events)
            && (o.ok ==> o.events[|o.events| - 1] == Closed
                         && Writes(o.events) == if |plan.specs| > 0 then plan.pixels else [Pixels(0, None, plan.roi)])
  {
    if |plan.specs| > 0 {
      MultiPartOk(plan.specs, plan.pixels, accepts);
      MultiPartClosedIffOk(plan.specs, plan.pixels, accepts);
      MultiPartWrites(plan.specs, plan.pixels, accepts);
    } else {
      SinglePartCalls(spec, Pixels(0, None, plan.roi), accepts);
    }
  }

  /** `rewrap` reports success exactly when every open call it needs succeeds; it then closes
      the file as its last call and has written every planned buffer in order. On failure it
      never closes the file. */
  lemma RewrapResult(img: SourceImage, opts: Options, accepts: nat -> bool)
    requires Loaded(img)
    ensures var o := RewrapOutcome(img, opts, accepts);
            var plan := RewrapPlan(img, opts);
            (o.ok <==> forall i :: 0 <= i < OpenCalls(img, opts) ==> accepts(i))
            && (o.ok <==> Closed in o.events)
            && (o.ok ==> o.events[|o.events| - 1] == Closed
                         && Writes(o.events) == if |plan.specs| > 0 then plan.pixels else [Pixels(0, None, plan.roi)])
  {
    PlanSizes(img, opts);
    PlanResult(RewrapPlan(img, opts), SingleSpec(img, opts, RewrapPlan(img, opts).roi), accepts);
  }

  /** When the first open fails, `rewrap` makes that one call, writes nothing and reports
      failure. That call creates the file from the tuple of part specs when there are parts,
      and from the single spec otherwise. */
  lemma RewrapFirstOpenFails(img: SourceImage, opts: Options, accepts: nat -> bool)
    requires Loaded(img) && !accepts(0)
    ensures var o := RewrapOutcome(img, opts, accepts);
            !o.ok && |o.events| == 1 && o.events[0].Opened? && Writes(o.events) == []
            && o.events[0].mode == (if |RewrapPlan(img, opts).specs| > 0 then CreateParts else Create)
  {
    var o := RewrapOutcome(img, opts, accepts);
    assert o.events[..0] == [];
  }

  /** The specs `rewrap` may hand to the writer: the parts' specs, or the single-part spec. */
  function Written(img: SourceImage, opts: Options): seq<Spec>
    requires Loaded(img)
  {
    var plan := RewrapPlan(img, opts);
    if |plan.specs| > 0 then plan.specs else [SingleSpec(img, opts, plan.roi)]
  }

  lemma RewrapOpensAmong(img: SourceImage, opts: Options, accepts: nat -> bool)
    requires Loaded(img)
    ensures OpensAmong(RewrapOutcome(img, opts, accepts).events, Written(img, opts))
  {
    var plan := RewrapPlan(img, opts);
    PlanSizes(img, opts);
    if |plan.specs| > 0 {
      MultiPartOpensAmong(plan.specs, plan.pixels, accepts);
    } else {
      SinglePartCalls(SingleSpec(img, opts, plan.roi), Pixels(0, None, plan.roi), accepts);
    }
  }

  lemma WrittenDropsManifest(img: SourceImage, opts: Options)
    requires Loaded(img) && opts.rmManifest
    ensures forall s, a :: s in Written(img, opts) && a in s.attribs ==> !IsManifest(a.name)
  {
    var plan := RewrapPlan(img, opts);
    var c := Override(opts.compression);
    UpdatedDropsManifest(NativeSpec(img).attribs, c);
    if |img.subimages| > 1 {
      forall s, a | s in Written(img, opts) && a in s.attribs
        ensures !IsManifest(a.name)
      {
        var i :| 0 <= i < |plan.specs| && plan.specs[i] == s;
        UpdatedDropsManifest(img.subimages[i].attribs, c);
      }
    } else if opts.multipart {
      SplitDropsManifest(NativeSpec(img), c, opts.fixChannels, Region(img, opts));
    }
  }

  /** With the manifest switch, no spec handed to the writer carries a manifest attribute. */
  lemma RewrapDropsManifest(img: SourceImage, opts: Options, accepts: nat -> bool)
    requires Loaded(img) && opts.rmManifest
    ensures forall e, s, a ::
              (e in RewrapOutcome(img, opts, accepts).events && e.Opened? && s in e.specs && a in s.attribs)
              ==> !IsManifest(a.name)
  {
    RewrapOpensAmong(img, opts, accepts);
    WrittenDropsManifest(img, opts);
  }

  /** The compression attribute a written spec carries for override `c`: `compression` as the
      split sets it, or `Compression` as `update_specs` sets it. */
  predicate Compressed(s: Spec, c: string)
  {
    Lookup(s.attribs, "compression") == Some(Attribute("compression", StringType, Text(c)))
    || Lookup(s.attribs, "Compression") == Some(Attribute("Compression", StringType, Text(c)))
  }

  lemma SplitCompressed(src: Spec, c: string, rmManifest: bool, fixChannels: bool, roi: Roi)
    requires WellFormed(src)
    ensures forall s :: s in SplitPlan(src, Some(c), rmManifest, fixChannels, roi).specs ==> Compressed(s, c)
  {
    var parts := SplitPlan(src, Some(c), rmManifest, fixChannels, roi);
    forall s | s in parts.specs
      ensures Compressed(s, c)
    {
      var i :| 0 <= i < |parts.specs| && parts.specs[i] == s;
      if i == 0 {
        SplitFirstMetadata(src, Some(c), rmManifest, fixChannels, roi);
      } else {
        SplitLaterMetadata(src, Some(c), rmManifest, fixChannels, roi, i);
      }
    }
  }

  /** With a compression override, every spec handed to the writer carries it, with its quotes
      stripped. */
  lemma RewrapCompression(img: SourceImage, opts: Options, accepts: nat -> bool)
    requires Loaded(img) && Override(opts.compression).Some?
    ensures forall e, s :: e in RewrapOutcome(img, opts, accepts).events && e.Opened? && s in e.specs
                           ==> Compressed(s, Strip(opts.compression.value, '\''))
  {
    RewrapOpensAmong(img, opts, accepts);
    var c := Override(opts.compression).value;
    var plan := RewrapPlan(img, opts);
    UpdatedWithOverride(NativeSpec(img).attribs, opts.rmManifest, c);
    if |img.subimages| > 1 {
      forall s | s in Written(img, opts)
        ensures Compressed(s, c)
      {
        var i :| 0 <= i < |plan.specs| && plan.specs[i] == s;
        UpdatedWithOverride(img.subimages[i].attribs, opts.rmManifest, c);
      }
    } else if opts.multipart {
      SplitCompressed(NativeSpec(img), c, opts.rmManifest, opts.fixChannels, Region(img, opts));
    }
  }

  /** `keep` leaves the compression alone, as no option does. */
  lemma RewrapKeep(img: SourceImage, opts: Options, accepts: nat -> bool)
    requires Loaded(img)
    ensures RewrapOutcome(img, opts.(compression := Some("keep")), accepts)
            == RewrapOutcome(img, opts.(compression := None), accepts)
  {
  }
}
