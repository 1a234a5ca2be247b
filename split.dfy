/** `split_subimages`: turns a flat image whose channels are named after layers into one subimage
    per layer, each with its own spec, channel names, metadata and pixel buffer. */
module Split {
  import opened Wrappers
  import opened Strings
  import opened Image
  import opened Metadata
  import opened Channels

  /** The subimages a split produces, as the wrapper keeps them in its properties: the region
      (its channel end forced to 4), and one spec, pixel buffer and name per subimage. */
  datatype Parts = Parts(roi: Roi, specs: seq<Spec>, pixels: seq<Pixels>, names: seq<string>)

  /** Every run lies inside channels `0` to `n - 1` and is not empty. */
  predicate Fits(runs: seq<Run>, n: nat)
  {
    forall i :: 0 <= i < |runs| ==> runs[i].subStart <= runs[i].subEnd < n
  }

  lemma {:induction false} ClosedFits(keys: seq<string>, q: nat)
    requires q < |keys|
    ensures Fits(Closed(keys, q), q)
  {
    if q > 0 {
      ClosedFits(keys, q - 1);
    }
  }

  lemma RunsFit(keys: seq<string>)
    ensures Fits(Runs(keys), |keys|)
  {
    if |keys| > 0 {
      var q := if |keys| >= 2 then |keys| - 2 else 0;
      ClosedFits(keys, q);
    }
  }

  /** The compression attribute a subimage of the split is given: the override when there is
      one, else a copy of the source's `compression` attribute; with neither, none is set. */
  function CompressionAttribute(src: Spec, compression: Option<string>): (r: Option<Attribute>)
    ensures r.Some? ==> r.value.name == "compression"
    ensures compression.Some? ==> r == Some(Attribute("compression", StringType, Text(compression.value)))
    ensures compression.None? ==> r == Lookup(src.attribs, "compression")
  {
    match compression
    case Some(c) => Some(Attribute("compression", StringType, Text(c)))
    case None => Lookup(src.attribs, "compression")
  }

  /** The attribute naming a subimage. */
  function NameAttribute(name: string): Attribute
  {
    Attribute("name", StringType, Text(name))
  }

  /** The extra attributes of the subimage for `run`: the source's attributes when the run
      starts at channel 0, then the compression, then the name. */
  function RunAttributes(src: Spec, run: Run, compression: Option<string>, rmManifest: bool): seq<Attribute>
  {
    var copied := if run.subStart == 0 then CopiedAttributes(src.attribs, rmManifest) else [];
    var compressed := match CompressionAttribute(src, compression)
                      case Some(a) => SetAttribute(copied, a)
                      case None => copied;
    SetAttribute(compressed, NameAttribute(run.name))
  }

  /** The spec of the subimage for `run`: the source's size and display window, one channel per
      channel of the run, the pixel format of its first channel, the region, and the run's
      channel names, renamed when asked. */
  function RunSpec(src: Spec, run: Run, compression: Option<string>, rmManifest: bool, fixChannels: bool,
                   roi: Roi): Spec
    requires WellFormed(src) && run.subStart <= run.subEnd < |src.channelNames|
  {
    Spec(src.width, src.height, src.depth, src.full, run.subEnd - run.subStart + 1,
         if |src.channelFormats| > 0 then src.channelFormats[run.subStart] else src.format,
         [], roi, OutputNames(src.channelNames[run.subStart..run.subEnd + 1], fixChannels),
         RunAttributes(src, run, compression, rmManifest))
  }

  /** The pixels of the subimage for `run`: subimage 0 of the source, reduced to the run's
      original channel names and cut to the region. */
  function RunPixels(src: Spec, run: Run, roi: Roi): Pixels
    requires run.subStart <= run.subEnd < |src.channelNames|
  {
    Pixels(0, Some(src.channelNames[run.subStart..run.subEnd + 1]), roi)
  }

  /** What the split gives for source spec `src`: one subimage per run of the channel keys. */
  function SplitPlan(src: Spec, compression: Option<string>, rmManifest: bool, fixChannels: bool,
                     roi: Roi): (p: Parts)
    requires WellFormed(src)
    ensures |p.specs| == |p.pixels| == |p.names| == |Runs(Keys(src.channelNames))|
  {
    var runs := Runs(Keys(src.channelNames));
    var roi4 := roi.(chend := 4);
    RunsFit(Keys(src.channelNames));
    Parts(roi4,
          seq(|runs|, i requires 0 <= i < |runs| => RunSpec(src, runs[i], compression, rmManifest, fixChannels, roi4)),
          seq(|runs|, i requires 0 <= i < |runs| => RunPixels(src, runs[i], roi4)),
          seq(|runs|, i requires 0 <= i < |runs| => runs[i].name))
  }

  /** The runs emitted before position `p` of the channel loop, and all of them once the loop
      is over. */
  function Emitted(keys: seq<string>, p: nat): seq<Run>
    requires p <= |keys|
  {
    if p == |keys| then Runs(keys) else if p == 0 then [] else Closed(keys, p - 1)
  }

  /** How the emitted runs grow at position `p`: by the run a boundary closes, by the open run at
      the last channel, and not at all elsewhere. */
  lemma EmittedStep(keys: seq<string>, p: nat)
    requires p < |keys|
    ensures p + 1 < |keys| ==>
              Emitted(keys, p + 1) == Emitted(keys, p) + (if Boundary(keys, p) then [Run(LastStart(keys, p - 1), p - 1, keys[p - 1])] else [])
    ensures p + 1 == |keys| ==>
              Emitted(keys, p + 1) == Emitted(keys, p) + [Run(if p == 0 then 0 else LastStart(keys, p - 1), p, if p == 0 then "" else keys[p - 1])]
  {
  }

  /** The metadata of one subimage, set attribute by attribute as the loop body sets it: the
      source's attributes for the first subimage, then the compression, then the name. */
  method SubimageAttributes(src: Spec, run: Run, compression: Option<string>, rmManifest: bool)
    returns (attrs: seq<Attribute>)
    ensures attrs == RunAttributes(src, run, compression, rmManifest)
  {
    attrs := [];
    if run.subStart == 0 {
      attrs := CopyExtraAttributes(src.attribs, rmManifest);
    }
    ghost var copied := attrs;
    if compression.Some? {
      attrs := SetAttribute(attrs, Attribute("compression", StringType, Text(compression.value)));
    } else {
      var found := Lookup(src.attribs, "compression");
      if found.Some? {
        attrs := SetAttribute(attrs, found.value);
      }
    }
    assert attrs == match CompressionAttribute(src, compression)
                    case Some(a) => SetAttribute(copied, a)
                    case None => copied;
    attrs := SetAttribute(attrs, NameAttribute(run.name));
  }

  /** One subimage of the split, built as the loop body builds it: the spec field by field, the
      channel names renamed one by one. */
  method BuildSubimage(src: Spec, subStart: nat, subEnd: nat, recentSub: string, compression: Option<string>,
                       rmManifest: bool, fixChannels: bool, roi: Roi) returns (spec: Spec, pixels: Pixels)
    requires WellFormed(src) && subStart <= subEnd < |src.channelNames|
    ensures spec == RunSpec(src, Run(subStart, subEnd, recentSub), compression, rmManifest, fixChannels, roi)
    ensures pixels == RunPixels(src, Run(subStart, subEnd, recentSub), roi)
  {
    var typedesc := if |src.channelFormats| > 0 then src.channelFormats[subStart] else src.format;
    var attrs := SubimageAttributes(src, Run(subStart, subEnd, recentSub), compression, rmManifest);
    var srcChannelNames := src.channelNames[subStart..subEnd + 1];
    var dstChannelNames := srcChannelNames;
    if fixChannels {
      dstChannelNames := FixChannelNames(srcChannelNames);
    }
    spec := Spec(src.width, src.height, src.depth, src.full, subEnd - subStart + 1, typedesc, [], roi,
                 dstChannelNames, attrs);
    ghost var want := RunSpec(src, Run(subStart, subEnd, recentSub), compression, rmManifest, fixChannels, roi);
    assert spec.attribs == want.attribs;
    assert spec.channelNames == want.channelNames;
    assert spec.format == want.format;
    assert spec.nchannels == want.nchannels;
    assert spec.roi == want.roi;
    pixels := Pixels(0, Some(srcChannelNames), roi);
  }

  /** A position of the channel loop where a subimage is closed, in the wrapper's counters: the
      subimage spans the channels `subStart` to `subEnd` the loop computes from its counters,
      and the open layer restarts. */
  lemma LoopClose(keys: seq<string>, p: nat, recentSub: string, subChCount: int, subStart: int, subEnd: int,
                  emitted: seq<Run>)
    requires p < |keys| && emitted == Emitted(keys, p)
    requires recentSub == (if p == 0 then "" else keys[p - 1])
    requires subChCount == (if p == 0 then 0 else p - LastStart(keys, p - 1))
    requires (recentSub != "" && keys[p] != recentSub) || p + 1 == |keys|
    requires subEnd == if p + 1 == |keys| then p else p - 1
    requires subStart == subEnd + 1 - (if p + 1 == |keys| then subChCount + 1 else subChCount)
    ensures 0 <= subStart <= subEnd < |keys|
    ensures emitted + [Run(subStart, subEnd, recentSub)] == Emitted(keys, p + 1)
    ensures p + 1 < |keys| ==> 1 == p + 1 - LastStart(keys, p)
  {
    EmittedStep(keys, p);
  }

  /** A position of the channel loop where no subimage is closed: the open layer grows by one. */
  lemma LoopOpen(keys: seq<string>, p: nat, recentSub: string, subChCount: int)
    requires p < |keys|
    requires recentSub == (if p == 0 then "" else keys[p - 1])
    requires subChCount == (if p == 0 then 0 else p - LastStart(keys, p - 1))
    requires !((recentSub != "" && keys[p] != recentSub) || p + 1 == |keys|)
    ensures Emitted(keys, p + 1) == Emitted(keys, p)
    ensures subChCount + 1 == p + 1 - LastStart(keys, p)
  {
    EmittedStep(keys, p);
  }

  /** The subimages for `runs`, built run after run as the loop builds them. */
  function Build(src: Spec, runs: seq<Run>, compression: Option<string>, rmManifest: bool, fixChannels: bool,
                 roi: Roi): Parts
    requires WellFormed(src) && Fits(runs, |src.channelNames|)
  {
    if |runs| == 0 then Parts(roi, [], [], [])
    else
      var prev := Build(src, runs[..|runs| - 1], compression, rmManifest, fixChannels, roi);
      var run := runs[|runs| - 1];
      Parts(roi, prev.specs + [RunSpec(src, run, compression, rmManifest, fixChannels, roi)],
            prev.pixels + [RunPixels(src, run, roi)], prev.names + [run.name])
  }

  lemma BuildSnoc(src: Spec, runs: seq<Run>, run: Run, compression: Option<string>, rmManifest: bool,
                  fixChannels: bool, roi: Roi)
    requires WellFormed(src) && Fits(runs, |src.channelNames|) && run.subStart <= run.subEnd < |src.channelNames|
    ensures Fits(runs + [run], |src.channelNames|)
    ensures var prev := Build(src, runs, compression, rmManifest, fixChannels, roi);
            Build(src, runs + [run], compression, rmManifest, fixChannels, roi)
            == Parts(roi, prev.specs + [RunSpec(src, run, compression, rmManifest, fixChannels, roi)],
                     prev.pixels + [RunPixels(src, run, roi)], prev.names + [run.name])
  {
    assert (runs + [run])[..|runs|] == runs;
  }

  /** Building gives one spec, one buffer and one name per run. */
  lemma {:induction false} BuildSizes(src: Spec, runs: seq<Run>, compression: Option<string>, rmManifest: bool,
                                      fixChannels: bool, roi: Roi)
    requires WellFormed(src) && Fits(runs, |src.channelNames|)
    ensures var b := Build(src, runs, compression, rmManifest, fixChannels, roi);
            |b.specs| == |b.pixels| == |b.names| == |runs|
  {
    if |runs| > 0 {
      BuildSizes(src, runs[..|runs| - 1], compression, rmManifest, fixChannels, roi);
    }
  }

  /** Spec `i` built for `runs` is the one for run `i`. */
  lemma {:induction false} BuildSpecAt(src: Spec, runs: seq<Run>, compression: Option<string>, rmManifest: bool,
                                   fixChannels: bool, roi: Roi, i: nat)
    requires WellFormed(src) && Fits(runs, |src.channelNames|) && i < |runs|
    requires |Build(src, runs, compression, rmManifest, fixChannels, roi).specs| == |runs|
    ensures runs[i].subStart <= runs[i].subEnd < |src.channelNames|
            && Build(src, runs, compression, rmManifest, fixChannels, roi).specs[i] == RunSpec(src, runs[i], compression, rmManifest, fixChannels, roi)
  {
    var init := runs[..|runs| - 1];
    if i < |init| {
      BuildSizes(src, init, compression, rmManifest, fixChannels, roi);
      assert init[i] == runs[i];
      BuildSpecAt(src, init, compression, rmManifest, fixChannels, roi, i);
    }
  }

  /** Buffer `i` built for `runs` is the one for run `i`. */
  lemma {:induction false} BuildPixelsAt(src: Spec, runs: seq<Run>, compression: Option<string>, rmManifest: bool,
                                   fixChannels: bool, roi: Roi, i: nat)
    requires WellFormed(src) && Fits(runs, |src.channelNames|) && i < |runs|
    requires |Build(src, runs, compression, rmManifest, fixChannels, roi).pixels| == |runs|
    ensures runs[i].subStart <= runs[i].subEnd < |src.channelNames|
            && Build(src, runs, compression, rmManifest, fixChannels, roi).pixels[i] == RunPixels(src, runs[i], roi)
  {
    var init := runs[..|runs| - 1];
    if i < |init| {
      BuildSizes(src, init, compression, rmManifest, fixChannels, roi);
      assert init[i] == runs[i];
      BuildPixelsAt(src, init, compression, rmManifest, fixChannels, roi, i);
    }
  }

  /** Name `i` built for `runs` is the one of run `i`. */
  lemma {:induction false} BuildNameAt(src: Spec, runs: seq<Run>, compression: Option<string>, rmManifest: bool,
                                   fixChannels: bool, roi: Roi, i: nat)
    requires WellFormed(src) && Fits(runs, |src.channelNames|) && i < |runs|
    requires |Build(src, runs, compression, rmManifest, fixChannels, roi).names| == |runs|
    ensures runs[i].subStart <= runs[i].subEnd < |src.channelNames|
            && Build(src, runs, compression, rmManifest, fixChannels, roi).names[i] == runs[i].name
  {
    var init := runs[..|runs| - 1];
    if i < |init| {
      BuildSizes(src, init, compression, rmManifest, fixChannels, roi);
      assert init[i] == runs[i];
      BuildNameAt(src, init, compression, rmManifest, fixChannels, roi, i);
    }
  }

  /** Subimage `i` built for `runs` is the one for run `i`. */
  lemma BuildAt(src: Spec, runs: seq<Run>, compression: Option<string>, rmManifest: bool,
                fixChannels: bool, roi: Roi, i: nat)
    requires WellFormed(src) && Fits(runs, |src.channelNames|) && i < |runs|
    ensures var b := Build(src, runs, compression, rmManifest, fixChannels, roi);
            |b.specs| == |b.pixels| == |b.names| == |runs|
            && runs[i].subStart <= runs[i].subEnd < |src.channelNames|
            && b.specs[i] == RunSpec(src, runs[i], compression, rmManifest, fixChannels, roi)
            && b.pixels[i] == RunPixels(src, runs[i], roi)
            && b.names[i] == runs[i].name
  {
    BuildSizes(src, runs, compression, rmManifest, fixChannels, roi);
    BuildSpecAt(src, runs, compression, rmManifest, fixChannels, roi, i);
    BuildPixelsAt(src, runs, compression, rmManifest, fixChannels, roi, i);
    BuildNameAt(src, runs, compression, rmManifest, fixChannels, roi, i);
  }

  lemma BuildPlan(src: Spec, compression: Option<string>, rmManifest: bool, fixChannels: bool, roi: Roi)
    requires WellFormed(src)
    ensures Fits(Runs(Keys(src.channelNames)), |src.channelNames|)
    ensures Build(src, Runs(Keys(src.channelNames)), compression, rmManifest, fixChannels, roi.(chend := 4))
            == SplitPlan(src, compression, rmManifest, fixChannels, roi)
  {
    var runs := Runs(Keys(src.channelNames));
    RunsFit(Keys(src.channelNames));
    var b := Build(src, runs, compression, rmManifest, fixChannels, roi.(chend := 4));
    var p := SplitPlan(src, compression, rmManifest, fixChannels, roi);
    if |runs| == 0 {
      assert b.specs == p.specs && b.pixels == p.pixels && b.names == p.names;
    } else {
      BuildAt(src, runs, compression, rmManifest, fixChannels, roi.(chend := 4), 0);
      forall i | 0 <= i < |runs|
        ensures b.specs[i] == p.specs[i] && b.pixels[i] == p.pixels[i] && b.names[i] == p.names[i]
      {
        BuildAt(src, runs, compression, rmManifest, fixChannels, roi.(chend := 4), i);
      }
      assert b.specs == p.specs && b.pixels == p.pixels && b.names == p.names;
    }
  }

  /** The subimage for channels `subStart` to `subEnd` built and appended to those built so far. */
  method AppendSubimage(src: Spec, ghost runs: seq<Run>, subStart: nat, subEnd: nat, recentSub: string,
                        compression: Option<string>, rmManifest: bool, fixChannels: bool, roi: Roi,
                        specs: seq<Spec>, pixels: seq<Pixels>, names: seq<string>)
    returns (specs': seq<Spec>, pixels': seq<Pixels>, names': seq<string>)
    requires WellFormed(src) && Fits(runs, |src.channelNames|) && subStart <= subEnd < |src.channelNames|
    requires Parts(roi, specs, pixels, names) == Build(src, runs, compression, rmManifest, fixChannels, roi)
    ensures Fits(runs + [Run(subStart, subEnd, recentSub)], |src.channelNames|)
    ensures Parts(roi, specs', pixels', names')
            == Build(src, runs + [Run(subStart, subEnd, recentSub)], compression, rmManifest, fixChannels, roi)
  {
    var subimageSpec, buffer := BuildSubimage(src, subStart, subEnd, recentSub, compression, rmManifest,
                                              fixChannels, roi);
    BuildSnoc(src, runs, Run(subStart, subEnd, recentSub), compression, rmManifest, fixChannels, roi);
    names' := names + [recentSub];
    specs' := specs + [subimageSpec];
    pixels' := pixels + [buffer];
  }

  /** The state of the channel loop before position `p`: the channel index, the key of the
      previous channel, the number of channels in the open layer, the runs emitted so far and the
      subimages built for them. */
  ghost predicate LoopState(src: Spec, compression: Option<string>, rmManifest: bool, fixChannels: bool, roi: Roi,
                            p: nat, channelIndex: int, recentSub: string, subChCount: int, emitted: seq<Run>,
                            specs: seq<Spec>, pixels: seq<Pixels>, names: seq<string>)
    requires WellFormed(src) && p <= |src.channelNames|
  {
    var keys := Keys(src.channelNames);
    var n := |src.channelNames|;
    channelIndex == (if p == n && n > 0 then n + 1 else p)
    && (p < n ==> recentSub == (if p == 0 then "" else keys[p - 1]))
    && (p < n ==> subChCount == (if p == 0 then 0 else p - LastStart(keys, p - 1)))
    && emitted == Emitted(keys, p)
    && Fits(emitted, n)
    && Parts(roi, specs, pixels, names) == Build(src, emitted, compression, rmManifest, fixChannels, roi)
  }

  /** The state before the first position of the channel loop. */
  lemma LoopInit(src: Spec, compression: Option<string>, rmManifest: bool, fixChannels: bool, roi: Roi)
    requires WellFormed(src)
    ensures LoopState(src, compression, rmManifest, fixChannels, roi, 0, 0, "", 0, [], [], [], [])
  {
  }

  /** The state after the last position of the channel loop holds the split plan. */
  lemma LoopDone(src: Spec, compression: Option<string>, rmManifest: bool, fixChannels: bool, roi: Roi,
                 channelIndex: int, recentSub: string, subChCount: int, emitted: seq<Run>,
                 specs: seq<Spec>, pixels: seq<Pixels>, names: seq<string>)
    requires WellFormed(src)
    requires LoopState(src, compression, rmManifest, fixChannels, roi.(chend := 4), |src.channelNames|, channelIndex,
                       recentSub, subChCount, emitted, specs, pixels, names)
    ensures Parts(roi.(chend := 4), specs, pixels, names) == SplitPlan(src, compression, rmManifest, fixChannels, roi)
  {
    BuildPlan(src, compression, rmManifest, fixChannels, roi);
  }

  /** A position of the channel loop of `split_subimages` where the open layer is closed: the key
      of the channel differs from a non-empty previous key, or the channel is the last one (and
      is then counted into the open layer first). The layer's subimage is appended, the counter
      restarts, and the channel opens the next layer. */
  method CloseStep(src: Spec, compression: Option<string>, rmManifest: bool, fixChannels: bool, roi: Roi, p: nat,
                   channelIndex: int, recentSub: string, subChCount: int, ghost emitted: seq<Run>,
                   specs: seq<Spec>, pixels: seq<Pixels>, names: seq<string>)
    returns (channelIndex': int, subChCount': int, ghost emitted': seq<Run>,
             specs': seq<Spec>, pixels': seq<Pixels>, names': seq<string>)
    requires WellFormed(src) && p < |src.channelNames|
    requires LoopState(src, compression, rmManifest, fixChannels, roi, p, channelIndex, recentSub, subChCount,
                       emitted, specs, pixels, names)
    requires (recentSub != "" && Key(src.channelNames[p]) != recentSub) || channelIndex + 1 == src.nchannels
    ensures LoopState(src, compression, rmManifest, fixChannels, roi, p + 1, channelIndex',
                      Key(src.channelNames[p]), subChCount', emitted', specs', pixels', names')
  {
    ghost var keys := Keys(src.channelNames);
    var n := src.nchannels;
    assert emitted == Emitted(keys, p);
    assert Key(src.channelNames[p]) == keys[p];
    channelIndex', subChCount' := channelIndex, subChCount;
    if channelIndex' + 1 == n {
      subChCount' := subChCount' + 1;
      channelIndex' := channelIndex' + 1;
    }
    var subStart := channelIndex' - subChCount';
    var subEnd := channelIndex' - 1;
    LoopClose(keys, p, recentSub, subChCount, subStart, subEnd, emitted);
    emitted' := emitted + [Run(subStart, subEnd, recentSub)];
    specs', pixels', names' := AppendSubimage(src, emitted, subStart, subEnd, recentSub, compression, rmManifest,
                                              fixChannels, roi, specs, pixels, names);
    subChCount' := 0;
    channelIndex' := channelIndex' + 1;
    subChCount' := subChCount' + 1;
  }

  /** A position of the channel loop where the open layer goes on: the counters advance. */
  lemma OpenStep(src: Spec, compression: Option<string>, rmManifest: bool, fixChannels: bool, roi: Roi, p: nat,
                 channelIndex: int, recentSub: string, subChCount: int, emitted: seq<Run>,
                 specs: seq<Spec>, pixels: seq<Pixels>, names: seq<string>)
    requires WellFormed(src) && p < |src.channelNames|
    requires LoopState(src, compression, rmManifest, fixChannels, roi, p, channelIndex, recentSub, subChCount,
                       emitted, specs, pixels, names)
    requires !((recentSub != "" && Key(src.channelNames[p]) != recentSub) || channelIndex + 1 == src.nchannels)
    ensures LoopState(src, compression, rmManifest, fixChannels, roi, p + 1, channelIndex + 1,
                      Key(src.channelNames[p]), subChCount + 1, emitted, specs, pixels, names)
  {
    ghost var keys := Keys(src.channelNames);
    assert Key(src.channelNames[p]) == keys[p];
    LoopOpen(keys, p, recentSub, subChCount);
  }

  /** One position of the channel loop of `split_subimages`: the key of the channel is compared
      with the previous one, and the open layer is closed or goes on. */
  method SplitStep(src: Spec, compression: Option<string>, rmManifest: bool, fixChannels: bool, roi: Roi, p: nat,
                   channelIndex: int, recentSub: string, subChCount: int, ghost emitted: seq<Run>,
                   specs: seq<Spec>, pixels: seq<Pixels>, names: seq<string>)
    returns (channelIndex': int, recentSub': string, subChCount': int, ghost emitted': seq<Run>,
             specs': seq<Spec>, pixels': seq<Pixels>, names': seq<string>)
    requires WellFormed(src) && p < |src.channelNames|
    requires LoopState(src, compression, rmManifest, fixChannels, roi, p, channelIndex, recentSub, subChCount,
                       emitted, specs, pixels, names)
    ensures LoopState(src, compression, rmManifest, fixChannels, roi, p + 1, channelIndex', recentSub',
                      subChCount', emitted', specs', pixels', names')
  {
    var currentSub := Key(src.channelNames[p]);
    if (recentSub != "" && currentSub != recentSub) || channelIndex + 1 == src.nchannels {
      channelIndex', subChCount', emitted', specs', pixels', names' :=
        CloseStep(src, compression, rmManifest, fixChannels, roi, p, channelIndex, recentSub, subChCount, emitted,
                  specs, pixels, names);
    } else {
      OpenStep(src, compression, rmManifest, fixChannels, roi, p, channelIndex, recentSub, subChCount, emitted,
               specs, pixels, names);
      channelIndex', subChCount', emitted', specs', pixels', names' :=
        channelIndex + 1, subChCount + 1, emitted, specs, pixels, names;
    }
    recentSub' := currentSub;
  }

  /** The loop of `split_subimages`, with the wrapper's own counters: the index of the channel,
      the number of channels in the open layer and the key of the previous channel. */
  method SplitSubimages(src: Spec, compression: Option<string>, rmManifest: bool, fixChannels: bool,
                        roi: Roi) returns (parts: Parts)
    requires WellFormed(src)
    ensures parts == SplitPlan(src, compression, rmManifest, fixChannels, roi)
  {
    var roi4 := roi.(chend := 4);
    var n := src.nchannels;
    var channelIndex := 0;
    var recentSub := "";
    var subChCount := 0;
    var specs: seq<Spec> := [];
    var pixels: seq<Pixels> := [];
    var names: seq<string> := [];
    ghost var emitted: seq<Run> := [];
    LoopInit(src, compression, rmManifest, fixChannels, roi4);
    for p := 0 to n
      invariant LoopState(src, compression, rmManifest, fixChannels, roi4, p, channelIndex, recentSub, subChCount,
                          emitted, specs, pixels, names)
    {
      channelIndex, recentSub, subChCount, emitted, specs, pixels, names :=
        SplitStep(src, compression, rmManifest, fixChannels, roi4, p, channelIndex, recentSub, subChCount, emitted,
                  specs, pixels, names);
    }
    LoopDone(src, compression, rmManifest, fixChannels, roi, channelIndex, recentSub, subChCount, emitted,
             specs, pixels, names);
    parts := Parts(roi4, specs, pixels, names);
  }

  /** The channel names of `runs`, run after run. */
  function ChannelsOf(runs: seq<Run>, names: seq<string>): seq<string>
  {
    if |runs| == 0 then []
    else
      var last := runs[|runs| - 1];
      ChannelsOf(runs[..|runs| - 1], names)
      + (if last.subStart <= last.subEnd < |names| then names[last.subStart..last.subEnd + 1] else [])
  }

  lemma {:induction false} ContiguousChannels(runs: seq<Run>, names: seq<string>, n: nat)
    requires Contiguous(runs, n) && n <= |names|
    ensures ChannelsOf(runs, names) == names[..n]
  {
    if |runs| > 0 {
      var init := runs[..|runs| - 1];
      var last := runs[|runs| - 1];
      assert Contiguous(init, last.subStart) by {
        if |init| > 0 { assert init[|init| - 1] == runs[|runs| - 2]; }
      }
      ContiguousChannels(init, names, last.subStart);
      assert names[..last.subStart] + names[last.subStart..n] == names[..n];
    }
  }

  /** The channel list a buffer was requested with; `[]` for a buffer that keeps all channels.
      What `cut` does with the region's channel end is not part of this. */
  function ChannelsIn(p: Pixels): seq<string>
  {
    match p.channels
    case Some(c) => c
    case None => []
  }

  /** The requested channel lists of the pixel buffers, buffer after buffer. */
  function PixelChannels(pixels: seq<Pixels>): seq<string>
  {
    if |pixels| == 0 then [] else PixelChannels(pixels[..|pixels| - 1]) + ChannelsIn(pixels[|pixels| - 1])
  }

  lemma {:induction false} PixelsOfRuns(src: Spec, runs: seq<Run>, roi: Roi, pixels: seq<Pixels>)
    requires Fits(runs, |src.channelNames|) && |pixels| == |runs|
    requires forall i :: 0 <= i < |runs| ==> pixels[i] == RunPixels(src, runs[i], roi)
    ensures PixelChannels(pixels) == ChannelsOf(runs, src.channelNames)
  {
    if |runs| > 0 {
      PixelsOfRuns(src, runs[..|runs| - 1], roi, pixels[..|pixels| - 1]);
    }
  }

  /** The split neither drops, duplicates nor reorders channels: the channels of the pixel
      buffers, subimage after subimage, are the channels of the source. */
  lemma SplitKeepsChannels(src: Spec, compression: Option<string>, rmManifest: bool, fixChannels: bool, roi: Roi)
    requires WellFormed(src)
    ensures PixelChannels(SplitPlan(src, compression, rmManifest, fixChannels, roi).pixels) == src.channelNames
  {
    var keys := Keys(src.channelNames);
    var parts := SplitPlan(src, compression, rmManifest, fixChannels, roi);
    RunsFit(keys);
    RunsContiguous(keys);
    PixelsOfRuns(src, Runs(keys), parts.roi, parts.pixels);
    ContiguousChannels(Runs(keys), src.channelNames, |keys|);
    assert src.channelNames[..|keys|] == src.channelNames;
  }

  /** Every subimage spec is well formed, has as many channels as its buffer's requested channel
      list, carries those names (renamed when asked), and the region of the split. */
  lemma SplitSpecsMatchPixels(src: Spec, compression: Option<string>, rmManifest: bool, fixChannels: bool,
                              roi: Roi)
    requires WellFormed(src)
    ensures var parts := SplitPlan(src, compression, rmManifest, fixChannels, roi);
            parts.roi == roi.(chend := 4)
            && forall i :: 0 <= i < |parts.specs| ==>
                 WellFormed(parts.specs[i]) && parts.specs[i].nchannels >= 1
                 && parts.pixels[i].subimage == 0 && parts.pixels[i].channels.Some?
                 && parts.specs[i].channelNames == OutputNames(ChannelsIn(parts.pixels[i]), fixChannels)
                 && parts.specs[i].roi == parts.roi && parts.pixels[i].roi == parts.roi
  {
    RunsFit(Keys(src.channelNames));
  }

  /** Subimage `i` of the split is the one for run `i`. */
  lemma PlanAt(src: Spec, compression: Option<string>, rmManifest: bool, fixChannels: bool, roi: Roi, i: nat)
    requires WellFormed(src) && i < |Runs(Keys(src.channelNames))|
    ensures var runs := Runs(Keys(src.channelNames));
            var parts := SplitPlan(src, compression, rmManifest, fixChannels, roi);
            runs[i].subStart <= runs[i].subEnd < |src.channelNames|
            && parts.specs[i] == RunSpec(src, runs[i], compression, rmManifest, fixChannels, parts.roi)
            && parts.pixels[i] == RunPixels(src, runs[i], parts.roi)
            && parts.names[i] == runs[i].name
  {
    RunsFit(Keys(src.channelNames));
  }

  /** The buffer and name of subimage `i` of the split are those of run `i`. */
  lemma PlanPixelsAt(src: Spec, compression: Option<string>, rmManifest: bool, fixChannels: bool, roi: Roi, i: nat)
    requires WellFormed(src) && i < |Runs(Keys(src.channelNames))|
    ensures var run := Runs(Keys(src.channelNames))[i];
            var parts := SplitPlan(src, compression, rmManifest, fixChannels, roi);
            run.subStart <= run.subEnd < |src.channelNames|
            && ChannelsIn(parts.pixels[i]) == src.channelNames[run.subStart..run.subEnd + 1]
            && |ChannelsIn(parts.pixels[i])| > 0
            && ChannelsIn(parts.pixels[i])[|ChannelsIn(parts.pixels[i])| - 1] == src.channelNames[run.subEnd]
            && parts.names[i] == run.name
  {
    RunsFit(Keys(src.channelNames));
    RunPixelsLast(src, Runs(Keys(src.channelNames))[i], roi.(chend := 4));
  }

  /** The buffer for `run` holds the run's channels, the last of them last. */
  lemma RunPixelsLast(src: Spec, run: Run, roi: Roi)
    requires run.subStart <= run.subEnd < |src.channelNames|
    ensures var c := ChannelsIn(RunPixels(src, run, roi));
            c == src.channelNames[run.subStart..run.subEnd + 1] && |c| > 0 && c[|c| - 1] == src.channelNames[run.subEnd]
  {
    var c := src.channelNames[run.subStart..run.subEnd + 1];
    assert c[|c| - 1] == src.channelNames[run.subEnd];
  }

  /** The `name` attribute of every subimage spec holds the subimage's name. */
  lemma SplitNameAttributes(src: Spec, compression: Option<string>, rmManifest: bool, fixChannels: bool,
                            roi: Roi)
    requires WellFormed(src)
    ensures var parts := SplitPlan(src, compression, rmManifest, fixChannels, roi);
            forall i :: 0 <= i < |parts.names| ==>
              Lookup(parts.specs[i].attribs, "name") == Some(NameAttribute(parts.names[i]))
  {
    var parts := SplitPlan(src, compression, rmManifest, fixChannels, roi);
    forall i | 0 <= i < |parts.names|
      ensures Lookup(parts.specs[i].attribs, "name") == Some(NameAttribute(parts.names[i]))
    {
      PlanAt(src, compression, rmManifest, fixChannels, roi, i);
      RunNamed(src, Runs(Keys(src.channelNames))[i], compression, rmManifest);
    }
  }

  /** A run's attributes name it. */
  lemma RunNamed(src: Spec, run: Run, compression: Option<string>, rmManifest: bool)
    ensures Lookup(RunAttributes(src, run, compression, rmManifest), "name") == Some(NameAttribute(run.name))
  {
    var copied := if run.subStart == 0 then CopiedAttributes(src.attribs, rmManifest) else [];
    var ca := CompressionAttribute(src, compression);
    var compressed := if ca.Some? then SetAttribute(copied, ca.value) else copied;
    SetAttributeSpec(compressed, NameAttribute(run.name));
  }

  lemma SplitNameAt(src: Spec, compression: Option<string>, rmManifest: bool, fixChannels: bool, roi: Roi,
                    i: nat)
    requires WellFormed(src) && i + 1 < |Runs(Keys(src.channelNames))|
    ensures var parts := SplitPlan(src, compression, rmManifest, fixChannels, roi);
            var c := ChannelsIn(parts.pixels[i]);
            |c| > 0 && parts.names[i] == Key(c[|c| - 1])
  {
    var keys := Keys(src.channelNames);
    var run := Runs(keys)[i];
    RunNameAt(keys, i);
    PlanPixelsAt(src, compression, rmManifest, fixChannels, roi, i);
  }

  /** The names of the subimages: each but the last is named after the key of its own last
      channel. */
  lemma SplitNames(src: Spec, compression: Option<string>, rmManifest: bool, fixChannels: bool, roi: Roi)
    requires WellFormed(src)
    ensures var parts := SplitPlan(src, compression, rmManifest, fixChannels, roi);
            forall i :: 0 <= i < |parts.names| - 1 ==>
              var c := ChannelsIn(parts.pixels[i]);
              |c| > 0 && parts.names[i] == Key(c[|c| - 1])
  {
    var parts := SplitPlan(src, compression, rmManifest, fixChannels, roi);
    forall i | 0 <= i < |parts.names| - 1
      ensures var c := ChannelsIn(parts.pixels[i]);
              |c| > 0 && parts.names[i] == Key(c[|c| - 1])
    {
      SplitNameAt(src, compression, rmManifest, fixChannels, roi, i);
    }
  }

  /** The last subimage is named after the key of the second-to-last channel of the source,
      whatever the key of the last channel; a single channel gives one subimage named `""`. */
  lemma SplitLastName(src: Spec, compression: Option<string>, rmManifest: bool, fixChannels: bool, roi: Roi)
    requires WellFormed(src)
    ensures var parts := SplitPlan(src, compression, rmManifest, fixChannels, roi);
            var n := |src.channelNames|;
            (n == 1 ==> parts.names == [""])
            && (n >= 2 ==> |parts.names| > 0 && parts.names[|parts.names| - 1] == Key(src.channelNames[n - 2]))
  {
    var keys := Keys(src.channelNames);
    var runs := Runs(keys);
    RunsNames(keys);
    RunsContiguous(keys);
    if |keys| > 0 {
      PlanPixelsAt(src, compression, rmManifest, fixChannels, roi, |runs| - 1);
    }
  }

  /** A subimage starts at channel `k` (other than the first) exactly where the layer key
      changes after a non-empty key, and never at the last channel. */
  lemma SplitStarts(src: Spec, compression: Option<string>, rmManifest: bool, fixChannels: bool, roi: Roi,
                    k: nat)
    requires WellFormed(src) && 0 < k < |src.channelNames|
    ensures var runs := Runs(Keys(src.channelNames));
            (exists i :: 0 <= i < |runs| && runs[i].subStart == k)
            <==> (k < |src.channelNames| - 1 && Key(src.channelNames[k - 1]) != ""
                  && Key(src.channelNames[k]) != Key(src.channelNames[k - 1]))
  {
    RunsStartAtBoundaries(Keys(src.channelNames), k);
  }

  /** Only the first subimage receives the source's attributes; every other one carries exactly
      the compression (when there is one) and its name. */
  lemma SplitLaterMetadata(src: Spec, compression: Option<string>, rmManifest: bool, fixChannels: bool,
                           roi: Roi, i: nat)
    requires WellFormed(src)
    requires 0 < i < |SplitPlan(src, compression, rmManifest, fixChannels, roi).specs|
    ensures var parts := SplitPlan(src, compression, rmManifest, fixChannels, roi);
            var ca := CompressionAttribute(src, compression);
            parts.specs[i].attribs == (if ca.Some? then [ca.value] else []) + [NameAttribute(parts.names[i])]
  {
    var keys := Keys(src.channelNames);
    PlanAt(src, compression, rmManifest, fixChannels, roi, i);
    OnlyFirstRunAtZero(keys, i);
    var name := NameAttribute(Runs(keys)[i].name);
    var ca := CompressionAttribute(src, compression);
    if ca.Some? {
      assert ca.value.name != name.name;
      assert SetAttribute([ca.value], name) == [ca.value] + SetAttribute([], name);
    }
  }

  /** A source attribute the first subimage carries over as it is: not skipped, and not one
      of the two attributes the split sets itself. */
  predicate Carried(x: Attribute, rmManifest: bool)
  {
    !Skipped(x, rmManifest) && x.name != "compression" && x.name != "name"
  }

  /** The attributes of a run that starts at channel 0. */
  lemma FirstRunAttributes(src: Spec, run: Run, compression: Option<string>, rmManifest: bool)
    requires run.subStart == 0
    ensures var attrs := RunAttributes(src, run, compression, rmManifest);
            var ca := CompressionAttribute(src, compression);
            (ca.Some? ==> Lookup(attrs, "compression") == ca)
            && (forall x :: x in src.attribs && Carried(x, rmManifest) ==> Lookup(attrs, x.name).Some?)
            && (DistinctNames(src.attribs) ==> forall x :: x in src.attribs && Carried(x, rmManifest) ==> x in attrs)
  {
    var copied := CopiedAttributes(src.attribs, rmManifest);
    CopiedFromSource(src.attribs, rmManifest);
    var ca := CompressionAttribute(src, compression);
    var compressed := if ca.Some? then SetAttribute(copied, ca.value) else copied;
    var attrs := SetAttribute(compressed, NameAttribute(run.name));
    assert attrs == RunAttributes(src, run, compression, rmManifest);
    if ca.Some? { SetAttributeSpec(copied, ca.value); }
    SetAttributeSpec(compressed, NameAttribute(run.name));
    LookupOther(compressed, NameAttribute(run.name), "compression");
    forall x | x in src.attribs && Carried(x, rmManifest)
      ensures Lookup(attrs, x.name).Some?
    {
      var y := Lookup(copied, x.name).value;
      assert y in compressed;
      assert y in attrs;
      LookupFinds(attrs, y);
    }
    if DistinctNames(src.attribs) {
      CopiedDistinct(src.attribs, rmManifest);
      KeptHas(src.attribs, rmManifest);
    }
  }

  /** The first subimage receives the compression and, found under its own name, every
      attribute of the source it carries over; with distinct source names each is copied
      verbatim. */
  lemma SplitFirstMetadata(src: Spec, compression: Option<string>, rmManifest: bool, fixChannels: bool,
                           roi: Roi)
    requires WellFormed(src) && |src.channelNames| > 0
    ensures var attrs := SplitPlan(src, compression, rmManifest, fixChannels, roi).specs[0].attribs;
            var ca := CompressionAttribute(src, compression);
            (ca.Some? ==> Lookup(attrs, "compression") == ca)
            && (forall x :: x in src.attribs && Carried(x, rmManifest) ==> Lookup(attrs, x.name).Some?)
            && (DistinctNames(src.attribs) ==> forall x :: x in src.attribs && Carried(x, rmManifest) ==> x in attrs)
  {
    var keys := Keys(src.channelNames);
    PlanAt(src, compression, rmManifest, fixChannels, roi, 0);
    OnlyFirstRunAtZero(keys, 0);
    FirstRunAttributes(src, Runs(keys)[0], compression, rmManifest);
  }

  lemma CompressionNotManifest()
    ensures !IsManifest("compression") && !IsManifest("name")
  {
    MissingCharNotContained("compression", "manifest", 'f');
    MissingCharNotContained("name", "manifest", 'f');
  }

  /** With the manifest switch, a run's attributes hold no manifest attribute. */
  lemma RunDropsManifest(src: Spec, run: Run, compression: Option<string>)
    ensures forall a :: a in RunAttributes(src, run, compression, true) ==> !IsManifest(a.name)
  {
    CompressionNotManifest();
    var copied := if run.subStart == 0 then CopiedAttributes(src.attribs, true) else [];
    CopiedFromSource(src.attribs, true);
    assert forall a :: a in copied ==> !IsManifest(a.name);
    var ca := CompressionAttribute(src, compression);
    var compressed := if ca.Some? then SetAttribute(copied, ca.value) else copied;
    if ca.Some? { SetAttributeSpec(copied, ca.value); }
    assert forall a :: a in compressed ==> !IsManifest(a.name);
    SetAttributeSpec(compressed, NameAttribute(run.name));
    assert RunAttributes(src, run, compression, true) == SetAttribute(compressed, NameAttribute(run.name));
  }

  /** With the manifest switch, no subimage of the split carries a manifest attribute. */
  lemma SplitDropsManifest(src: Spec, compression: Option<string>, fixChannels: bool, roi: Roi)
    requires WellFormed(src)
    ensures var parts := SplitPlan(src, compression, true, fixChannels, roi);
            forall i, a :: 0 <= i < |parts.specs| && a in parts.specs[i].attribs ==> !IsManifest(a.name)
  {
    var parts := SplitPlan(src, compression, true, fixChannels, roi);
    forall i | 0 <= i < |parts.specs|
      ensures forall a :: a in parts.specs[i].attribs ==> !IsManifest(a.name)
    {
      PlanAt(src, compression, true, fixChannels, roi, i);
      RunDropsManifest(src, Runs(Keys(src.channelNames))[i], compression);
    }
  }

  /** Subimage `i` with `fix_channels` on differs from the one with it off only in its renamed
      channel names. */
  lemma FixRenamesAt(src: Spec, compression: Option<string>, rmManifest: bool, roi: Roi, i: nat)
    requires WellFormed(src) && i < |Runs(Keys(src.channelNames))|
    ensures var on := SplitPlan(src, compression, rmManifest, true, roi);
            var off := SplitPlan(src, compression, rmManifest, false, roi);
            on.pixels[i] == off.pixels[i] && on.names[i] == off.names[i]
            && on.specs[i] == off.specs[i].(channelNames := OutputNames(off.specs[i].channelNames, true))
  {
    PlanAt(src, compression, rmManifest, true, roi, i);
    PlanAt(src, compression, rmManifest, false, roi, i);
  }

  /** `fix_channels` renames channels and changes nothing else: the runs, their names, the
      pixels read for them (by their original channel names) and the rest of every spec stay
      as they are. */
  lemma SplitFixOnlyRenames(src: Spec, compression: Option<string>, rmManifest: bool, roi: Roi)
    requires WellFormed(src)
    ensures var on := SplitPlan(src, compression, rmManifest, true, roi);
            var off := SplitPlan(src, compression, rmManifest, false, roi);
            on.roi == off.roi && on.pixels == off.pixels && on.names == off.names
            && |on.specs| == |off.specs|
            && forall i :: 0 <= i < |on.specs| ==>
                 on.specs[i] == off.specs[i].(channelNames := OutputNames(off.specs[i].channelNames, true))
  {
    var on := SplitPlan(src, compression, rmManifest, true, roi);
    var off := SplitPlan(src, compression, rmManifest, false, roi);
    forall i | 0 <= i < |on.specs|
      ensures on.pixels[i] == off.pixels[i] && on.names[i] == off.names[i]
      ensures on.specs[i] == off.specs[i].(channelNames := OutputNames(off.specs[i].channelNames, true))
    {
      FixRenamesAt(src, compression, rmManifest, roi, i);
    }
  }
}
