# exr-wrapper, modelled in Dafny

exr-wrapper re-wraps OpenEXR renders. It reads a source image and writes it again with:

- a new data window, optionally auto-cropped to the non-empty pixels;
- optionally, its layers split into the parts of a multi-part file. A layer is the channels
  sharing a name prefix, and the RGBA colour channels form the layer `rgba`;
- channel names tidied (`depth.z` becomes `depth.Z`);
- manifest metadata optionally stripped, and the compression optionally changed.

Around this core it turns a single frame's path into a printf-style sequence template
(`detect_sequence`) and lists a sequence's frame files (`find_files`).

This project models that core, from `src/wrapper.py`:

- **Layer split** (`split_subimages`). This is the channel loop that groups channels into runs.
  For each run it builds an output spec with its metadata, and a channel-subset pixel buffer.
  The model is an imperative loop (`Split.SplitSubimages`) proved equal to a specification
  function (`Split.SplitPlan`). The runs are defined by boundaries in `Channels.Runs`; lemmas
  prove that the runs partition the channels, and give the runs' names, their metadata and how
  manifests and compression are handled.
- **Spec update** (`update_specs`). The region is replaced, manifest attributes are erased, and
  `Compression` is set. This is `Metadata.UpdateSpec`, proved against `Metadata.Updated`.
- **Rewrap** (`rewrap`). It picks one of three branches:
  - pass the subimages of a multi-part source through;
  - split a flat source;
  - write it as one part.

  It then drives the image writer. The writer is the class `Output.Writer`; its non-ghost
  `log` records every `open`, `write_image` and `close` call, and `accepts` says which opens
  succeed. `Rewrap.RewrapImage` is proved to make exactly the calls `Rewrap.RewrapOutcome`
  describes. Lemmas state the result (true exactly when every open succeeded), the order of
  writes, the early return on a failed open, and the metadata that reaches the writer.
- **Sequence detection** (`detect_sequence`). The regular expression
  `(\d{4,8}|#{4,8})\.(exr|EXR)` is read as a predicate, and the leftmost match is found. The
  matched placeholder is replaced by `%0Nd`. Replacing the placeholder everywhere it occurs is
  a bug; see Findings.
- **File listing** (`find_files`). A path without `%` stands for itself. A frame range such as
  `1001-1010,1020` is expanded by nested loops (`Frames.ExpandFrameRange`), proved equal to
  `Frames.Expand`. The result is sorted, duplicates kept; the files found on disk are given as
  a list.

Supporting modules:

- `Strings`: `split`, `join`, `strip`, `replace`, `in`.
- `Format`: `int()` on digit strings, and `%[0][W]d` formatting with its template parsing.
- `Order`: string order and `sorted`, proved sorted, a permutation, and unique.
- `Image`: the records OpenImageIO supplies.
- `Scenarios`: worked channel layouts, such as a render with colour, depth and one light group.

Where the tool's documented behaviour and the code differ, the model follows the code:

- **One-channel image.** Its only subimage is named `""`: the run is closed before any previous
  key has been recorded (`Channels.RunsNames`, `Split.SplitLastName`).
- **Last channel.** It always joins the open run, even when its layer differs (see
  `Scenarios.ExampleTrailingChannel`).
- **Region.** One region, taken from subimage 0 (or its non-empty region when cropping), is used
  for every subimage of a multi-part source. It is not recomputed per subimage.
- **Empty crop.** Nothing falls back when the non-empty region is empty. That region is an input
  to the model.
- **Write results.** `write_image` results are ignored. The result of `rewrap` depends only on
  the `open` calls.
- **Opening a multi-part file.** When any parts exist, the file is opened with the whole list of
  specs, even if it has only one part. Parts after the first are appended with their own spec.
  The writer log tells the two forms apart: `CreateParts` records `open(dst, tuple(specs))` and
  `Create` records `open(dst, spec)`, even when the tuple holds one spec.
- **A file that does not load.** A source with no subimage (the buffer read failed) is not a
  special case in `rewrap`: it takes the single-part branch and is written from the empty native
  spec (`Rewrap.RewrapUnloaded`).
- **Compression attribute.** The split sets `compression`, while `update_specs` sets
  `Compression`. Both attributes are modelled as written (`Rewrap.Compressed` accepts either).
  Pass-through and single-part specs keep the source's own `compression` attribute next to the
  new `Compression`, so `Rewrap.RewrapCompression` states that the stripped value is recorded,
  not that a stale value is gone.

## Model

| member | source | states |
|---|---|---|
| Channels.KeySpec | src/wrapper.py:126-129 | `R`, `G`, `B`, `A` belong to layer `rgba`; any other name belongs to the text before its first `.` (the whole name if it has none) |
| Channels.Keys | src/wrapper.py:125-129 | one layer key per channel, in channel order |
| Channels.LastStart | src/wrapper.py:131-138 | the open run starts at channel 0 or at a layer change, with no layer change after it |
| Channels.RangeSpec | src/wrapper.py:185-187 | `Range(a, b)`, the channel indices the slices `a:b` cover, lists `a` to `b - 1` in increasing order |
| Channels.RunsPartition | src/wrapper.py:131-138 | the runs cover the channels 0..n-1 exactly once, in order: nothing dropped, duplicated or reordered |
| Channels.RunsStartAtBoundaries | src/wrapper.py:131-132 | a run starts at channel k > 0 exactly when k is a layer change after a non-empty key |
| Channels.RunsNames | src/wrapper.py:137-138 | every run but the last is named by the key of its last channel; the last run is named by the key of the next-to-last channel, or `""` for one channel |
| Channels.RunNameAt | src/wrapper.py:182-183 | the name of run i (not the last) is the key of its last channel |
| Channels.LastChannelJoins | src/wrapper.py:134-136 | the final channel always ends the last run, which also holds the channel before it |
| Channels.OnlyFirstRunAtZero | src/wrapper.py:156 | exactly one run, the first, starts at channel 0, so only it receives the copied metadata |
| Channels.KeyOfDotted | src/wrapper.py:129 | a `layer.rest` channel belongs to `layer` |
| Channels.FixChannelNames | src/wrapper.py:172-181 | the renamed list has the same length; each name containing `depth.z` becomes `depth.Z`, and every other name is kept |
| Metadata.SetAttributeSpec | src/wrapper.py:161-168 | after setting, looking the name up finds the new attribute; other names survive; a new name is appended |
| Metadata.LookupOther | src/wrapper.py:182 | setting one attribute leaves lookups of every other name unchanged |
| Metadata.CopyExtraAttributes | src/wrapper.py:157-166 | the copy loop yields the source attributes in order, skipping manifests when asked, with a later duplicate name overwriting an earlier one |
| Metadata.CopiedFromSource | src/wrapper.py:157-166 | every copied attribute is an unskipped source attribute, and every unskipped source attribute's name is present |
| Metadata.CopiedDistinct | src/wrapper.py:157-166 | with distinct source names, the copy is exactly the unskipped source attributes, in source order |
| Metadata.KeptHas | src/wrapper.py:158-159 | an attribute is kept exactly when it is in the source and is not a skipped manifest |
| Metadata.Without | src/wrapper.py:214-217 | erasing a set of names keeps exactly the attributes whose names are outside it |
| Metadata.WithoutTwice | src/wrapper.py:214-217 | erasing names in two rounds equals erasing them all at once |
| Metadata.WithoutManifest | src/wrapper.py:213-217 | erasing the names found in a snapshot removes exactly the manifest attributes |
| Metadata.UpdateSpec | src/wrapper.py:211-222 | the looped update equals `Metadata.Updated`: region replaced, manifests erased over a snapshot, `Compression` set on override, everything else unchanged |
| Metadata.EraseStep | src/wrapper.py:214-217 | one pass of the erasing loop extends the erased names by attribute i's name when it is a manifest, over the entry snapshot |
| Metadata.UpdatedDropsManifest | src/wrapper.py:213-219 | with `rm_manifest`, no manifest attribute remains |
| Metadata.UpdatedWithoutOverride | src/wrapper.py:213-222 | without an override, the attributes stay as they are or lose only their manifests |
| Metadata.UpdatedWithOverride | src/wrapper.py:220-221 | with an override, `Compression` holds the stripped value, and every other kept attribute survives |
| Split.CompressionAttribute | src/wrapper.py:167-170 | the subimage's `compression` is the override as a string when one is given, else the source's own `compression` attribute |
| Split.BuildSubimage | src/wrapper.py:142-187 | one loop emission builds the spec and pixel buffer of the run it closes |
| Split.LoopClose | src/wrapper.py:131-140 | when the close condition holds at channel p, the run `sub_start..sub_end` named `recent_sub` is exactly the run the boundaries close next, and the count restarts at 1 |
| Split.LoopOpen | src/wrapper.py:131-132 | when it does not hold, no run is emitted and the count of the open run grows by one |
| Split.SubimageAttributes | src/wrapper.py:156-182 | the attribute calls on a new subimage spec give `Split.RunAttributes`: copied metadata for the run at 0, then compression, then name |
| Split.AppendSubimage | src/wrapper.py:142-187 | appending the spec, buffer and name of a closed run extends the parts built so far by that run |
| Split.BuildAt | src/wrapper.py:182-187 | subimage i of the parts built for some runs has the spec, buffer and name of run i |
| Split.CloseStep | src/wrapper.py:131-190 | a loop pass that closes a run emits it and keeps the loop invariant: counters, emitted runs and built parts as the boundaries dictate |
| Split.OpenStep | src/wrapper.py:125-132 | a loop pass that closes no run keeps the loop invariant, with the open run one channel longer |
| Split.SplitStep | src/wrapper.py:125-190 | one loop pass, closing or not, keeps the loop invariant for the next channel |
| Split.LoopDone | src/wrapper.py:192-195 | once every channel is seen, the parts built are exactly `Split.SplitPlan` |
| Split.SplitSubimages | src/wrapper.py:116-195 | the channel loop returns exactly `Split.SplitPlan`: one spec, one buffer and one name per run, in order |
| Split.SplitPlan | src/wrapper.py:192-195 | specs, buffers and names have equal length, one per run, so the mismatch error can never be raised |
| Split.SplitKeepsChannels | src/wrapper.py:171 | the buffers' channel lists, concatenated, give the source's channel list exactly |
| Split.SplitSpecsMatchPixels | src/wrapper.py:123 | region channel end is 4; specs well formed, ≥1 channel; names = the buffer's requested channel list, renamed if asked; specs and buffers share the region |
| Split.PlanPixelsAt | src/wrapper.py:185-187 | buffer i reads run i's original channel names from subimage 0, and name i is run i's name |
| Split.SplitNameAttributes | src/wrapper.py:182-183 | every subimage's `name` attribute holds the name recorded for it |
| Split.SplitNames | src/wrapper.py:131-138 | every subimage but the last is named after the layer of its last channel |
| Split.SplitLastName | src/wrapper.py:134-138 | the last subimage is named after the layer of the next-to-last channel, or `""` for a one-channel image |
| Split.SplitStarts | src/wrapper.py:131-132 | a subimage starts at channel k > 0 iff k is not last, its key differs from channel k-1's, and that key is non-empty |
| Split.SplitFirstMetadata | src/wrapper.py:156-170 | the first subimage carries the compression and every unskipped source attribute; with distinct names, carries them exactly |
| Split.SplitLaterMetadata | src/wrapper.py:167-182 | every later subimage carries only the compression attribute (when there is one) and its name |
| Split.SplitDropsManifest | src/wrapper.py:158-159 | with `rm_manifest`, no subimage carries a manifest attribute |
| Split.SplitFixOnlyRenames | src/wrapper.py:171-185 | `fix_channels` changes only spec channel names; runs, names, buffers (original channels) and the rest stay |
| Output.Writer.Open | src/wrapper.py:261 | an open succeeds as the writer accepts it; the call is logged and counted |
| Output.Writer.WriteImage | src/wrapper.py:274 | a write is logged; nothing else changes |
| Output.Writer.Close | src/wrapper.py:285 | the close is logged; nothing else changes |
| Output.MultiPartOk | src/wrapper.py:259-275 | a multi-part write succeeds exactly when every open (create and each append) is accepted |
| Output.MultiPartAccepted | src/wrapper.py:261-275 | when every open is accepted: each part is opened and then written, in order, then the file is closed |
| Output.MultiPartRejected | src/wrapper.py:269-273 | when open k is the first rejected, parts before k are opened and written, and the log ends at the rejected open |
| Output.MultiPartWrites | src/wrapper.py:266-275 | on success every buffer is written once, in order; on failure only those before the first rejected open |
| Output.MultiPartOpensAmong | src/wrapper.py:261-270 | the first open creates the file with all specs; append j opens with spec j alone |
| Output.MultiPartClosedIffOk | src/wrapper.py:262-285 | the file is closed exactly when the write succeeds, and the close is then the last call |
| Output.SinglePartCalls | src/wrapper.py:276-286 | a single-part write succeeds iff its one open is accepted; then it writes the one buffer and closes |
| Rewrap.CompressionOption | src/wrapper.py:229-230 | the option in force: none for no option, `""` or `keep`; else the option with its `'` quotes stripped |
| Rewrap.PassSubimages | src/wrapper.py:244-254 | the pass-through loop yields `Rewrap.PassThrough`: each subimage's spec updated, each buffer the whole subimage |
| Rewrap.CollectParts | src/wrapper.py:241-256 | the parts collected in the three branches are exactly `Rewrap.RewrapPlan` |
| Rewrap.WriteSingle | src/wrapper.py:276-286 | the single-part write makes exactly the calls `Output.SinglePart` describes |
| Rewrap.WriteParts | src/wrapper.py:259-275 | the writing loop makes exactly the calls `Output.MultiPart` describes and returns its result |
| Rewrap.RewrapImage | src/wrapper.py:198-286 | `rewrap` makes exactly the calls `Rewrap.RewrapOutcome` describes on a fresh writer, and returns its result |
| Rewrap.RewrapPassesThrough | src/wrapper.py:241-254 | multi-part source: one part per subimage, region of subimage 0, attributes updated; `multipart` has no effect |
| Rewrap.RewrapSplitsFlat | src/wrapper.py:255-256 | a flat source with `multipart` and channels writes one part per run, reading every channel once, with the region's channel end set to 4 |
| Rewrap.RewrapSinglePart | src/wrapper.py:224-286 | a source with at most one subimage, including a file that did not load, and not split: one part is written with subimage 0's updated spec through `open(dst, spec)`; this succeeds iff that open is accepted, and then opens, writes, closes |
| Rewrap.RewrapUnloaded | src/wrapper.py:224-286 | a source with no subimage is written as one part from the updated empty spec, with the region the options choose (channel end 4 when `multipart`) |
| Rewrap.PlanResult | src/wrapper.py:259-286 | for any plan, writing succeeds exactly when every open is accepted, and then ends with a close after every buffer |
| Rewrap.RewrapResult | src/wrapper.py:259-286 | `rewrap` returns true iff every open is accepted; then it closes last, having written every planned buffer in order |
| Rewrap.RewrapFirstOpenFails | src/wrapper.py:261-282 | a rejected first open returns false after that one call, with nothing written and no close; that call is `open(dst, tuple(specs))` when parts exist and `open(dst, spec)` otherwise |
| Rewrap.RewrapOpensAmong | src/wrapper.py:261-279 | every open the writer sees carries only specs from the plan |
| Rewrap.RewrapDropsManifest | src/wrapper.py:158-219 | with `rm_manifest`, no spec handed to the writer carries a manifest attribute, in any branch |
| Rewrap.SplitCompressed | src/wrapper.py:167-168 | with an override, every split spec records it |
| Rewrap.RewrapCompression | src/wrapper.py:167-221 | with an override, every spec reaching the writer records the stripped value, whichever branch |
| Rewrap.RewrapKeep | src/wrapper.py:229-230 | `keep` as the compression gives exactly the same calls and result as no compression option |
| Sequence.Run | src/wrapper.py:68 | the run from i has only characters of one class, and stops at the end or at a character of another class |
| Sequence.MatchAtIsPattern | src/wrapper.py:68 | the pattern matches at i iff `MatchAt` holds; the captured group is always the whole run of digits or `#` from i |
| Sequence.FirstMatch | src/wrapper.py:68-70 | the result is the leftmost position where the pattern matches, or none when it matches nowhere |
| Sequence.DetectSequence | src/wrapper.py:68-72 | a path the pattern does not match is returned unchanged |
| Sequence.DetectSequenceUnique | src/wrapper.py:70-71 | when the placeholder occurs only once, `replace` rewrites only the matched placeholder |
| Sequence.DetectFrameRoundTrip | src/wrapper.py:62-72 | filling the template with the found frame number gives the path back; another frame gives a sibling path, zero-padded |
| Sequence.TwoConversionsRefused | src/wrapper.py:105 | a path with two `%` signs cannot be filled: `%` raises for every frame |
| Sequence.RepeatedFrameNumber | src/wrapper.py:70-71 | `1001/1001.exr` becomes `%04d/%04d.exr`, which cannot be filled; the corrected detection gives `1001/%04d.exr`, which fills back to the path |
| Format.ParseInt | src/wrapper.py:104 | `int()` succeeds exactly when the text without surrounding whitespace is a non-empty digit string, with a value below 10 to the power of its length |
| Format.TrimShape | src/wrapper.py:104 | the stripped text is a slice with only whitespace before and after it and no whitespace at its ends |
| Format.ParseIntSpaced | src/wrapper.py:104 | digits with whitespace on either side parse as the digits alone |
| Format.ParsedChars | src/wrapper.py:104 | text `int()` accepts holds only whitespace and digits |
| Format.DecimalSpec | src/wrapper.py:105 | `%d` prints at least one digit, with no leading zero, whose value is the number |
| Format.FormatIntSpec | src/wrapper.py:105 | `%[0]Nd` prints max(N, digits) characters; zero-padded, they are all digits and read back as the number |
| Format.FixedParse | src/wrapper.py:105 | reprinting the value of a digit string at its own width gives the digits back |
| Format.InterpolatePadded | src/wrapper.py:105 | filling `a%0Nd b` with a frame puts the zero-padded frame between `a` and `b` |
| Frames.Inclusive | src/wrapper.py:104 | `range(first, last + 1)`: `last - first + 1` frames counting up from `first`, none when `last < first` |
| Frames.Number | src/wrapper.py:104-107 | a frame number parses exactly when, without surrounding whitespace, it is a non-empty digit string, and then it is that digit string's value; otherwise the error names it |
| Frames.RangePart | src/wrapper.py:102-105 | a `first-last` part, both numbers `int()` accepts, stands for every frame from first to last inclusive |
| Frames.SinglePart | src/wrapper.py:106-107 | a part that is one number `int()` accepts stands for that one frame |
| Frames.NoDash | src/wrapper.py:103-107 | a number `int()` accepts has no `-`, so it is never split as a range |
| Frames.SpacedFrame | src/wrapper.py:101-107 | the part ` 1020` of `1001-1010, 1020` stands for frame 1020 |
| Frames.InstancesFilled | src/wrapper.py:105-107 | a template gives one file per frame, in frame order; a non-template path makes any frame an error |
| Frames.ExpandConcat | src/wrapper.py:101 | the parts of a range contribute their files one after another |
| Frames.AppendFrame | src/wrapper.py:104-105 | one `input_path % i` either extends the files for the frames so far by the filled path, or is the `%` error of the whole part |
| Frames.AppendFrames | src/wrapper.py:103-105 | the frame loop appends the files of a range part to the list, or stops with the `%` error |
| Frames.ExpandPart | src/wrapper.py:102-107 | one part of the range adds exactly its files to the list, or gives that part's error |
| Frames.ExpandFrameRange | src/wrapper.py:101-107 | the nested loops give exactly `Frames.Expand`: parts in order, each frame filled in, stopping at the first error |
| Frames.Found | src/wrapper.py:99-112 | a path without `%` yields itself, alone; every result is sorted |
| Frames.FindFiles | src/wrapper.py:91-113 | `find_files` returns exactly `Frames.Found` |
| Frames.FoundSortedExpansion | src/wrapper.py:101-112 | with a frame range, the result is the one sorted rearrangement of the expanded files, duplicates kept |
| Frames.FoundSortedListing | src/wrapper.py:108-112 | without a frame range, the result is the one sorted rearrangement of the files found |
| Order.Sort | src/wrapper.py:112 | `sorted` returns an ordered permutation of its input |
| Order.SortedUnique | src/wrapper.py:112 | two ordered permutations of the same list are equal, so `sorted` has only one possible result |
| Strings.Split | src/wrapper.py:129 | the pieces contain no separator; the first piece is the text before the first separator; a string without one is its own only piece |
| Strings.SplitJoin | src/wrapper.py:101-103 | joining the pieces of a split with the separator gives the string back |
| Strings.StripShape | src/wrapper.py:168 | `strip` returns a slice of the input with only the stripped character removed at either end, and none left at the ends |
| Scenarios.ExampleRenderRuns | src/wrapper.py:125-138 | channels `R G B A depth.Z lightgroup.R lightgroup.G` group into `rgba` 0-3, `depth` 4 and `lightgroup` 5-6 |
| Scenarios.ExampleRenderSplit | src/wrapper.py:116-195 | splitting that render gives three subimages, named `rgba`, `depth` and `lightgroup`, reading those channels |
| Scenarios.ExampleTrailingChannel | src/wrapper.py:134-138 | a trailing channel of a new layer (`R G B A Z`) is written into the layer before it |

## Left out

- `main`, `bu_dir`, `find_sequence`, `frame_of`, the command-line parser and `src/mainwindow.py`
  are not part of this model. They are file-system plumbing and the user interface around the
  core.
- OpenImageIO is not modelled. Its work is represented by the records it returns:
  - image loading and `nsubimages`;
  - `nonzero_region`, an input to the model;
  - `channels`, `cut` and `get_pixels`: a buffer is described by its subimage, channel list and
    region, not by its pixel values;
  - EXR encoding;
  - `geterror`.
- The writer's answers are an input (`accepts`, by open ordinal). Errors from
  `ImageOutput.create`, `write_image` and `close` are not modelled, because the code does not
  check them.
- The glob branch of `find_files`: the pattern rewrite and the directory search. The found files
  are a parameter (`listing`); only the sort is modelled.
- Printing and the `verbose` option, including the names collected (and only printed) in the
  multi-part branch.
- The `TypeError` raised while erasing an attribute is not modelled; erasing a name present in
  the snapshot always succeeds.
- Attribute names match exactly, including case; OpenImageIO's own name rules are not modelled.
- The typed and untyped `attribute` calls when copying metadata are modelled alike: the
  attribute is stored with its type and value.
- `attribute('compression', None)` when the source has no compression attribute is modelled as
  leaving `compression` unset.
- The relation between a spec's region and its `x`, `y`, `width` and `height` fields is not
  modelled: OpenImageIO keeps them in step.
- Format.ParseInt: a chosen restriction. `int()` is modelled as ASCII digits with whitespace
  around them. A sign (`+1001`, `-5`), underscores (`1_001`), non-ASCII digits and non-ASCII
  whitespace are refused, where Python reads a number. Negative frames would also need signed
  `%d` formatting.
- Frames.Number: inherits that restriction; such frame numbers give `BadNumber`.
- Format.Interpolate: models `%` only for templates with exactly one `d` conversion, with an
  optional `0` flag and an optional width (`%d`, `%4d` padded with spaces, `%04d`). Other forms
  (`%%`, `%i`, `%u`, `%s`, the flags `-`, `+`, space and `#`) are refused as if Python raised.
- Metadata.UpdateSpec: the erase loop walks a copy of the attributes taken on entry. Erasing
  while iterating the live list is not modelled; that would skip the attribute after each erased
  one (for example the second of two adjacent manifests).
- Split.SplitSpecsMatchPixels: a run's buffer is described by the run's requested channel list.
  The effect on `ImageBufAlgo.cut` of the region's channel end 4 is not modelled; a cut that
  honours it would keep at most four channels of a longer run.
- Sequence.MatchAt: reads `\d` as the ASCII digits, not every Unicode decimal digit.

## Findings

| source | as written | input that shows it | evidently intended | confidence | as-written member | corrected member |
|---|---|---|---|---|---|---|
| src/wrapper.py:70-71 | `path.replace(padding, …)` rewrites every occurrence of the matched frame digits in the path, not just the one before `.exr` | `1001/1001.exr` becomes `%04d/%04d.exr`. That template has two conversions, so filling in a frame raises | Convert only the matched placeholder, giving `1001/%04d.exr` | high, not executed | Sequence.DetectSequence, Sequence.RepeatedFrameNumber | Sequence.DetectFrame, Sequence.DetectFrameRoundTrip |
