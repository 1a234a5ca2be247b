/** How `split_subimages` cuts the channel list of a flat image into layers: the layer key of a
    channel name, the places where a new layer starts, and the runs of channels that result. */
module Channels {
  import opened Strings

  /** The channel names `R`, `G`, `B` and `A`, which form the layer `rgba`. */
  predicate IsRgba(name: string)
  {
    |name| == 1 && (name[0] == 'R' || name[0] == 'G' || name[0] == 'B' || name[0] == 'A')
  }

  /** The layer key of a channel: `rgba` for exactly `R`, `G`, `B` and `A`, otherwise the part
      of the name before its first `.` (the whole name when it has none). */
  function Key(name: string): string
  {
    if IsRgba(name) then "rgba" else Before(name, '.')
  }

  lemma KeySpec(name: string)
    ensures name == "R" || name == "G" || name == "B" || name == "A" ==> Key(name) == "rgba"
    ensures !(name == "R" || name == "G" || name == "B" || name == "A") ==> Key(name) == Split(name, '.')[0]
    ensures !(name == "R" || name == "G" || name == "B" || name == "A") ==>
              var k := Key(name); k <= name && '.' !in k && (|k| < |name| ==> name[|k|] == '.')
  {
    BeforeSplit(name, '.');
    if IsRgba(name) {
      assert name == [name[0]];
    } else {
      assert !(name == "R" || name == "G" || name == "B" || name == "A");
    }
  }

  function Keys(names: seq<string>): (keys: seq<string>)
    ensures |keys| == |names| && forall i :: 0 <= i < |names| ==> keys[i] == Key(names[i])
  {
    seq(|names|, i requires 0 <= i < |names| => Key(names[i]))
  }

  /** A new layer starts at channel `k` when `k` is neither the first nor the last channel, the
      previous channel's key is not empty, and the key changes there. The last channel never
      starts a layer: it always joins the layer that is open. */
  predicate Boundary(keys: seq<string>, k: int)
  {
    0 < k < |keys| - 1 && keys[k - 1] != "" && keys[k] != keys[k - 1]
  }

  /** One subimage of the split: channels `subStart` to `subEnd`, both included, and the name
      the subimage is given. */
  datatype Run = Run(subStart: nat, subEnd: nat, name: string)

  /** The start of the layer that is open at channel `q`: the last boundary at or before `q`,
      or 0. */
  function LastStart(keys: seq<string>, q: nat): (s: nat)
    requires q < |keys|
    ensures s <= q && (s == 0 || Boundary(keys, s))
    ensures forall j {:trigger Boundary(keys, j)} :: s < j <= q ==> !Boundary(keys, j)
  {
    if q == 0 then 0 else if Boundary(keys, q) then q else LastStart(keys, q - 1)
  }

  /** The runs closed by the boundaries at channels 1 to `q`: a boundary at `k` closes the run
      from the previous start to `k - 1`, named after the key of channel `k - 1`. */
  function Closed(keys: seq<string>, q: nat): seq<Run>
    requires q < |keys|
  {
    if q == 0 then []
    else Closed(keys, q - 1) + (if Boundary(keys, q) then [Run(LastStart(keys, q - 1), q - 1, keys[q - 1])] else [])
  }

  /** The subimages of the split, in order: the runs closed by the boundaries, then the run
      still open, which takes the last channel and is named after the key of the channel before
      it, or `""` when the image has a single channel. */
  function Runs(keys: seq<string>): seq<Run>
  {
    if |keys| == 0 then []
    else
      var q := if |keys| >= 2 then |keys| - 2 else 0;
      Closed(keys, q) + [Run(LastStart(keys, q), |keys| - 1, if |keys| == 1 then "" else keys[|keys| - 2])]
  }

  /** The runs, in order, cover channels 0 to `n - 1` one after the other: each run is non-empty
      and starts right after the previous one ends. */
  predicate Contiguous(runs: seq<Run>, n: nat)
  {
    (|runs| == 0 <==> n == 0)
    && (|runs| > 0 ==> runs[0].subStart == 0 && runs[|runs| - 1].subEnd == n - 1)
    && (forall i :: 0 <= i < |runs| ==> runs[i].subStart <= runs[i].subEnd)
    && (forall i :: 0 <= i < |runs| - 1 ==> runs[i + 1].subStart == runs[i].subEnd + 1)
  }

  /** The closed runs tile the channels before the open run's start. */
  lemma {:induction false} ClosedContiguous(keys: seq<string>, q: nat)
    requires q < |keys|
    ensures Contiguous(Closed(keys, q), LastStart(keys, q))
  {
    if q > 0 {
      ClosedContiguous(keys, q - 1);
    }
  }

  /** Every channel is in exactly one run, the runs come in channel order, and none is empty. */
  lemma RunsContiguous(keys: seq<string>)
    ensures Contiguous(Runs(keys), |keys|)
  {
    if |keys| > 0 {
      var q := if |keys| >= 2 then |keys| - 2 else 0;
      ClosedContiguous(keys, q);
      ContiguousSnoc(Closed(keys, q), Run(LastStart(keys, q), |keys| - 1, if |keys| == 1 then "" else keys[|keys| - 2]));
    }
  }

  /** A non-empty run that starts where contiguous runs end extends them. */
  lemma ContiguousSnoc(runs: seq<Run>, run: Run)
    requires Contiguous(runs, run.subStart) && run.subStart <= run.subEnd
    ensures Contiguous(runs + [run], run.subEnd + 1)
  {
    var r := runs + [run];
    assert r[|r| - 1] == run;
    if |runs| > 0 {
      assert r[0] == runs[0] && r[|runs| - 1] == runs[|runs| - 1];
    }
  }

  /** `[a, a + 1, …, b - 1]`. */
  function Range(a: nat, b: nat): seq<nat>
    requires a <= b
    decreases b - a
  {
    if a == b then [] else [a] + Range(a + 1, b)
  }

  /** `Range(a, b)` lists `a` to `b - 1` in increasing order. */
  lemma {:induction false} RangeSpec(a: nat, b: nat)
    requires a <= b
    ensures |Range(a, b)| == b - a && forall i :: 0 <= i < b - a ==> Range(a, b)[i] == a + i
    decreases b - a
  {
    if a < b {
      RangeSpec(a + 1, b);
    }
  }

  /** The channel indices of the runs, run after run. */
  function Indices(runs: seq<Run>): seq<nat>
  {
    if |runs| == 0 then []
    else
      var last := runs[|runs| - 1];
      Indices(runs[..|runs| - 1]) + (if last.subStart <= last.subEnd then Range(last.subStart, last.subEnd + 1) else [])
  }

  /** Consecutive ranges join into one. */
  lemma RangeJoin(a: nat, b: nat, c: nat)
    requires a <= b <= c
    ensures Range(a, b) + Range(b, c) == Range(a, c)
  {
    RangeSpec(a, b);
    RangeSpec(b, c);
    RangeSpec(a, c);
    assert forall i :: 0 <= i < c - a ==> (Range(a, b) + Range(b, c))[i] == Range(a, c)[i];
  }

  /** Without their last run, contiguous runs cover the channels before that run's start. */
  lemma ContiguousInit(runs: seq<Run>, n: nat)
    requires Contiguous(runs, n) && |runs| > 0
    ensures Contiguous(runs[..|runs| - 1], runs[|runs| - 1].subStart)
  {
    var init := runs[..|runs| - 1];
    if |init| > 0 {
      assert init[|init| - 1] == runs[|runs| - 2];
      assert runs[|runs| - 1].subStart == runs[|runs| - 2].subEnd + 1;
    }
  }

  /** Contiguous runs list the channel indices 0 to `n - 1` exactly once each, in order. */
  lemma IndicesLast(runs: seq<Run>, n: nat)
    requires Contiguous(runs, n) && |runs| > 0
    ensures var last := runs[|runs| - 1];
            last.subStart <= n && Indices(runs) == Indices(runs[..|runs| - 1]) + Range(last.subStart, n)
  {
  }

  lemma {:induction false} ContiguousIndices(runs: seq<Run>, n: nat)
    requires Contiguous(runs, n)
    ensures Indices(runs) == Range(0, n)
  {
    if |runs| > 0 {
      var init := runs[..|runs| - 1];
      var last := runs[|runs| - 1];
      ContiguousInit(runs, n);
      IndicesLast(runs, n);
      ContiguousIndices(init, last.subStart);
      RangeJoin(0, last.subStart, n);
    }
  }

  /** The partition of the channels: concatenating the runs' channel indices in emission order
      gives 0 to `n - 1`, nothing dropped, duplicated or reordered. */
  lemma RunsPartition(keys: seq<string>)
    ensures Indices(Runs(keys)) == Range(0, |keys|)
  {
    RunsContiguous(keys);
    ContiguousIndices(Runs(keys), |keys|);
  }

  /** The channels at which a run of `runs` starts. */
  function Starts(runs: seq<Run>): set<nat>
  {
    set i | 0 <= i < |runs| :: runs[i].subStart
  }

  /** The set of boundaries among channels 1 to `q`. */
  function BoundariesUpTo(keys: seq<string>, q: nat): set<nat>
  {
    set k | 0 < k <= q && Boundary(keys, k)
  }

  /** The closed runs start at 0 and at every boundary up to `q` but the last, which starts the
      open run. */
  lemma {:induction false} ClosedStarts(keys: seq<string>, q: nat)
    requires q < |keys|
    ensures Starts(Closed(keys, q)) + {LastStart(keys, q)} == {0} + BoundariesUpTo(keys, q)
  {
    if q > 0 {
      ClosedStarts(keys, q - 1);
      var prev := Closed(keys, q - 1);
      var before := BoundariesUpTo(keys, q - 1);
      assert Starts(prev) + {LastStart(keys, q - 1)} == {0} + before;
      if Boundary(keys, q) {
        var r := Run(LastStart(keys, q - 1), q - 1, keys[q - 1]);
        assert Closed(keys, q) == prev + [r];
        assert Starts(prev + [r]) == Starts(prev) + {r.subStart} by {
          assert forall i :: 0 <= i < |prev| ==> (prev + [r])[i] == prev[i];
          assert (prev + [r])[|prev|] == r;
        }
        assert BoundariesUpTo(keys, q) == before + {q};
        assert LastStart(keys, q) == q;
      } else {
        assert Closed(keys, q) == prev;
        assert BoundariesUpTo(keys, q) == before;
        assert LastStart(keys, q) == LastStart(keys, q - 1);
      }
    }
  }

  /** Channel `k` after the first starts a run exactly when it is a boundary; in particular the
      last channel never starts one. */
  lemma RunsStartAtBoundaries(keys: seq<string>, k: nat)
    requires 0 < k < |keys|
    ensures (exists i :: 0 <= i < |Runs(keys)| && Runs(keys)[i].subStart == k) <==> Boundary(keys, k)
  {
    var q := if |keys| >= 2 then |keys| - 2 else 0;
    ClosedStarts(keys, q);
    var runs := Runs(keys);
    var closed := Closed(keys, q);
    var open := Run(LastStart(keys, q), |keys| - 1, if |keys| == 1 then "" else keys[|keys| - 2]);
    assert Starts(runs) == Starts(closed) + {open.subStart} by {
      assert forall i :: 0 <= i < |closed| ==> runs[i] == closed[i];
      assert runs[|closed|] == open;
    }
    assert k in Starts(runs) <==> exists i :: 0 <= i < |runs| && runs[i].subStart == k;
  }

  /** A run closed by a boundary is named after the key of its own last channel. */
  lemma {:induction false} ClosedNames(keys: seq<string>, q: nat)
    requires q < |keys|
    ensures forall r :: r in Closed(keys, q) ==> r.subEnd < |keys| && r.name == keys[r.subEnd]
  {
    if q > 0 { ClosedNames(keys, q - 1); }
  }

  /** The name of each run: the key of its last channel, except for the final run, which
      carries the key of the second-to-last channel of the image, or `""` for a single channel. */
  lemma RunsNames(keys: seq<string>)
    ensures forall i :: 0 <= i < |Runs(keys)| - 1 ==>
              Runs(keys)[i].subEnd < |keys| && Runs(keys)[i].name == keys[Runs(keys)[i].subEnd]
    ensures |keys| == 1 ==> Runs(keys)[0].name == ""
    ensures |keys| >= 2 ==> Runs(keys)[|Runs(keys)| - 1].name == keys[|keys| - 2]
  {
    if |keys| > 0 {
      var q := if |keys| >= 2 then |keys| - 2 else 0;
      ClosedNames(keys, q);
      assert forall i :: 0 <= i < |Runs(keys)| - 1 ==> Runs(keys)[i] in Closed(keys, q);
    }
  }

  /** Run `i`, when it is not the last, is named after the key of its own last channel. */
  lemma RunNameAt(keys: seq<string>, i: nat)
    requires i + 1 < |Runs(keys)|
    ensures Runs(keys)[i].subEnd < |keys| && Runs(keys)[i].name == keys[Runs(keys)[i].subEnd]
  {
    RunsNames(keys);
  }

  /** The last run takes the last channel and, in an image of two or more channels, at least
      the channel before it too: a last channel with a key of its own is merged into the run
      before it. */
  lemma LastChannelJoins(keys: seq<string>)
    requires |keys| >= 2
    ensures var last := Runs(keys)[|Runs(keys)| - 1];
            last.subEnd == |keys| - 1 && last.subStart <= |keys| - 2
  {
  }

  /** Only the first run starts at channel 0, so only it receives the source's attributes. */
  lemma OnlyFirstRunAtZero(keys: seq<string>, i: nat)
    requires i < |Runs(keys)|
    ensures Runs(keys)[i].subStart == 0 <==> i == 0
  {
    RunsContiguous(keys);
    var runs := Runs(keys);
    if i > 0 {
      StartsIncrease(runs, |keys|, i);
    }
  }

  lemma {:induction false} StartsIncrease(runs: seq<Run>, n: nat, i: nat)
    requires Contiguous(runs, n) && 0 < i < |runs|
    ensures runs[i].subStart > 0
  {
    assert runs[i].subStart == runs[i - 1].subEnd + 1;
  }

  lemma KeyOfDotted(layer: string, rest: string)
    requires '.' !in layer && layer != ""
    ensures Key(layer + "." + rest) == layer
  {
    BeforeSplit(layer + "." + rest, '.');
    SplitFirstPiece(layer, rest, '.');
    assert layer + "." + rest == layer + ['.'] + rest;
    assert (layer + "." + rest)[|layer|] == '.';
  }

  /** The `fix_channels` rename: a name containing `depth.z` becomes `depth.Z`. */
  function FixedName(name: string): string
  {
    if Contains(name, "depth.z") then "depth.Z" else name
  }

  /** The output channel names of a subimage: renamed when `fix_channels` is on, else as given. */
  function OutputNames(names: seq<string>, fixChannels: bool): (r: seq<string>)
    ensures |r| == |names|
  {
    if fixChannels then seq(|names|, i requires 0 <= i < |names| => FixedName(names[i])) else names
  }

  /** The renaming loop of the split. */
  method FixChannelNames(src: seq<string>) returns (dst: seq<string>)
    ensures |dst| == |src|
    ensures forall i :: 0 <= i < |src| ==> dst[i] == (if Contains(src[i], "depth.z") then "depth.Z" else src[i])
    ensures dst == OutputNames(src, true)
  {
    dst := [];
    for i := 0 to |src|
      invariant |dst| == i
      invariant forall j :: 0 <= j < i ==> dst[j] == (if Contains(src[j], "depth.z") then "depth.Z" else src[j])
    {
      var channelName := src[i];
      if Contains(channelName, "depth.z") {
        channelName := "depth.Z";
      }
      dst := dst + [channelName];
    }
    assert forall i :: 0 <= i < |src| ==> dst[i] == OutputNames(src, true)[i];
  }
}
