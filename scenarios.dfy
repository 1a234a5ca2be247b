/** Worked scenarios: the channel layouts the wrapper is meant for, grouped into layers. */
module Scenarios {
  import opened Wrappers
  import opened Strings
  import opened Image
  import opened Channels
  import opened Split

  lemma KeysAppend(a: seq<string>, b: seq<string>)
    ensures Keys(a + b) == Keys(a) + Keys(b)
  {
  }

  lemma KeysOfThree(a: string, b: string, c: string)
    ensures Keys([a, b, c]) == [Key(a), Key(b), Key(c)]
  {
  }

  lemma ExampleColourKeys()
    ensures Keys(["R", "G", "B", "A"]) == ["rgba", "rgba", "rgba", "rgba"]
  {
  }

  lemma ExampleDepthKey()
    ensures Key("depth.Z") == "depth"
  {
    KeyOfDotted("depth", "Z");
    assert "depth" + "." + "Z" == "depth.Z";
  }

  lemma ExampleLightgroupKeys()
    ensures Key("lightgroup.R") == "lightgroup" && Key("lightgroup.G") == "lightgroup"
  {
    KeyOfDotted("lightgroup", "R");
    assert "lightgroup" + "." + "R" == "lightgroup.R";
    KeyOfDotted("lightgroup", "G");
    assert "lightgroup" + "." + "G" == "lightgroup.G";
  }

  lemma ExampleLayerKeys()
    ensures Keys(["depth.Z", "lightgroup.R", "lightgroup.G"]) == ["depth", "lightgroup", "lightgroup"]
  {
    ExampleDepthKey();
    ExampleLightgroupKeys();
    KeysOfThree("depth.Z", "lightgroup.R", "lightgroup.G");
  }

  /** The layer keys of a typical render: colour, depth and one light group. */
  lemma ExampleRenderKeys()
    ensures Keys(["R", "G", "B", "A", "depth.Z", "lightgroup.R", "lightgroup.G"])
            == ["rgba", "rgba", "rgba", "rgba", "depth", "lightgroup", "lightgroup"]
  {
    ExampleColourKeys();
    ExampleLayerKeys();
    KeysAppend(["R", "G", "B", "A"], ["depth.Z", "lightgroup.R", "lightgroup.G"]);
    assert ["R", "G", "B", "A"] + ["depth.Z", "lightgroup.R", "lightgroup.G"]
           == ["R", "G", "B", "A", "depth.Z", "lightgroup.R", "lightgroup.G"];
  }

  /** How those keys are grouped: boundaries at 4 and 5 only. */
  lemma ExampleRenderGroups()
    ensures Runs(["rgba", "rgba", "rgba", "rgba", "depth", "lightgroup", "lightgroup"])
            == [Run(0, 3, "rgba"), Run(4, 4, "depth"), Run(5, 6, "lightgroup")]
  {
    var keys := ["rgba", "rgba", "rgba", "rgba", "depth", "lightgroup", "lightgroup"];
    assert !Boundary(keys, 1) && !Boundary(keys, 2) && !Boundary(keys, 3);
    assert Boundary(keys, 4) && Boundary(keys, 5);
    assert LastStart(keys, 3) == 0;
    assert Closed(keys, 3) == [];
    assert Closed(keys, 4) == [Run(0, 3, "rgba")];
    assert LastStart(keys, 4) == 4;
    assert Closed(keys, 5) == [Run(0, 3, "rgba"), Run(4, 4, "depth")];
    assert LastStart(keys, 5) == 5;
  }

  /** The runs of that render: colour on 0-3, depth on 4, the light group on 5-6. */
  lemma ExampleRenderRuns()
    ensures Runs(Keys(["R", "G", "B", "A", "depth.Z", "lightgroup.R", "lightgroup.G"]))
            == [Run(0, 3, "rgba"), Run(4, 4, "depth"), Run(5, 6, "lightgroup")]
  {
    ExampleRenderKeys();
    ExampleRenderGroups();
  }

  /** A single channel gives one run, named `""` because no previous key was seen. */
  lemma ExampleSingleChannel(name: string)
    ensures Runs(Keys([name])) == [Run(0, 0, "")]
  {
  }

  /** A trailing channel with a layer of its own is written into the layer before it. */
  lemma ExampleTrailingChannel()
    ensures Runs(Keys(["R", "G", "B", "A", "Z"])) == [Run(0, 4, "rgba")]
  {
    var keys := Keys(["R", "G", "B", "A", "Z"]);
    assert Key("Z") == "Z";
    assert keys == ["rgba", "rgba", "rgba", "rgba", "Z"];
    assert !Boundary(keys, 1) && !Boundary(keys, 2) && !Boundary(keys, 3);
    assert LastStart(keys, 3) == 0;
    assert Closed(keys, 3) == [];
  }


  /** A source whose channels group into colour on 0-3, depth on 4 and a light group on 5-6
      splits into three subimages with those names, reading those channels. */
  lemma RenderRunsSplit(src: Spec, compression: Option<string>, rmManifest: bool, fixChannels: bool, roi: Roi)
    requires WellFormed(src)
    requires |src.channelNames| == 7
    requires Runs(Keys(src.channelNames)) == [Run(0, 3, "rgba"), Run(4, 4, "depth"), Run(5, 6, "lightgroup")]
    ensures var parts := SplitPlan(src, compression, rmManifest, fixChannels, roi);
            parts.names == ["rgba", "depth", "lightgroup"]
            && ChannelsIn(parts.pixels[0]) == src.channelNames[0..4]
            && ChannelsIn(parts.pixels[1]) == src.channelNames[4..5]
            && ChannelsIn(parts.pixels[2]) == src.channelNames[5..7]
  {
    PlanPixelsAt(src, compression, rmManifest, fixChannels, roi, 0);
    PlanPixelsAt(src, compression, rmManifest, fixChannels, roi, 1);
    PlanPixelsAt(src, compression, rmManifest, fixChannels, roi, 2);
  }

  lemma RenderSlices(names: seq<string>)
    requires names == ["R", "G", "B", "A", "depth.Z", "lightgroup.R", "lightgroup.G"]
    ensures |names| == 7 && names[0..4] == ["R", "G", "B", "A"] && names[4..5] == ["depth.Z"]
            && names[5..7] == ["lightgroup.R", "lightgroup.G"]
  {
    assert names[0..4] == [names[0], names[1], names[2], names[3]];
    assert names[4..5] == [names[4]];
    assert names[5..7] == [names[5], names[6]];
  }

  /** Splitting that render writes three subimages, `rgba`, `depth` and `lightgroup`, reading
      the colour channels, the depth channel and the two light-group channels. */
  lemma ExampleRenderSplit(src: Spec, compression: Option<string>, rmManifest: bool, fixChannels: bool, roi: Roi)
    requires WellFormed(src)
    requires src.channelNames == ["R", "G", "B", "A", "depth.Z", "lightgroup.R", "lightgroup.G"]
    ensures var parts := SplitPlan(src, compression, rmManifest, fixChannels, roi);
            parts.names == ["rgba", "depth", "lightgroup"]
            && ChannelsIn(parts.pixels[0]) == ["R", "G", "B", "A"]
            && ChannelsIn(parts.pixels[1]) == ["depth.Z"]
            && ChannelsIn(parts.pixels[2]) == ["lightgroup.R", "lightgroup.G"]
  {
    ExampleRenderRuns();
    RenderSlices(src.channelNames);
    RenderRunsSplit(src, compression, rmManifest, fixChannels, roi);
  }
}
