/** `find_files`: the list of frame files a sequence template stands for, either from an explicit
    frame range such as `1001-1010,1020` or from the files found on disk. */
module Frames {
  import opened Wrappers
  import opened Strings
  import opened Format
  import opened Order

  /** Why the source raises instead of returning a list: a range part without exactly one `-`,
      a frame number `int` refuses, or a path that `%` cannot fill in. */
  datatype FindError = BadRange(part: string) | BadNumber(text: string) | BadTemplate(path: string)

  /** `range(first, last + 1)`: the frames from `first` to `last`, both included. */
  function Inclusive(first: nat, last: nat): (r: seq<nat>)
    ensures |r| == if first <= last then last - first + 1 else 0
    ensures forall i :: 0 <= i < |r| ==> r[i] == first + i
    decreases last + 1 - first
  {
    if first > last then [] else [first] + Inclusive(first + 1, last)
  }

  /** `int(text)` on a frame number. */
  function Number(text: string): (r: Result<nat, FindError>)
    ensures r.Ok? <==> |Trim(text)| > 0 && AllDigits(Trim(text))
    ensures r.Ok? ==> r.value == ParseDigits(Trim(text))
    ensures r.Err? ==> r.error == BadNumber(text)
  {
    match ParseInt(text)
    case None => Err(BadNumber(text))
    case Some(n) => Ok(n)
  }

  /** The frames one comma-separated part of the range stands for: `first-last`, or a single
      frame. The first number is read before the second. */
  function PartFrames(part: string): Result<seq<nat>, FindError>
  {
    if '-' in part then
      var pieces := Split(part, '-');
      if |pieces| != 2 then Err(BadRange(part))
      else
        match Number(pieces[0])
        case Err(e) => Err(e)
        case Ok(first) =>
          match Number(pieces[1])
          case Err(e) => Err(e)
          case Ok(last) => Ok(Inclusive(first, last))
    else
      match Number(part)
      case Err(e) => Err(e)
      case Ok(n) => Ok([n])
  }

  /** `path % frame` for every frame in order, stopping at the first that raises. */
  function Instances(path: string, frames: seq<nat>): Result<seq<string>, FindError>
    decreases |frames|
  {
    if |frames| == 0 then Ok([])
    else
      match Instances(path, frames[..|frames| - 1])
      case Err(e) => Err(e)
      case Ok(files) =>
        match Interpolate(path, frames[|frames| - 1])
        case None => Err(BadTemplate(path))
        case Some(f) => Ok(files + [f])
  }

  /** The files one part of the range contributes. */
  function PartFiles(path: string, part: string): Result<seq<string>, FindError>
  {
    match PartFrames(part)
    case Err(e) => Err(e)
    case Ok(frames) => Instances(path, frames)
  }

  /** The files of a list of results in order, or the first error among them. */
  function Gather(results: seq<Result<seq<string>, FindError>>): Result<seq<string>, FindError>
    decreases |results|
  {
    if |results| == 0 then Ok([])
    else
      match Gather(results[..|results| - 1])
      case Err(e) => Err(e)
      case Ok(files) =>
        match results[|results| - 1]
        case Err(e) => Err(e)
        case Ok(more) => Ok(files + more)
  }

  /** What each part of the range contributes on its own. */
  function PartResults(path: string, parts: seq<string>): (r: seq<Result<seq<string>, FindError>>)
    ensures |r| == |parts| && forall i :: 0 <= i < |parts| ==> r[i] == PartFiles(path, parts[i])
  {
    seq(|parts|, i requires 0 <= i < |parts| => PartFiles(path, parts[i]))
  }

  /** The files of the parts in order, stopping at the first part that raises. */
  function Expand(path: string, parts: seq<string>): Result<seq<string>, FindError>
  {
    Gather(PartResults(path, parts))
  }

  /** What `find_files` returns: the path itself when it is no template, the sorted expansion
      of a non-empty frame range, and otherwise the sorted files found on disk (`listing`). */
  function Found(path: string, framerange: Option<string>, listing: seq<string>): (r: Result<seq<string>, FindError>)
    ensures '%' !in path ==> r == Ok([path])
    ensures r.Ok? ==> Sorted(r.value)
  {
    if '%' !in path then Ok([path])
    else if framerange.Some? && framerange.value != "" then
      match Expand(path, Split(framerange.value, ','))
      case Err(e) => Err(e)
      case Ok(files) => Ok(Sort(files))
    else Ok(Sort(listing))
  }

  /** Once a prefix of the frames raises, so do all the frames. */
  lemma {:induction false} InstancesErrStays(path: string, frames: seq<nat>, m: nat)
    requires m <= |frames| && Instances(path, frames[..m]).Err?
    ensures Instances(path, frames) == Instances(path, frames[..m])
    decreases |frames| - m
  {
    if m < |frames| {
      assert frames[..m + 1][..m] == frames[..m];
      InstancesErrStays(path, frames, m + 1);
    } else {
      assert frames[..m] == frames;
    }
  }

  /** Once a prefix of the results is an error, so is the whole list. */
  lemma {:induction false} GatherErrStays(results: seq<Result<seq<string>, FindError>>, m: nat)
    requires m <= |results| && Gather(results[..m]).Err?
    ensures Gather(results) == Gather(results[..m])
    decreases |results| - m
  {
    if m < |results| {
      assert results[..m + 1][..m] == results[..m];
      GatherErrStays(results, m + 1);
    } else {
      assert results[..m] == results;
    }
  }

  /** One more frame filled in extends the files by one. */
  lemma InstancesStep(path: string, frames: seq<nat>, j: nat, files: seq<string>, f: string)
    requires j < |frames| && Instances(path, frames[..j]) == Ok(files)
    requires Interpolate(path, frames[j]) == Some(f)
    ensures Instances(path, frames[..j + 1]) == Ok(files + [f])
  {
    assert frames[..j + 1][..j] == frames[..j];
  }

  /** A frame that cannot be filled in makes the whole list raise. */
  lemma InstancesFail(path: string, frames: seq<nat>, j: nat)
    requires j < |frames| && Instances(path, frames[..j]).Ok?
    requires Interpolate(path, frames[j]).None?
    ensures Instances(path, frames) == Err(BadTemplate(path))
  {
    assert frames[..j + 1][..j] == frames[..j];
    InstancesErrStays(path, frames, j + 1);
  }

  /** Appends `path % frame` for every frame from `first` to `last` to `files`. */
  method AppendFrames(path: string, first: nat, last: nat, files: seq<string>) returns (r: Result<seq<string>, FindError>)
    ensures match Instances(path, Inclusive(first, last))
            case Err(e) => r == Err(e)
            case Ok(more) => r == Ok(files + more)
  {
    ghost var frames := Inclusive(first, last);
    var acc := files;
    ghost var added: seq<string> := [];
    if first <= last {
      for i := first to last + 1
        invariant Instances(path, frames[..i - first]) == Ok(added)
        invariant acc == files + added
      {
        assert frames[i - first] == i;
        var f := AppendFrame(path, frames, i - first, i, added);
        if f.None? {
          return Err(BadTemplate(path));
        }
        acc := acc + [f.value];
        added := added + [f.value];
      }
      FramesDone(path, frames, first, last);
    } else {
      assert files + [] == files;
    }
    return Ok(acc);
  }

  /** `path % frame` for the frame at position `j` of `frames`, and what it does to the list. */
  method AppendFrame(path: string, ghost frames: seq<nat>, j: nat, frame: nat, ghost added: seq<string>)
    returns (f: Option<string>)
    requires j < |frames| && frames[j] == frame && Instances(path, frames[..j]) == Ok(added)
    ensures f.None? ==> Instances(path, frames) == Err(BadTemplate(path))
    ensures f.Some? ==> Instances(path, frames[..j + 1]) == Ok(added + [f.value])
  {
    f := Interpolate(path, frame);
    if f.None? {
      InstancesFail(path, frames, j);
    } else {
      InstancesStep(path, frames, j, added, f.value);
    }
  }

  /** The frames from `first` to `last` are all taken once the loop has reached `last`. */
  lemma FramesDone(path: string, frames: seq<nat>, first: nat, last: nat)
    requires frames == Inclusive(first, last) && first <= last
    ensures frames[..last + 1 - first] == frames
  {
  }

  /** One part of the frame range: `first-last` or a single frame, its frames appended to
      `files`; a malformed part or number raises. */
  method ExpandPart(path: string, part: string, files: seq<string>) returns (next: Result<seq<string>, FindError>)
    ensures match PartFiles(path, part)
            case Err(e) => next == Err(e)
            case Ok(more) => next == Ok(files + more)
  {
    if '-' in part {
      var pieces := Split(part, '-');
      if |pieces| != 2 {
        next := Err(BadRange(part));
      } else {
        var first := Number(pieces[0]);
        var last := Number(pieces[1]);
        if first.Err? {
          next := Err(first.error);
        } else if last.Err? {
          next := Err(last.error);
        } else {
          next := AppendFrames(path, first.value, last.value, files);
        }
      }
    } else {
      var n := Number(part);
      if n.Err? {
        next := Err(n.error);
      } else {
        next := AppendFrames(path, n.value, n.value, files);
        assert Inclusive(n.value, n.value) == [n.value];
      }
    }
  }

  /** The frame-range branch of `find_files`: every part of `framerange.split(',')` appends its
      frames to the list, in order, until one raises. */
  method ExpandFrameRange(path: string, framerange: string) returns (r: Result<seq<string>, FindError>)
    ensures r == Expand(path, Split(framerange, ','))
  {
    var parts := Split(framerange, ',');
    ghost var results := PartResults(path, parts);
    var files: seq<string> := [];
    for k := 0 to |parts|
      invariant Gather(results[..k]) == Ok(files)
    {
      assert results[..k + 1][..k] == results[..k];
      var next := ExpandPart(path, parts[k], files);
      assert results[k] == PartFiles(path, parts[k]);
      if next.Err? {
        GatherErrStays(results, k + 1);
        assert results[..|results|] == results;
        return next;
      }
      files := next.value;
    }
    assert results[..|results|] == results;
    return Ok(files);
  }

  /** `find_files`, with the files a glob of the template would find given as `listing`. */
  method FindFiles(path: string, framerange: Option<string>, listing: seq<string>) returns (r: Result<seq<string>, FindError>)
    ensures r == Found(path, framerange, listing)
  {
    if '%' !in path {
      return Ok([path]);
    }
    var files: seq<string>;
    if framerange.Some? && framerange.value != "" {
      var expanded := ExpandFrameRange(path, framerange.value);
      if expanded.Err? {
        return expanded;
      }
      files := expanded.value;
    } else {
      files := listing;
    }
    return Ok(Sort(files));
  }

  /** `first-last` of two frame numbers `int` accepts stands for every frame from `first` to
      `last`. */
  lemma RangePart(first: string, last: string)
    requires Number(first).Ok? && Number(last).Ok?
    ensures PartFrames(first + "-" + last) == Ok(Inclusive(Number(first).value, Number(last).value))
  {
    NoDash(first);
    NoDash(last);
    SplitAtOnly(first, last, '-');
    assert (first + "-" + last)[|first|] == '-';
  }

  /** A part without `-` stands for the one frame it names. */
  lemma SinglePart(frame: string)
    requires Number(frame).Ok?
    ensures PartFrames(frame) == Ok([Number(frame).value])
  {
    NoDash(frame);
  }

  /** Text `int` accepts has no `-`, so it never splits a range part. */
  lemma NoDash(text: string)
    requires Number(text).Ok?
    ensures '-' !in text
  {
    ParsedChars(text);
    assert !IsSpace('-') && !IsDigit('-');
  }

  /** A frame written with spaces around it, as in `1001-1010, 1020`, is read as the number. */
  lemma SpacedFrame()
    ensures PartFrames(" 1020") == Ok([1020])
  {
    ParseIntSpaced(" ", "1020", "");
    assert " " + "1020" + "" == " 1020";
    assert ParseDigits("1020") == 1020 by {
      assert "1020"[..3] == "102" && "102"[..2] == "10" && "10"[..1] == "1" && "1"[..0] == "";
    }
    SinglePart(" 1020");
  }

  /** With a path that is a template, each file is the template filled with its frame, one file
      per frame and in the frames' order; with a path that is none, any frame raises. */
  lemma {:induction false} InstancesFilled(path: string, frames: seq<nat>)
    ensures ParseTemplate(path).Some? ==>
              Instances(path, frames).Ok? && |Instances(path, frames).value| == |frames|
              && forall j :: 0 <= j < |frames| ==> Some(Instances(path, frames).value[j]) == Interpolate(path, frames[j])
    ensures ParseTemplate(path).None? && |frames| > 0 ==> Instances(path, frames) == Err(BadTemplate(path))
    decreases |frames|
  {
    if |frames| > 0 {
      var init := frames[..|frames| - 1];
      InstancesFilled(path, init);
      if ParseTemplate(path).Some? {
        var files := Instances(path, init).value;
        var f := Interpolate(path, frames[|frames| - 1]).value;
        assert Instances(path, frames).value == files + [f];
        forall j | 0 <= j < |frames|
          ensures Some(Instances(path, frames).value[j]) == Interpolate(path, frames[j])
        {
          if j < |init| {
            assert frames[j] == init[j];
          }
        }
      }
    }
  }

  /** The results of a list gather into the files of its first part followed by those of
      the rest. */
  lemma {:induction false} GatherConcat(p: seq<Result<seq<string>, FindError>>, q: seq<Result<seq<string>, FindError>>)
    requires Gather(p).Ok? && Gather(q).Ok?
    ensures Gather(p + q) == Ok(Gather(p).value + Gather(q).value)
    decreases |q|
  {
    if |q| == 0 {
      assert p + q == p;
      assert Gather(p).value + [] == Gather(p).value;
    } else {
      var init, last := q[..|q| - 1], q[|q| - 1];
      assert (p + q)[..|p + q| - 1] == p + init && (p + q)[|p + q| - 1] == last;
      assert Gather(init).Ok? && last.Ok?;
      GatherConcat(p, init);
      var a, b0 := Gather(p).value, Gather(init).value;
      assert Gather(p + q) == Ok((a + b0) + last.value);
      assert (a + b0) + last.value == a + (b0 + last.value);
    }
  }

  /** The parts of a range contribute their files one after another. */
  lemma ExpandConcat(path: string, p: seq<string>, q: seq<string>)
    requires Expand(path, p).Ok? && Expand(path, q).Ok?
    ensures Expand(path, p + q) == Ok(Expand(path, p).value + Expand(path, q).value)
  {
    var rp, rq, r := PartResults(path, p), PartResults(path, q), PartResults(path, p + q);
    forall i | 0 <= i < |r|
      ensures r[i] == (rp + rq)[i]
    {
      if i < |p| {
        assert (p + q)[i] == p[i];
      } else {
        assert (p + q)[i] == q[i - |p|];
      }
    }
    assert r == rp + rq;
    GatherConcat(PartResults(path, p), PartResults(path, q));
  }

  /** With a frame range, `find_files` returns the files of the range sorted, each as often as
      the range names its frame: the one sorted rearrangement of the expansion. */
  lemma FoundSortedExpansion(path: string, framerange: string, listing: seq<string>, files: seq<string>, sorted: seq<string>)
    requires '%' in path && framerange != ""
    requires Expand(path, Split(framerange, ',')) == Ok(files)
    requires Sorted(sorted) && multiset(sorted) == multiset(files)
    ensures Found(path, Some(framerange), listing) == Ok(sorted)
  {
    SortedUnique(Sort(files), sorted);
  }

  /** Without a frame range, `find_files` returns the files found on disk, sorted. */
  lemma FoundSortedListing(path: string, framerange: Option<string>, listing: seq<string>, sorted: seq<string>)
    requires '%' in path && (framerange.None? || framerange.value == "")
    requires Sorted(sorted) && multiset(sorted) == multiset(listing)
    ensures Found(path, framerange, listing) == Ok(sorted)
  {
    SortedUnique(Sort(listing), sorted);
  }
}
