/** The OpenImageIO `ImageOutput` the wrapper writes through, and the order of calls it makes:
    open every part at once, then write the parts one by one, appending a subimage before every
    part but the first, and close. */
module Output {
  import opened Image

  /** How a part is opened: `open(dst, spec)` creates a file from one spec, `open(dst,
      (spec, ...))` creates a file from a tuple of part specs, and later opens append a
      subimage. */
  datatype Mode = Create | CreateParts | AppendSubimage

  /** One call made on the writer, with the result of an `open`. */
  datatype Event = Opened(mode: Mode, specs: seq<Spec>, ok: bool) | Wrote(pixels: Pixels) | Closed

  /** The calls made on the writer and what `rewrap` returns. */
  datatype Outcome = Outcome(events: seq<Event>, ok: bool)

  /** An `ImageOutput` for the destination file. Whether an `open` succeeds depends on the file
      system and the format library; `accepts(k)` says whether the open call numbered `k`
      (counting from 0) succeeds. `log` is every call made, in order. */
  class Writer {
    const accepts: nat -> bool
    var opens: nat
    var log: seq<Event>

    constructor (accepts: nat -> bool)
      ensures this.accepts == accepts && opens == 0 && log == []
    {
      this.accepts := accepts;
      opens := 0;
      log := [];
    }

    /** `open(dst, specs, mode)`. */
    method Open(mode: Mode, specs: seq<Spec>) returns (ok: bool)
      modifies this
      ensures ok == accepts(old(opens))
      ensures opens == old(opens) + 1 && log == old(log) + [Opened(mode, specs, ok)]
    {
      ok := accepts(opens);
      opens := opens + 1;
      log := log + [Opened(mode, specs, ok)];
    }

    /** `write_image(pixels)`; its result is not used by the wrapper. */
    method WriteImage(pixels: Pixels)
      modifies this
      ensures opens == old(opens) && log == old(log) + [Wrote(pixels)]
    {
      log := log + [Wrote(pixels)];
    }

    method Close()
      modifies this
      ensures opens == old(opens) && log == old(log) + [Closed]
    {
      log := log + [Closed];
    }
  }

  /** The calls for parts `j` onwards once the file is open: append the part, write it when the
      append succeeded, stop at the first failure, close after the last part. */
  function AppendParts(specs: seq<Spec>, pixels: seq<Pixels>, accepts: nat -> bool, j: nat): Outcome
    requires 1 <= j <= |pixels| == |specs|
    decreases |pixels| - j
  {
    if j == |pixels| then Outcome([Closed], true)
    else if !accepts(j) then Outcome([Opened(AppendSubimage, [specs[j]], false)], false)
    else
      var rest := AppendParts(specs, pixels, accepts, j + 1);
      Outcome([Opened(AppendSubimage, [specs[j]], true), Wrote(pixels[j])] + rest.events, rest.ok)
  }

  /** Writing a multi-part file: one open with every spec, then the parts. */
  function MultiPart(specs: seq<Spec>, pixels: seq<Pixels>, accepts: nat -> bool): Outcome
    requires 0 < |pixels| == |specs|
  {
    if !accepts(0) then Outcome([Opened(CreateParts, specs, false)], false)
    else
      var rest := AppendParts(specs, pixels, accepts, 1);
      Outcome([Opened(CreateParts, specs, true), Wrote(pixels[0])] + rest.events, rest.ok)
  }

  /** Writing a single-part file. */
  function SinglePart(spec: Spec, pixels: Pixels, accepts: nat -> bool): Outcome
  {
    if !accepts(0) then Outcome([Opened(Create, [spec], false)], false)
    else Outcome([Opened(Create, [spec], true), Wrote(pixels), Closed], true)
  }

  /** The open call that precedes part `j`: the one creating the file with every spec for part
      0, an append of its own spec for the others. */
  function PartOpen(specs: seq<Spec>, j: nat, ok: bool): Event
    requires j < |specs|
  {
    if j == 0 then Opened(CreateParts, specs, ok) else Opened(AppendSubimage, [specs[j]], ok)
  }

  /** `events` starts with parts `0` to `k - 1`, each opened successfully and then written. */
  predicate PartsWritten(events: seq<Event>, specs: seq<Spec>, pixels: seq<Pixels>, k: nat)
    requires k <= |specs| == |pixels|
  {
    2 * k <= |events|
    && forall j :: 0 <= j < k ==> events[2 * j] == PartOpen(specs, j, true) && events[2 * j + 1] == Wrote(pixels[j])
  }

  /** The pixel buffers written, in order. */
  function Writes(events: seq<Event>): seq<Pixels>
  {
    if |events| == 0 then []
    else Writes(events[..|events| - 1]) + (match events[|events| - 1] case Wrote(p) => [p] case _ => [])
  }

  lemma {:induction false} AppendAccepted(specs: seq<Spec>, pixels: seq<Pixels>, accepts: nat -> bool, j: nat)
    requires 1 <= j <= |pixels| == |specs|
    requires forall i :: j <= i < |pixels| ==> accepts(i)
    ensures var o := AppendParts(specs, pixels, accepts, j);
            o.ok && |o.events| == 2 * (|pixels| - j) + 1 && o.events[|o.events| - 1] == Closed
            && forall i :: j <= i < |pixels| ==>
                 o.events[2 * (i - j)] == PartOpen(specs, i, true) && o.events[2 * (i - j) + 1] == Wrote(pixels[i])
    decreases |pixels| - j
  {
    if j < |pixels| {
      AppendAccepted(specs, pixels, accepts, j + 1);
    }
  }

  lemma {:induction false} AppendRejected(specs: seq<Spec>, pixels: seq<Pixels>, accepts: nat -> bool, j: nat, k: nat)
    requires 1 <= j <= k < |pixels| == |specs|
    requires (forall i :: j <= i < k ==> accepts(i)) && !accepts(k)
    ensures var o := AppendParts(specs, pixels, accepts, j);
            !o.ok && |o.events| == 2 * (k - j) + 1 && o.events[2 * (k - j)] == PartOpen(specs, k, false)
            && forall i :: j <= i < k ==>
                 o.events[2 * (i - j)] == PartOpen(specs, i, true) && o.events[2 * (i - j) + 1] == Wrote(pixels[i])
    decreases k - j
  {
    if j < k {
      AppendRejected(specs, pixels, accepts, j + 1, k);
    }
  }

  /** When every open succeeds, every part is opened and then written, in order, the file is
      closed last, and the write is reported as successful. */
  lemma MultiPartAccepted(specs: seq<Spec>, pixels: seq<Pixels>, accepts: nat -> bool)
    requires 0 < |pixels| == |specs|
    requires forall i :: 0 <= i < |pixels| ==> accepts(i)
    ensures var o := MultiPart(specs, pixels, accepts);
            o.ok && |o.events| == 2 * |pixels| + 1 && PartsWritten(o.events, specs, pixels, |pixels|)
            && o.events[2 * |pixels|] == Closed
  {
    AppendAccepted(specs, pixels, accepts, 1);
    var o := MultiPart(specs, pixels, accepts);
    var rest := AppendParts(specs, pixels, accepts, 1);
    forall j | 1 <= j < |pixels|
      ensures o.events[2 * j] == PartOpen(specs, j, true) && o.events[2 * j + 1] == Wrote(pixels[j])
    {
      assert o.events[2 * j] == rest.events[2 * (j - 1)];
      assert o.events[2 * j + 1] == rest.events[2 * (j - 1) + 1];
    }
  }

  /** When open call `k` is the first to fail, parts `0` to `k - 1` are opened and written, the
      failed open is the last call, the file is never closed, and the write is reported as
      failed. */
  lemma MultiPartRejected(specs: seq<Spec>, pixels: seq<Pixels>, accepts: nat -> bool, k: nat)
    requires k < |pixels| == |specs|
    requires (forall i :: 0 <= i < k ==> accepts(i)) && !accepts(k)
    ensures var o := MultiPart(specs, pixels, accepts);
            !o.ok && |o.events| == 2 * k + 1 && PartsWritten(o.events, specs, pixels, k)
            && o.events[2 * k] == PartOpen(specs, k, false)
  {
    if k > 0 {
      AppendRejected(specs, pixels, accepts, 1, k);
      var o := MultiPart(specs, pixels, accepts);
      var rest := AppendParts(specs, pixels, accepts, 1);
      forall j | 1 <= j < k
        ensures o.events[2 * j] == PartOpen(specs, j, true) && o.events[2 * j + 1] == Wrote(pixels[j])
      {
        assert o.events[2 * j] == rest.events[2 * (j - 1)];
        assert o.events[2 * j + 1] == rest.events[2 * (j - 1) + 1];
      }
      assert o.events[2 * k] == rest.events[2 * (k - 1)];
    }
  }

  /** The first open call among `0` to `n - 1` that fails, when there is one. */
  lemma FirstRejected(accepts: nat -> bool, n: nat) returns (k: nat)
    requires exists i :: 0 <= i < n && !accepts(i)
    ensures k < n && !accepts(k) && forall i :: 0 <= i < k ==> accepts(i)
  {
    k := 0;
    while accepts(k)
      invariant k < n && forall i :: 0 <= i < k ==> accepts(i)
      decreases n - k
    {
      k := k + 1;
    }
  }

  /** The multi-part write reports success exactly when every open call succeeds. */
  lemma MultiPartOk(specs: seq<Spec>, pixels: seq<Pixels>, accepts: nat -> bool)
    requires 0 < |pixels| == |specs|
    ensures MultiPart(specs, pixels, accepts).ok <==> forall i :: 0 <= i < |pixels| ==> accepts(i)
  {
    if forall i :: 0 <= i < |pixels| ==> accepts(i) {
      MultiPartAccepted(specs, pixels, accepts);
    } else {
      var k := FirstRejected(accepts, |pixels|);
      MultiPartRejected(specs, pixels, accepts, k);
    }
  }

  lemma {:induction false} WritesAlternating(events: seq<Event>, specs: seq<Spec>, pixels: seq<Pixels>, k: nat)
    requires k <= |specs| == |pixels|
    requires PartsWritten(events, specs, pixels, k)
    ensures Writes(events[..2 * k]) == pixels[..k]
  {
    if k > 0 {
      WritesAlternating(events, specs, pixels, k - 1);
      var e := events[..2 * k];
      assert e[..|e| - 1] == events[..2 * k - 1];
      assert events[..2 * k - 1][..2 * (k - 1)] == events[..2 * (k - 1)];
      assert Writes(events[..2 * k - 1]) == Writes(events[..2 * (k - 1)]) by {
        assert events[..2 * k - 1] == events[..2 * (k - 1)] + [events[2 * k - 2]];
      }
      assert pixels[..k] == pixels[..k - 1] + [pixels[k - 1]];
    }
  }

  /** What ends up in the file: every part when every open succeeds, else exactly the parts
      before the first failed open. */
  lemma MultiPartWrites(specs: seq<Spec>, pixels: seq<Pixels>, accepts: nat -> bool)
    requires 0 < |pixels| == |specs|
    ensures var o := MultiPart(specs, pixels, accepts);
            (o.ok ==> Writes(o.events) == pixels)
            && (!o.ok ==> exists k :: 0 <= k < |pixels| && !accepts(k) && Writes(o.events) == pixels[..k])
  {
    var o := MultiPart(specs, pixels, accepts);
    MultiPartOk(specs, pixels, accepts);
    if o.ok {
      MultiPartAccepted(specs, pixels, accepts);
      WritesAlternating(o.events, specs, pixels, |pixels|);
      assert o.events == o.events[..2 * |pixels|] + [Closed];
      assert pixels[..|pixels|] == pixels;
    } else {
      var k := FirstRejected(accepts, |pixels|);
      MultiPartRejected(specs, pixels, accepts, k);
      WritesAlternating(o.events, specs, pixels, k);
      assert o.events == o.events[..2 * k] + [o.events[2 * k]];
    }
  }

  /** The specs given to an open call are always among the specs of the parts. */
  predicate OpensAmong(events: seq<Event>, specs: seq<Spec>)
  {
    forall e :: e in events && e.Opened? ==> forall s :: s in e.specs ==> s in specs
  }

  lemma {:induction false} AppendOpensAmong(specs: seq<Spec>, pixels: seq<Pixels>, accepts: nat -> bool, j: nat)
    requires 1 <= j <= |pixels| == |specs|
    ensures OpensAmong(AppendParts(specs, pixels, accepts, j).events, specs)
    decreases |pixels| - j
  {
    if j < |pixels| && accepts(j) {
      AppendOpensAmong(specs, pixels, accepts, j + 1);
    }
  }

  /** Nothing but the specs of the parts is ever handed to the writer. */
  lemma MultiPartOpensAmong(specs: seq<Spec>, pixels: seq<Pixels>, accepts: nat -> bool)
    requires 0 < |pixels| == |specs|
    ensures OpensAmong(MultiPart(specs, pixels, accepts).events, specs)
  {
    if accepts(0) {
      AppendOpensAmong(specs, pixels, accepts, 1);
    }
  }

  lemma {:induction false} AppendClosedIffOk(specs: seq<Spec>, pixels: seq<Pixels>, accepts: nat -> bool, j: nat)
    requires 1 <= j <= |pixels| == |specs|
    ensures var o := AppendParts(specs, pixels, accepts, j);
            |o.events| > 0 && (o.ok <==> Closed in o.events) && (o.ok ==> o.events[|o.events| - 1] == Closed)
    decreases |pixels| - j
  {
    if j < |pixels| && accepts(j) {
      AppendClosedIffOk(specs, pixels, accepts, j + 1);
    }
  }

  /** The file is closed exactly when the write succeeds, and then closing is the last call. */
  lemma MultiPartClosedIffOk(specs: seq<Spec>, pixels: seq<Pixels>, accepts: nat -> bool)
    requires 0 < |pixels| == |specs|
    ensures var o := MultiPart(specs, pixels, accepts);
            (o.ok <==> Closed in o.events) && (o.ok ==> o.events[|o.events| - 1] == Closed)
  {
    if accepts(0) {
      AppendClosedIffOk(specs, pixels, accepts, 1);
    }
  }

  /** A single-part write opens once with its one spec; when that open succeeds it writes the
      buffer and closes, else it stops there. */
  lemma SinglePartCalls(spec: Spec, pixels: Pixels, accepts: nat -> bool)
    ensures var o := SinglePart(spec, pixels, accepts);
            (o.ok <==> accepts(0)) && OpensAmong(o.events, [spec])
            && (o.ok <==> Closed in o.events) && Writes(o.events) == (if o.ok then [pixels] else [])
  {
    var o := SinglePart(spec, pixels, accepts);
    if accepts(0) {
      var e1 := [Opened(Create, [spec], true)];
      var e2 := e1 + [Wrote(pixels)];
      assert e1[..0] == [] && Writes(e1) == [];
      assert e2[..1] == e1 && Writes(e2) == [pixels];
      assert o.events == e2 + [Closed] && o.events[..2] == e2;
    } else {
      assert o.events[..0] == [];
    }
  }
}
