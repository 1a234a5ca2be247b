/** The attribute policy of the wrapper: how extra attributes are copied to a new subimage,
    how manifest attributes are dropped, and how compression is chosen. */
module Metadata {
  import opened Wrappers
  import opened Strings
  import opened Image

  /** The first attribute named `name`, as `getattribute` finds it. */
  function Lookup(attrs: seq<Attribute>, name: string): (r: Option<Attribute>)
    ensures r.Some? ==> r.value in attrs && r.value.name == name
    ensures r.None? ==> forall a :: a in attrs ==> a.name != name
  {
    if |attrs| == 0 then None
    else if attrs[0].name == name then Some(attrs[0])
    else Lookup(attrs[1..], name)
  }

  /** `spec.attribute(name, value)`: replaces the first attribute of that name in place, or adds
      the attribute at the end when there is none. What this achieves is stated separately, in
      `SetAttributeSpec`, so that contexts which only build attribute lists stay small. */
  function SetAttribute(attrs: seq<Attribute>, a: Attribute): seq<Attribute>
  {
    if |attrs| == 0 then [a]
    else if attrs[0].name == a.name then [a] + attrs[1..]
    else [attrs[0]] + SetAttribute(attrs[1..], a)
  }

  /** After setting, looking the name up finds the new attribute; nothing but the new attribute
      is added, no attribute of another name is lost, and a new name is appended at the end. */
  lemma {:induction false} SetAttributeSpec(attrs: seq<Attribute>, a: Attribute)
    ensures Lookup(SetAttribute(attrs, a), a.name) == Some(a)
    ensures forall x :: x in SetAttribute(attrs, a) ==> x == a || x in attrs
    ensures forall x :: x in attrs && x.name != a.name ==> x in SetAttribute(attrs, a)
    ensures Lookup(attrs, a.name).None? ==> SetAttribute(attrs, a) == attrs + [a]
  {
    if |attrs| > 0 {
      assert attrs == [attrs[0]] + attrs[1..];
      if attrs[0].name != a.name {
        SetAttributeSpec(attrs[1..], a);
        var r := SetAttribute(attrs, a);
        assert r[1..] == SetAttribute(attrs[1..], a);
      }
    }
  }

  /** Setting one attribute leaves what is found under every other name as it was. */
  lemma {:induction false} LookupOther(attrs: seq<Attribute>, a: Attribute, name: string)
    requires name != a.name
    ensures Lookup(SetAttribute(attrs, a), name) == Lookup(attrs, name)
  {
    if |attrs| > 0 && attrs[0].name != a.name {
      LookupOther(attrs[1..], a, name);
    }
  }

  /** Attribute names the manifest switch removes: those containing `manifest` (case-sensitive). */
  predicate IsManifest(name: string)
  {
    Contains(name, "manifest")
  }

  /** Whether the copy loop for the first subimage skips attribute `a`. */
  predicate Skipped(a: Attribute, rmManifest: bool)
  {
    rmManifest && IsManifest(a.name)
  }

  /** The extra attributes the first subimage of a split receives: the source's attributes, in
      order, each set with `SetAttribute`, manifest attributes skipped when asked. */
  function CopiedAttributes(src: seq<Attribute>, rmManifest: bool): seq<Attribute>
  {
    if |src| == 0 then []
    else
      var prev := CopiedAttributes(src[..|src| - 1], rmManifest);
      var a := src[|src| - 1];
      if Skipped(a, rmManifest) then prev else SetAttribute(prev, a)
  }

  /** The copy loop of the split (one `attribute` call per source attribute; the typed and the
      untyped call store the same name, type and value). */
  method CopyExtraAttributes(src: seq<Attribute>, rmManifest: bool) returns (attrs: seq<Attribute>)
    ensures attrs == CopiedAttributes(src, rmManifest)
  {
    attrs := [];
    for i := 0 to |src|
      invariant attrs == CopiedAttributes(src[..i], rmManifest)
    {
      assert src[..i + 1][..i] == src[..i];
      if Skipped(src[i], rmManifest) {
        continue;
      }
      attrs := SetAttribute(attrs, src[i]);
    }
    assert src[..|src|] == src;
  }

  /** Every copied attribute comes from the source and was not skipped; every attribute that
      was not skipped has its name in the copy. */
  lemma {:induction false} CopiedFromSource(src: seq<Attribute>, rmManifest: bool)
    ensures forall x :: x in CopiedAttributes(src, rmManifest) ==> x in src && !Skipped(x, rmManifest)
    ensures forall x :: x in src && !Skipped(x, rmManifest) ==> Lookup(CopiedAttributes(src, rmManifest), x.name).Some?
  {
    if |src| > 0 {
      var init := src[..|src| - 1];
      var a := src[|src| - 1];
      CopiedFromSource(init, rmManifest);
      assert src == init + [a];
      var prev := CopiedAttributes(init, rmManifest);
      if !Skipped(a, rmManifest) {
        SetAttributeSpec(prev, a);
        forall x | x in src && !Skipped(x, rmManifest)
          ensures Lookup(SetAttribute(prev, a), x.name).Some?
        {
          if x.name != a.name {
            var y := Lookup(prev, x.name).value;
            assert y in SetAttribute(prev, a);
            LookupFinds(SetAttribute(prev, a), y);
          }
        }
      }
    }
  }

  lemma {:induction false} LookupFinds(attrs: seq<Attribute>, y: Attribute)
    requires y in attrs
    ensures Lookup(attrs, y.name).Some?
  {
    if attrs[0] != y { LookupFinds(attrs[1..], y); }
  }

  predicate DistinctNames(attrs: seq<Attribute>)
  {
    forall i, j :: 0 <= i < j < |attrs| ==> attrs[i].name != attrs[j].name
  }

  /** The source's attributes, in order, without the skipped ones. */
  function Kept(src: seq<Attribute>, rmManifest: bool): seq<Attribute>
  {
    if |src| == 0 then []
    else
      var prev := Kept(src[..|src| - 1], rmManifest);
      if Skipped(src[|src| - 1], rmManifest) then prev else prev + [src[|src| - 1]]
  }

  /** When the source's attribute names are distinct, copying keeps every attribute that is
      not skipped, verbatim and in order. */
  lemma {:induction false} CopiedDistinct(src: seq<Attribute>, rmManifest: bool)
    requires DistinctNames(src)
    ensures CopiedAttributes(src, rmManifest) == Kept(src, rmManifest)
  {
    if |src| > 0 {
      var init := src[..|src| - 1];
      var a := src[|src| - 1];
      assert DistinctNames(init);
      CopiedDistinct(init, rmManifest);
      CopiedFromSource(init, rmManifest);
      if !Skipped(a, rmManifest) {
        var prev := CopiedAttributes(init, rmManifest);
        forall x | x in prev ensures x.name != a.name {
          var k :| 0 <= k < |init| && init[k] == x;
          assert src[k] == x;
        }
        assert Lookup(prev, a.name).None?;
        SetAttributeSpec(prev, a);
      }
    }
  }

  /** An attribute is kept exactly when it is in the source and not skipped. */
  lemma {:induction false} KeptHas(src: seq<Attribute>, rmManifest: bool)
    ensures forall x :: x in Kept(src, rmManifest) <==> x in src && !Skipped(x, rmManifest)
  {
    if |src| > 0 {
      KeptHas(src[..|src| - 1], rmManifest);
      assert src == src[..|src| - 1] + [src[|src| - 1]];
    }
  }

  /** The attributes whose names are in `names` removed, the others kept in order. */
  function Without(attrs: seq<Attribute>, names: set<string>): (r: seq<Attribute>)
    ensures forall x :: x in r <==> x in attrs && x.name !in names
  {
    if |attrs| == 0 then []
    else if attrs[0].name in names then Without(attrs[1..], names)
    else
      assert attrs == [attrs[0]] + attrs[1..];
      [attrs[0]] + Without(attrs[1..], names)
  }

  lemma {:induction false} WithoutNothing(attrs: seq<Attribute>)
    ensures Without(attrs, {}) == attrs
  {
    if |attrs| > 0 { WithoutNothing(attrs[1..]); }
  }

  /** `spec.erase_attribute(name)`: every attribute of that name removed. */
  function Erase(attrs: seq<Attribute>, name: string): seq<Attribute>
  {
    Without(attrs, {name})
  }

  lemma {:induction false} WithoutTwice(attrs: seq<Attribute>, s: set<string>, t: set<string>)
    ensures Without(Without(attrs, s), t) == Without(attrs, s + t)
  {
    if |attrs| > 0 { WithoutTwice(attrs[1..], s, t); }
  }

  /** The names of the manifest attributes among `attrs`. */
  function ManifestNames(attrs: seq<Attribute>): set<string>
  {
    set a | a in attrs && IsManifest(a.name) :: a.name
  }

  /** The attributes that are not manifest attributes, in order. */
  function NonManifest(attrs: seq<Attribute>): seq<Attribute>
  {
    if |attrs| == 0 then []
    else if IsManifest(attrs[0].name) then NonManifest(attrs[1..])
    else [attrs[0]] + NonManifest(attrs[1..])
  }

  /** Erasing the names of all manifest attributes leaves exactly the others, in order. */
  lemma {:induction false} WithoutManifest(attrs: seq<Attribute>, names: set<string>)
    requires forall a :: a in attrs ==> (a.name in names <==> IsManifest(a.name))
    ensures Without(attrs, names) == NonManifest(attrs)
  {
    if |attrs| > 0 {
      assert attrs[0] in attrs;
      forall a | a in attrs[1..] ensures a.name in names <==> IsManifest(a.name) {
        assert a in attrs;
      }
      WithoutManifest(attrs[1..], names);
    }
  }

  /** The compression override a `compression` option stands for: none for no option, for the
      empty string and for `keep`, else the option with its `'` quotes stripped. */
  function Override(compression: Option<string>): Option<string>
  {
    if compression.None? || compression.value == "keep" || compression.value == "" then None
    else Some(Strip(compression.value, '\''))
  }

  /** The extra attributes `update_specs` leaves: manifest attributes erased when asked, and the
      `Compression` attribute set when there is an override. */
  function UpdatedAttributes(attrs: seq<Attribute>, rmManifest: bool, compression: Option<string>): seq<Attribute>
  {
    var kept := if rmManifest then Without(attrs, ManifestNames(attrs)) else attrs;
    match compression
    case None => kept
    case Some(c) => SetAttribute(kept, Attribute("Compression", StringType, Text(c)))
  }

  /** A spec after `update_specs`: the region replaced, the attributes updated, everything else
      as it was. */
  function Updated(spec: Spec, roi: Roi, rmManifest: bool, compression: Option<string>): Spec
  {
    spec.(roi := roi, attribs := UpdatedAttributes(spec.attribs, rmManifest, compression))
  }

  /** `update_specs`: gives the spec the region, erases the manifest attributes one name at a
      time while walking the attributes the spec had on entry, and sets the compression. */
  method UpdateSpec(spec: Spec, roi: Roi, rmManifest: bool, compression: Option<string>) returns (r: Spec)
    ensures r == Updated(spec, roi, rmManifest, compression)
  {
    var attrs := spec.attribs;
    if rmManifest {
      var snapshot := attrs;
      WithoutNothing(snapshot);
      assert ManifestNames(snapshot[..0]) == {};
      for i := 0 to |snapshot|
        invariant attrs == Without(snapshot, ManifestNames(snapshot[..i]))
      {
        attrs := EraseStep(snapshot, i, attrs);
      }
      assert snapshot[..|snapshot|] == snapshot;
    }
    if compression.Some? {
      attrs := SetAttribute(attrs, Attribute("Compression", StringType, Text(compression.value)));
    }
    r := spec.(roi := roi, attribs := attrs);
  }

  /** One step of the erasing loop: attribute `i` of the snapshot is erased by name when it is
      a manifest attribute. */
  method EraseStep(snapshot: seq<Attribute>, i: nat, attrs: seq<Attribute>) returns (attrs': seq<Attribute>)
    requires i < |snapshot| && attrs == Without(snapshot, ManifestNames(snapshot[..i]))
    ensures attrs' == Without(snapshot, ManifestNames(snapshot[..i + 1]))
  {
    ManifestNamesSnoc(snapshot[..i], snapshot[i]);
    assert snapshot[..i + 1] == snapshot[..i] + [snapshot[i]];
    var done := ManifestNames(snapshot[..i]);
    attrs' := attrs;
    if IsManifest(snapshot[i].name) {
      WithoutTwice(snapshot, done, {snapshot[i].name});
      attrs' := Erase(attrs, snapshot[i].name);
      assert attrs' == Without(snapshot, done + {snapshot[i].name});
    } else {
      assert ManifestNames(snapshot[..i + 1]) == done;
    }
  }

  lemma ManifestNamesSnoc(s: seq<Attribute>, x: Attribute)
    ensures ManifestNames(s + [x]) == ManifestNames(s) + (if IsManifest(x.name) then {x.name} else {})
  {
    assert forall a :: a in s + [x] <==> a in s || a == x;
  }

  /** With the manifest switch no manifest attribute is left, the override aside. */
  lemma UpdatedDropsManifest(attrs: seq<Attribute>, compression: Option<string>)
    ensures forall a :: a in UpdatedAttributes(attrs, true, compression) ==> !IsManifest(a.name)
  {
    MissingCharNotContained("Compression", "manifest", 'f');
    if compression.Some? {
      SetAttributeSpec(Without(attrs, ManifestNames(attrs)), Attribute("Compression", StringType, Text(compression.value)));
    }
  }

  /** Without an override, `update_specs` only erases: the non-manifest attributes stay, in
      order, and without the manifest switch nothing changes. */
  lemma UpdatedWithoutOverride(attrs: seq<Attribute>, rmManifest: bool)
    ensures UpdatedAttributes(attrs, rmManifest, None) == if rmManifest then NonManifest(attrs) else attrs
  {
    if rmManifest {
      WithoutManifest(attrs, ManifestNames(attrs));
    }
  }

  /** With an override, the spec's `Compression` attribute holds it, and every attribute that is
      neither erased nor named `Compression` is still there. */
  lemma UpdatedWithOverride(attrs: seq<Attribute>, rmManifest: bool, c: string)
    ensures Lookup(UpdatedAttributes(attrs, rmManifest, Some(c)), "Compression")
            == Some(Attribute("Compression", StringType, Text(c)))
    ensures forall a :: a in attrs && !Skipped(a, rmManifest) && a.name != "Compression"
                        ==> a in UpdatedAttributes(attrs, rmManifest, Some(c))
  {
    var kept := if rmManifest then Without(attrs, ManifestNames(attrs)) else attrs;
    SetAttributeSpec(kept, Attribute("Compression", StringType, Text(c)));
  }
}
