/**
 * The command handler's projection of the parsed document into the catalog:
 * the structure guard, the family-major flattening into sub-family groups,
 * the description fallback, and the empty-catalog check.
 */
module CatalogBuilder {
  import opened Wrappers
  import opened PdscTree
  import opened DeviceCatalog

  /** The description a device without `description` children gets. */
  const Placeholder: string := "No description available"

  /** Why no catalog was produced; each aborts the command with a message. */
  datatype BuildError =
    | InvalidStructure  // `package.devices[0].family` is missing
    | NoSubFamilies     // the flattened group list is empty
    | ProcessingFailed  // an attribute record was read that is missing, which throws

  /**
   * The guarded path `package?.devices?.[0]?.family`: absent when any link of
   * the chain is missing, and only the first `devices` element counts.
   */
  function FamiliesOf(doc: Document): (r: Option<seq<FamilyNode>>)
    ensures doc.NoRoot? || doc.package.None? ==> r.None?
    ensures doc.Document? && doc.package.Some? && doc.package.value.devices.None? ==> r.None?
    ensures doc.Document? && doc.package.Some? && doc.package.value.devices == Some([]) ==> r.None?
    ensures doc.Document? && doc.package.Some? && doc.package.value.devices.Some? && |doc.package.value.devices.value| > 0 ==>
              r == doc.package.value.devices.value[0].family
  {
    match doc
    case NoRoot => None
    case Document(package) =>
      match package
      case None => None
      case Some(p) =>
        match p.devices
        case None => None
        case Some(ds) => if |ds| == 0 then None else ds[0].family
  }

  /** The value of attribute `key`, or undefined when the record lacks it. */
  function Lookup(a: Attributes, key: string): Text {
    if key in a then Str(a[key]) else Undefined
  }

  /** Reads `attrs.key`: a missing record throws, a missing key reads as undefined. */
  function Attribute(attrs: Option<Attributes>, key: string): Result<Text, BuildError> {
    match attrs
    case None => Failure(ProcessingFailed)
    case Some(a) => Success(Lookup(a, key))
  }

  /** Indexing element 0 of a string array, which is undefined for an empty one. */
  function First(xs: seq<string>): Text {
    if |xs| == 0 then Undefined else Str(xs[0])
  }

  // ---------------------------------------------------------------------------
  // What each produced entry must be, stated element by element.
  // ---------------------------------------------------------------------------

  /** `d` is the row built for the `device` element `n`. */
  ghost predicate DeviceFrom(d: Device, n: DeviceNode) {
    && n.attrs.Some?
    && d.name == Lookup(n.attrs.value, "Dname")
    && (n.description.None? ==> d.description == Str(Placeholder))
    && (n.description.Some? && |n.description.value| > 0 ==> d.description == Str(n.description.value[0]))
    && (n.description == Some([]) ==> d.description == Undefined)
  }

  /** `g` is the group built for the `subFamily` element `sf`: same label, same devices in order. */
  ghost predicate GroupFrom(g: Group, sf: SubFamilyNode) {
    && sf.attrs.Some?
    && g.name == Lookup(sf.attrs.value, "DsubFamily")
    && |g.devices| == |Children(sf.device)|
    && forall j :: 0 <= j < |g.devices| ==> DeviceFrom(g.devices[j], Children(sf.device)[j])
  }

  /** `c` holds exactly one group per element of `subs`, in the same order. */
  ghost predicate CatalogFrom(c: Catalog, subs: seq<SubFamilyNode>) {
    && |c| == |subs|
    && forall k :: 0 <= k < |c| ==> GroupFrom(c[k], subs[k])
  }

  /** Every sub-family and every device under it carries an attribute record. */
  ghost predicate Attributed(subs: seq<SubFamilyNode>) {
    forall k :: 0 <= k < |subs| ==>
      && subs[k].attrs.Some?
      && forall j :: 0 <= j < |Children(subs[k].device)| ==> Children(subs[k].device)[j].attrs.Some?
  }

  // ---------------------------------------------------------------------------
  // The projection.
  // ---------------------------------------------------------------------------

  /** One `device` element to one row. */
  function ProjectDevice(n: DeviceNode): (r: Result<Device, BuildError>)
    ensures r.Success? <==> n.attrs.Some?
    ensures r.Failure? ==> r.error == ProcessingFailed
    ensures r.Success? ==> DeviceFrom(r.value, n)
  {
    var name :- Attribute(n.attrs, "Dname");
    var description := match n.description
      case None => Str(Placeholder)
      case Some(ds) => First(ds);
    Success(Device(name, description))
  }

  /** One `subFamily` element to one group; no `device` children gives no devices. */
  function ProjectSubFamily(sf: SubFamilyNode): (r: Result<Group, BuildError>)
    ensures r.Success? <==> Attributed([sf])
    ensures r.Failure? ==> r.error == ProcessingFailed
    ensures r.Success? ==> GroupFrom(r.value, sf)
  {
    assert Attributed([sf]) <==>
      sf.attrs.Some? && forall j :: 0 <= j < |Children(sf.device)| ==> Children(sf.device)[j].attrs.Some?
    by {
      assert [sf][0] == sf;
    }
    var name :- Attribute(sf.attrs, "DsubFamily");
    var devices :- TryMap(Children(sf.device), ProjectDevice);
    Success(Group(name, devices))
  }

  /**
   * The `subFamily` elements of all families, family-major, in document order:
   * every sub-family of every family is in it, and nothing else is.
   */
  function AllSubFamilies(fams: seq<FamilyNode>): (r: seq<SubFamilyNode>)
    ensures forall f, s :: 0 <= f < |fams| && 0 <= s < |Children(fams[f].subFamily)| ==>
              Children(fams[f].subFamily)[s] in r
    ensures forall x :: x in r ==> exists f :: 0 <= f < |fams| && x in Children(fams[f].subFamily)
  {
    if |fams| == 0 then [] else Children(fams[0].subFamily) + AllSubFamilies(fams[1..])
  }

  /** Device elements over a list of sub-families. */
  function DeviceNodeCount(subs: seq<SubFamilyNode>): nat {
    if |subs| == 0 then 0 else |Children(subs[0].device)| + DeviceNodeCount(subs[1..])
  }

  /**
   * The whole builder: structure guard, flattening, empty check. Reading
   * `package` of a null parse result throws, and so does a projection that
   * reads a missing attribute record; the handler's catch reports both as
   * ProcessingFailed. The order of the checks is the source's, so an empty
   * flattened list never reaches a throw.
   */
  function Build(doc: Document): (r: Result<Catalog, BuildError>)
    ensures doc.NoRoot? ==> r == Failure(ProcessingFailed)
    ensures r == Failure(InvalidStructure) <==> doc.Document? && FamiliesOf(doc).None?
    ensures r == Failure(ProcessingFailed) <==>
              || doc.NoRoot?
              || (&& FamiliesOf(doc).Some?
                  && |AllSubFamilies(FamiliesOf(doc).value)| > 0
                  && !Attributed(AllSubFamilies(FamiliesOf(doc).value)))
    ensures r == Failure(NoSubFamilies) <==>
              FamiliesOf(doc).Some? && |AllSubFamilies(FamiliesOf(doc).value)| == 0
    ensures r.Success? <==>
              && FamiliesOf(doc).Some?
              && |AllSubFamilies(FamiliesOf(doc).value)| > 0
              && Attributed(AllSubFamilies(FamiliesOf(doc).value))
    ensures r.Success? ==> |r.value| > 0 && CatalogFrom(r.value, AllSubFamilies(FamiliesOf(doc).value))
  {
    if doc.NoRoot? then Failure(ProcessingFailed) else
    match FamiliesOf(doc)
    case None => Failure(InvalidStructure)
    case Some(fams) =>
      var subs := AllSubFamilies(fams);
      assert forall k :: 0 <= k < |subs| ==> (ProjectSubFamily(subs[k]).Success? <==> Attributed([subs[k]]));
      var groups :- TryMap(subs, ProjectSubFamily);
      if |groups| == 0 then Failure(NoSubFamilies) else Success(groups)
  }

  // ---------------------------------------------------------------------------
  // Flattening order.
  // ---------------------------------------------------------------------------

  /** Flattening distributes over concatenation of family lists. */
  lemma {:induction false} AllSubFamiliesAppend(a: seq<FamilyNode>, b: seq<FamilyNode>)
    ensures AllSubFamilies(a + b) == AllSubFamilies(a) + AllSubFamilies(b)
  {
    if |a| == 0 {
      assert a + b == b;
    } else {
      assert (a + b)[1..] == a[1..] + b;
      AllSubFamiliesAppend(a[1..], b);
    }
  }

  /**
   * Family `f` adds exactly its own sub-families after those of the families
   * before it; a family without `subFamily` children adds none.
   */
  lemma FamilyContributesItsSubFamilies(fams: seq<FamilyNode>, f: nat)
    requires f < |fams|
    ensures AllSubFamilies(fams[..f + 1]) == AllSubFamilies(fams[..f]) + Children(fams[f].subFamily)
    ensures fams[f].subFamily.None? ==> AllSubFamilies(fams[..f + 1]) == AllSubFamilies(fams[..f])
  {
    assert fams[..f + 1] == fams[..f] + [fams[f]];
    AllSubFamiliesAppend(fams[..f], [fams[f]]);
    assert AllSubFamilies([fams[f]]) == Children(fams[f].subFamily) + AllSubFamilies([]);
  }

  /**
   * Family-major order: sub-family `s` of family `f` sits right after every
   * sub-family of the earlier families, at offset `s`.
   */
  lemma FamilyMajorOrder(fams: seq<FamilyNode>, f: nat, s: nat)
    requires f < |fams| && s < |Children(fams[f].subFamily)|
    ensures |AllSubFamilies(fams[..f])| + s < |AllSubFamilies(fams)|
    ensures AllSubFamilies(fams)[|AllSubFamilies(fams[..f])| + s] == Children(fams[f].subFamily)[s]
  {
    assert fams == fams[..f] + [fams[f]] + fams[f + 1..];
    AllSubFamiliesAppend(fams[..f] + [fams[f]], fams[f + 1..]);
    FamilyContributesItsSubFamilies(fams, f);
    assert fams[..f + 1] == fams[..f] + [fams[f]];
  }

  // ---------------------------------------------------------------------------
  // Counting and the rest of the document.
  // ---------------------------------------------------------------------------

  /** A catalog built from `subs` holds as many rows as `subs` holds device elements. */
  lemma {:induction false} CatalogFromCountsDevices(c: Catalog, subs: seq<SubFamilyNode>)
    requires CatalogFrom(c, subs)
    ensures TotalDevices(c) == DeviceNodeCount(subs)
  {
    if |c| > 0 {
      assert CatalogFrom(c[1..], subs[1..]) by {
        forall k | 0 <= k < |c[1..]|
          ensures GroupFrom(c[1..][k], subs[1..][k])
        {
          assert GroupFrom(c[k + 1], subs[k + 1]);
        }
      }
      CatalogFromCountsDevices(c[1..], subs[1..]);
      assert GroupFrom(c[0], subs[0]);
    }
  }

  /** The built catalog's row count is the number of device elements under all families. */
  lemma BuildCountsDevices(doc: Document)
    requires Build(doc).Success?
    ensures TotalDevices(Build(doc).value) == DeviceNodeCount(AllSubFamilies(FamiliesOf(doc).value))
  {
    CatalogFromCountsDevices(Build(doc).value, AllSubFamilies(FamiliesOf(doc).value));
  }

  /** `devices` elements after the first one are never read. */
  lemma BuildReadsOnlyFirstDevicesElement(first: DevicesNode, rest: seq<DevicesNode>)
    ensures Build(Document(Some(PackageNode(Some([first] + rest)))))
         == Build(Document(Some(PackageNode(Some([first])))))
  {
  }

  /**
   * A `family` list that is present but empty passes the structure guard
   * (an array is truthy) and is reported as having no sub-families.
   */
  lemma EmptyFamilyListHasNoSubFamilies()
    ensures Build(Document(Some(PackageNode(Some([DevicesNode(Some([]))]))))) == Failure(NoSubFamilies)
  {
  }

  /** The element-wise description pins the catalog down: at most one catalog fits it. */
  lemma CatalogFromUnique(c: Catalog, c': Catalog, subs: seq<SubFamilyNode>)
    requires CatalogFrom(c, subs) && CatalogFrom(c', subs)
    ensures c == c'
  {
    forall k | 0 <= k < |c|
      ensures c[k] == c'[k]
    {
      assert GroupFrom(c[k], subs[k]) && GroupFrom(c'[k], subs[k]);
      forall j | 0 <= j < |c[k].devices|
        ensures c[k].devices[j] == c'[k].devices[j]
      {
        assert DeviceFrom(c[k].devices[j], Children(subs[k].device)[j]);
        assert DeviceFrom(c'[k].devices[j], Children(subs[k].device)[j]);
      }
    }
  }

  /**
   * Two families, one sub-family each: the groups come out in document order
   * with the family level gone, and the device without a description gets
   * the placeholder.
   */
  lemma TwoFamilyScenario()
    ensures
      var d1 := DeviceNode(Some(map["Dname" := "D1"]), Some(["First"]));
      var d2 := DeviceNode(Some(map["Dname" := "D2"]), Some(["Second"]));
      var d3 := DeviceNode(Some(map["Dname" := "D3"]), None);
      var famA := FamilyNode(Some([SubFamilyNode(Some(map["DsubFamily" := "Sub1"]), Some([d1, d2]))]));
      var famB := FamilyNode(Some([SubFamilyNode(Some(map["DsubFamily" := "Sub2"]), Some([d3]))]));
      Build(Document(Some(PackageNode(Some([DevicesNode(Some([famA, famB]))])))))
      == Success([
           Group(Str("Sub1"), [Device(Str("D1"), Str("First")), Device(Str("D2"), Str("Second"))]),
           Group(Str("Sub2"), [Device(Str("D3"), Str("No description available"))])
         ])
  {
    var d1 := DeviceNode(Some(map["Dname" := "D1"]), Some(["First"]));
    var d2 := DeviceNode(Some(map["Dname" := "D2"]), Some(["Second"]));
    var d3 := DeviceNode(Some(map["Dname" := "D3"]), None);
    var sub1 := SubFamilyNode(Some(map["DsubFamily" := "Sub1"]), Some([d1, d2]));
    var sub2 := SubFamilyNode(Some(map["DsubFamily" := "Sub2"]), Some([d3]));
    var fams := [FamilyNode(Some([sub1])), FamilyNode(Some([sub2]))];
    var doc := Document(Some(PackageNode(Some([DevicesNode(Some(fams))]))));
    var subs := [sub1, sub2];
    assert AllSubFamilies(fams[1..]) == [sub2] + AllSubFamilies(fams[2..]);
    assert AllSubFamilies(fams) == subs;
    var expected := [
      Group(Str("Sub1"), [Device(Str("D1"), Str("First")), Device(Str("D2"), Str("Second"))]),
      Group(Str("Sub2"), [Device(Str("D3"), Str(Placeholder))])
    ];
    assert GroupFrom(expected[0], sub1);
    assert GroupFrom(expected[1], sub2);
    assert CatalogFrom(expected, subs);
    assert Attributed(subs);
    CatalogFromUnique(Build(doc).value, expected, subs);
  }
}
