/**
 * The webview's `filterDevices`: from the search text alone, recomputes
 * whether every device row and every sub-family group is shown.
 */
module DeviceFilter {
  import opened Strings
  import opened DeviceCatalog

  /**
   * The reference meaning of a match: the lower-cased search text occurs in
   * the lower-cased device text or in the lower-cased group label.
   */
  ghost predicate Matches(search: string, g: Group, d: Device) {
    || OccursIn(Lower(search), Lower(Render(d.name)))
    || OccursIn(Lower(search), Lower(Render(g.name)))
  }

  /** What one pass of the filter decides for one group. */
  datatype GroupView = GroupView(shown: bool, devices: seq<bool>)

  /** The per-device test the filter runs: true exactly on a case-insensitive match. */
  function DeviceShown(search: string, g: Group, d: Device): (r: bool)
    ensures r <==> Matches(search, g, d)
  {
    var needle := Lower(search);
    Includes(Lower(Render(d.name)), needle) || Includes(Lower(Render(g.name)), needle)
  }

  /** One group: a flag per device, and the group is shown when some device is. */
  function FilterGroup(search: string, g: Group): (r: GroupView)
    ensures |r.devices| == |g.devices|
    ensures forall j :: 0 <= j < |g.devices| ==> (r.devices[j] <==> Matches(search, g, g.devices[j]))
    ensures r.shown <==> exists j :: 0 <= j < |g.devices| && Matches(search, g, g.devices[j])
  {
    var flags := seq(|g.devices|, j requires 0 <= j < |g.devices| => DeviceShown(search, g, g.devices[j]));
    assert forall j :: 0 <= j < |g.devices| ==> flags[j] == DeviceShown(search, g, g.devices[j]);
    GroupView(true in flags, flags)
  }

  /** The whole filter: one view per group, in catalog order. */
  function Visibility(c: Catalog, search: string): (r: seq<GroupView>)
    ensures |r| == |c|
    ensures forall i :: 0 <= i < |c| ==> |r[i].devices| == |c[i].devices|
    ensures forall i, j :: 0 <= i < |c| && 0 <= j < |c[i].devices| ==>
              (r[i].devices[j] <==> Matches(search, c[i], c[i].devices[j]))
    ensures forall i :: 0 <= i < |c| ==>
              (r[i].shown <==> exists j :: 0 <= j < |c[i].devices| && Matches(search, c[i], c[i].devices[j]))
  {
    seq(|c|, i requires 0 <= i < |c| => FilterGroup(search, c[i]))
  }

  /** A group is shown exactly when at least one of its device rows is. */
  lemma GroupShownIffSomeDeviceShown(c: Catalog, search: string, i: nat)
    requires i < |c|
    ensures Visibility(c, search)[i].shown <==> true in Visibility(c, search)[i].devices
  {
  }

  /** The empty search text shows every device row and every non-empty group. */
  lemma EmptySearchShowsEverything(c: Catalog)
    ensures forall i, j :: 0 <= i < |c| && 0 <= j < |c[i].devices| ==> Visibility(c, "")[i].devices[j]
    ensures forall i :: 0 <= i < |c| && |c[i].devices| > 0 ==> Visibility(c, "")[i].shown
  {
    assert Lower("") == "";
    forall i, j | 0 <= i < |c| && 0 <= j < |c[i].devices|
      ensures Matches("", c[i], c[i].devices[j])
    {
      EmptyOccursEverywhere(Lower(Render(c[i].devices[j].name)));
    }
    forall i | 0 <= i < |c| && |c[i].devices| > 0
      ensures Visibility(c, "")[i].shown
    {
      assert Matches("", c[i], c[i].devices[0]);
    }
  }

  /** A group with no devices is hidden by every search, the empty one included. */
  lemma EmptyGroupAlwaysHidden(c: Catalog, search: string, i: nat)
    requires i < |c| && |c[i].devices| == 0
    ensures !Visibility(c, search)[i].shown
  {
  }

  /** Case does not matter: the search and its lower-cased form show the same rows. */
  lemma SearchIgnoresCase(c: Catalog, search: string)
    ensures Visibility(c, Lower(search)) == Visibility(c, search)
  {
    LowerIdempotent(search);
    var a := Visibility(c, Lower(search));
    var b := Visibility(c, search);
    forall i | 0 <= i < |c|
      ensures a[i] == b[i]
    {
      assert a[i].devices == b[i].devices;
    }
  }

  /** A group whose label contains the search text shows all of its devices. */
  lemma GroupLabelMatchShowsWholeGroup(c: Catalog, search: string, i: nat)
    requires i < |c|
    requires Includes(Lower(Render(c[i].name)), Lower(search))
    ensures forall j :: 0 <= j < |c[i].devices| ==> Visibility(c, search)[i].devices[j]
    ensures Visibility(c, search)[i].shown <==> |c[i].devices| > 0
  {
    if |c[i].devices| > 0 {
      assert Matches(search, c[i], c[i].devices[0]);
    }
  }

  /** A device that matches a search text also matches every substring of it. */
  lemma NarrowingKeepsMatch(shorter: string, longer: string, g: Group, d: Device)
    requires OccursIn(shorter, longer) && Matches(longer, g, d)
    ensures Matches(shorter, g, d)
  {
    LowerKeepsOccurrence(shorter, longer);
    if OccursIn(Lower(longer), Lower(Render(d.name))) {
      OccursTransitive(Lower(shorter), Lower(longer), Lower(Render(d.name)));
    } else {
      OccursTransitive(Lower(shorter), Lower(longer), Lower(Render(g.name)));
    }
  }

  /**
   * Narrowing the search only hides rows: if the longer text shows row `j` of
   * group `i`, a text contained in it shows that row and its group as well.
   */
  lemma NarrowingSearchOnlyHides(c: Catalog, shorter: string, longer: string, i: nat, j: nat)
    requires OccursIn(shorter, longer) && i < |c| && j < |c[i].devices|
    requires Visibility(c, longer)[i].devices[j]
    ensures Visibility(c, shorter)[i].devices[j]
    ensures Visibility(c, shorter)[i].shown
  {
    NarrowingKeepsMatch(shorter, longer, c[i], c[i].devices[j]);
  }

  /** The one-group catalog of the examples below: sub-family "M4" holding "STM32F407". */
  function M4Catalog(): Catalog {
    [Group(Str("M4"), [Device(Str("STM32F407"), Undefined)])]
  }

  /** Searching "m4" matches the group label, "407" and "Stm32" match the device name. */
  lemma M4MatchExamples()
    ensures Visibility(M4Catalog(), "m4")[0].devices[0]
    ensures Visibility(M4Catalog(), "407")[0].devices[0]
    ensures Visibility(M4Catalog(), "Stm32")[0].devices[0]
  {
    var c := M4Catalog();
    var name := Lower("STM32F407");
    assert name == "stm32f407";
    assert Lower("m4") == "m4" && Lower("M4") == "m4" && OccursAt("m4", "m4", 0);
    assert Lower("407") == "407" && OccursAt("407", name, 6);
    assert Lower("Stm32") == "stm32" && OccursAt("stm32", name, 0);
  }

  /** Searching "xyz" hides the device and its group; the empty search shows both. */
  lemma M4HideExamples()
    ensures !Visibility(M4Catalog(), "xyz")[0].devices[0]
    ensures !Visibility(M4Catalog(), "xyz")[0].shown
    ensures Visibility(M4Catalog(), "")[0].shown
  {
    var c := M4Catalog();
    assert Lower("xyz") == "xyz";
    assert Lower("STM32F407") == "stm32f407";
    assert Lower("M4") == "m4";
    AbsentFirstCharacter("xyz", "stm32f407");
    AbsentFirstCharacter("xyz", "m4");
    EmptySearchShowsEverything(c);
  }
}
