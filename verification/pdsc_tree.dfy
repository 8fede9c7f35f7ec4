/**
 * The part of a parsed .pdsc document the catalog builder looks at, in the
 * shape an XML-to-object parser with explicit child arrays produces: every
 * child element list is an array that is absent when the element has no such
 * children, and an element's attributes sit in an optional attribute record.
 */
module PdscTree {
  import opened Wrappers

  /** An element's attribute record, from attribute name to value. */
  type Attributes = map<string, string>

  /** A `device` element: its attributes and its `description` children's text. */
  datatype DeviceNode = DeviceNode(attrs: Option<Attributes>, description: Option<seq<string>>)

  /** A `subFamily` element: its attributes and its `device` children. */
  datatype SubFamilyNode = SubFamilyNode(attrs: Option<Attributes>, device: Option<seq<DeviceNode>>)

  /** A `family` element; only its `subFamily` children matter. */
  datatype FamilyNode = FamilyNode(subFamily: Option<seq<SubFamilyNode>>)

  /** A `devices` element; only its `family` children matter. */
  datatype DevicesNode = DevicesNode(family: Option<seq<FamilyNode>>)

  /** The `package` root element; only its `devices` children matter. */
  datatype PackageNode = PackageNode(devices: Option<seq<DevicesNode>>)

  /**
   * The parse result. An empty or whitespace-only file parses to `null`
   * (NoRoot); otherwise the result holds the root element, if it is a `package`.
   */
  datatype Document = NoRoot | Document(package: Option<PackageNode>)

  /** A child list that is absent reads as no children at all. */
  function Children<T>(list: Option<seq<T>>): seq<T> {
    list.GetOr([])
  }
}
