/** The flat catalog handed from the builder to the device picker. */
module DeviceCatalog {

  /**
   * A JavaScript value that is a string or `undefined`: the builder copies
   * attribute values that may be missing without checking them.
   */
  datatype Text = Undefined | Str(s: string)

  /** The text a value becomes when interpolated into the page markup. */
  function Render(t: Text): string {
    match t
    case Undefined => "undefined"
    case Str(s) => s
  }

  /** One device row: its display name (the source's `label`) and the description shown on click. */
  datatype Device = Device(name: Text, description: Text)

  /** One sub-family group: its heading name (the source's `label`) and its devices, in document order. */
  datatype Group = Group(name: Text, devices: seq<Device>)

  /** The catalog: sub-family groups in document order, families flattened away. */
  type Catalog = seq<Group>

  /** The number of device rows over all groups. */
  function TotalDevices(c: Catalog): nat {
    if |c| == 0 then 0 else |c[0].devices| + TotalDevices(c[1..])
  }

  /** A row of the picker: the group index and the device index inside it. */
  datatype Pos = Pos(group: nat, device: nat)

  /** `p` names a device row the catalog renders. */
  predicate ValidPos(c: Catalog, p: Pos) {
    p.group < |c| && p.device < |c[p.group].devices|
  }
}
