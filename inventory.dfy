/**
 * The records the backend sends for the inventory grid: devices with their
 * interfaces and pluggable modules. They are values, recreated on every list
 * fetch; all client state about them lives in stores keyed by their ids.
 */
module Inventory {

  datatype Option<+T> = None | Some(value: T)

  /**
   * A JSON string field as JavaScript sees it: absent (`undefined`), `null`,
   * or a string. The two idioms the code applies to such a field treat the
   * three cases differently, so the model keeps all three.
   */
  datatype JsText = Undefined | Null | Str(s: string)
  {
    /** `x || ""`: every falsy value becomes the empty string. */
    function OrEmpty(): (r: string)
      ensures Str? ==> r == s
      ensures !Str? ==> r == []
    {
      match this
      case Str(s) => s
      case _ => ""
    }

    /** `${x}` in a template literal: `undefined` and `null` are spelled out. */
    function Interpolated(): (r: string)
      ensures Str? ==> r == s
      ensures Undefined? ==> r == "undefined"
      ensures Null? ==> r == "null"
    {
      match this
      case Undefined => "undefined"
      case Null => "null"
      case Str(s) => s
    }
  }

  /** The module an interface's transceiver reports it plugs into (`sfp_module` on a module). */
  datatype SfpSlot = SfpSlot(interfaceName: JsText, partNumber: JsText)

  datatype Interface = Interface(
    id: nat,
    name: JsText,
    status: JsText,
    lineProtocol: JsText,
    speed: JsText,
    description: JsText,
    /** `sfp_module.module_id`: a weak reference into the parent device's modules. */
    sfpModuleId: Option<nat>)

  datatype Module = Module(
    id: nat,
    name: JsText,
    partNumber: JsText,
    serialNumber: JsText,
    description: JsText,
    underWarranty: bool,
    /** The locale-formatted expiry date when `warranty_expiry` is set. */
    expiryText: Option<string>,
    sfp: Option<SfpSlot>)

  datatype Device = Device(
    id: nat,
    hostname: JsText,
    mgmtAddress: JsText,
    model: JsText,
    serialNumber: JsText,
    interfaces: seq<Interface>,
    modules: seq<Module>)

  /** The column headers the grid can sort by. */
  datatype SortKey = Hostname | MgmtAddress | Model | SerialNumber

  /** `d[key]` for a sortable column. */
  function Field(d: Device, key: SortKey): JsText
  {
    match key
    case Hostname => d.hostname
    case MgmtAddress => d.mgmtAddress
    case Model => d.model
    case SerialNumber => d.serialNumber
  }

  /** `rows.map(r => r.id)`: the ids of the rows, position by position. */
  function Ids<T>(rows: seq<T>, idOf: T -> nat): (r: seq<nat>)
    ensures |r| == |rows|
    ensures forall i :: 0 <= i < |rows| ==> r[i] == idOf(rows[i])
  {
    seq(|rows|, i requires 0 <= i < |rows| => idOf(rows[i]))
  }

  /**
   * `rows.find(x => x.id === id)`: the first row whose id is `id`, or nothing
   * when no row has it.
   */
  function FindById<T>(rows: seq<T>, idOf: T -> nat, id: nat): (r: Option<T>)
    ensures r.None? <==> forall k :: 0 <= k < |rows| ==> idOf(rows[k]) != id
    ensures r.Some? ==> exists k :: 0 <= k < |rows| && rows[k] == r.value
                                    && forall j :: 0 <= j < k ==> idOf(rows[j]) != id
    ensures r.Some? ==> idOf(r.value) == id
  {
    if rows == [] then None
    else if idOf(rows[0]) == id then Some(rows[0])
    else
      var r := FindById(rows[1..], idOf, id);
      assert r.Some? ==> exists k :: 1 <= k < |rows| && rows[k] == r.value
                                     && forall j :: 0 <= j < k ==> idOf(rows[j]) != id by {
        if r.Some? {
          var k :| 0 <= k < |rows[1..]| && rows[1..][k] == r.value
                   && forall j :: 0 <= j < k ==> idOf(rows[1..][j]) != id;
          assert rows[k + 1] == r.value;
        }
      }
      r
  }

  function DeviceId(d: Device): nat { d.id }

  function ModuleId(m: Module): nat { m.id }

  /** Ids are unique within a list, as the backend guarantees for its rows. */
  ghost predicate UniqueIds(ds: seq<Device>)
  {
    forall i, j :: 0 <= i < j < |ds| ==> ds[i].id != ds[j].id
  }

  /** With unique ids, `find` returns the one device carrying the id. */
  lemma FindDeviceUnique(ds: seq<Device>, k: nat)
    requires UniqueIds(ds)
    requires k < |ds|
    ensures FindById(ds, DeviceId, ds[k].id) == Some(ds[k])
  {
    var r := FindById(ds, DeviceId, ds[k].id);
    var k' :| 0 <= k' < |ds| && ds[k'] == r.value && forall j :: 0 <= j < k' ==> DeviceId(ds[j]) != ds[k].id;
    assert k' == k;
  }
}
