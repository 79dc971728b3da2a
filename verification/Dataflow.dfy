/** Registers, the four kinds of values, and the filters over both. */
module Dataflow {

  datatype Option<+T> = None | Some(value: T)

  datatype RegisterType = UndefinedRegister | NumberRegister | TextRegister | EnumRegister

  function TypeName(t: RegisterType): string {
    match t
    case NumberRegister => "number"
    case TextRegister => "string"
    case EnumRegister => "enum"
    case UndefinedRegister => ""
  }

  function TypeFromName(s: string): RegisterType {
    if s == "number" then NumberRegister
    else if s == "string" then TextRegister
    else if s == "enum" then EnumRegister
    else UndefinedRegister
  }

  datatype Register = Register(
    category: string,
    name: string,
    description: string,
    registerType: RegisterType,
    labels: map<int, string>,
    unit: string,
    sort: int,
    writable: bool)

  function NumberNamed(name: string): Register { Register("", name, "", NumberRegister, map[], "", 0, true) }

  datatype Value =
    | Numeric(deviceName: string, register: Register, number: real)
    | Text(deviceName: string, register: Register, text: string)
    | Enum(deviceName: string, register: Register, idx: int)
    | Null(deviceName: string, register: Register)
  {
    function Key(): StateKey { StateKey(deviceName, register.name) }

    // Value equality as the storage uses it: same kind, register name and
    // payload. Neither the device nor the rest of the register is compared, and
    // two nulls are always equal.
    predicate Equals(comp: Value) {
      match this
      case Numeric(_, r, n) => comp.Numeric? && r.name == comp.register.name && n == comp.number
      case Text(_, r, t) => comp.Text? && r.name == comp.register.name && t == comp.text
      case Enum(_, r, i) => comp.Enum? && r.name == comp.register.name && i == comp.idx
      case Null(_, _) => comp.Null?
    }
  }

  // Whether the value is of the kind that registers of this type have.
  predicate Fits(t: RegisterType, v: Value) {
    match t
    case NumberRegister => v.Numeric?
    case TextRegister => v.Text?
    case EnumRegister => v.Enum?
    case UndefinedRegister => false
  }

  datatype StateKey = StateKey(deviceName: string, registerName: string)

  type ValueFilter = Value -> bool
  type RegisterFilterFunc = Register -> bool

  // ---- register filters ----

  datatype FilterConf = FilterConf(
    includeRegisters: seq<string>,
    skipRegisters: seq<string>,
    includeCategories: seq<string>,
    skipCategories: seq<string>,
    defaultInclude: bool)

  predicate Passes(conf: FilterConf, name: string, category: string) {
    if name in conf.includeRegisters then true
    else if name in conf.skipRegisters then false
    else if category in conf.includeCategories then true
    else if category in conf.skipCategories then false
    else conf.defaultInclude
  }

  function RegisterFilter(conf: FilterConf): RegisterFilterFunc {
    (r: Register) => Passes(conf, r.name, r.category)
  }

  // ---- value filters ----

  const AVAILABILITY := "Available"

  function DeviceNameValueFilter(deviceName: string): ValueFilter {
    (v: Value) => v.deviceName == deviceName
  }

  function RegisterValueFilter(conf: FilterConf): ValueFilter {
    (v: Value) => RegisterFilter(conf)(v.register)
  }

  function NonNullValueFilter(): ValueFilter {
    (v: Value) => !v.Null?
  }

  // The filter of the realtime forwarder; availability is handled separately.
  function DeviceAndRegisterValueFilter(deviceName: string, conf: FilterConf): ValueFilter {
    (v: Value) =>
      DeviceNameValueFilter(deviceName)(v) && v.register.name != AVAILABILITY && RegisterFilter(conf)(v.register)
  }

  // The filter of a view: one register filter per listed device, the last one
  // winning when a device is listed twice.
  datatype ViewDevice = ViewDevice(name: string, filter: FilterConf)

  function ViewFilters(viewDevices: seq<ViewDevice>): map<string, FilterConf> {
    if viewDevices == [] then map[]
    else
      var n := |viewDevices| - 1;
      ViewFilters(viewDevices[..n])[viewDevices[n].name := viewDevices[n].filter]
  }

  function ViewValueFilter(viewDevices: seq<ViewDevice>): ValueFilter {
    var filters := ViewFilters(viewDevices);
    (v: Value) => v.deviceName in filters && RegisterValueFilter(filters[v.deviceName])(v)
  }

  // A view filter looks at the device, the register name and the category only.
  lemma ViewFilterLooksAtCategory(viewDevices: seq<ViewDevice>, v: Value, w: Value)
    requires v.Key() == w.Key() && v.register.category == w.register.category
    ensures ViewValueFilter(viewDevices)(v) == ViewValueFilter(viewDevices)(w)
  {
    assert v.Key().deviceName == w.Key().deviceName && v.Key().registerName == w.Key().registerName;
    var filters := ViewFilters(viewDevices);
    if v.deviceName in filters {
      var conf := filters[v.deviceName];
      assert RegisterFilter(conf)(v.register) == Passes(conf, v.register.name, v.register.category);
      assert RegisterFilter(conf)(w.register) == Passes(conf, w.register.name, w.register.category);
      assert RegisterValueFilter(conf)(v) == RegisterFilter(conf)(v.register);
      assert RegisterValueFilter(conf)(w) == RegisterFilter(conf)(w.register);
      assert ViewValueFilter(viewDevices)(v) == RegisterValueFilter(conf)(v);
      assert ViewValueFilter(viewDevices)(w) == RegisterValueFilter(conf)(w);
    }
  }
}
