/**
 * The device grid's row pipeline: per-column, case-insensitive substring
 * filters (devices, and the interface and module sub-tables of an expanded
 * device), then a single-key string sort of the filtered devices.
 */
module Pipeline {
  import opened Strings
  import opened Inventory

  // ---------------------------------------------------------------------------
  // Array.prototype.filter
  // ---------------------------------------------------------------------------

  /** `r` can be obtained from `s` by deleting elements, keeping the order. */
  predicate IsSubsequence<T(==)>(r: seq<T>, s: seq<T>)
    decreases |s|
  {
    r == [] || (s != [] && ((r[0] == s[0] && IsSubsequence(r[1..], s[1..])) || IsSubsequence(r, s[1..])))
  }

  /** `s.filter(p)`. */
  function Keep<T(==,!new)>(s: seq<T>, p: T -> bool): (r: seq<T>)
    ensures |r| <= |s|
    ensures forall x :: x in r <==> x in s && p(x)
  {
    if s == [] then []
    else (if p(s[0]) then [s[0]] else []) + Keep(s[1..], p)
  }

  /**
   * What `filter` keeps: an order-preserving subsequence holding every
   * element that passes, as often as it occurs, and nothing else.
   */
  lemma {:induction false} KeepIsSelection<T(!new)>(s: seq<T>, p: T -> bool)
    ensures IsSubsequence(Keep(s, p), s)
    ensures forall x :: multiset(Keep(s, p))[x] == if p(x) then multiset(s)[x] else 0
  {
    if s != [] {
      KeepIsSelection(s[1..], p);
      assert s == [s[0]] + s[1..];
      var r := Keep(s, p);
      if p(s[0]) {
        assert r[0] == s[0] && r[1..] == Keep(s[1..], p);
      } else {
        var t := Keep(s[1..], p);
        assert r == t;
        assert t == [] || IsSubsequence(t, s[1..]);
      }
    }
  }

  /** A predicate every element passes keeps the list as it is. */
  lemma {:induction false} KeepEverything<T(!new)>(s: seq<T>, p: T -> bool)
    requires forall i :: 0 <= i < |s| ==> p(s[i])
    ensures Keep(s, p) == s
  {
    if s != [] {
      KeepEverything(s[1..], p);
    }
  }

  /** Predicates that agree on every element keep the same elements. */
  lemma {:induction false} KeepAgreeing<T(!new)>(s: seq<T>, p: T -> bool, q: T -> bool)
    requires forall i :: 0 <= i < |s| ==> p(s[i]) == q(s[i])
    ensures Keep(s, p) == Keep(s, q)
  {
    if s != [] {
      KeepAgreeing(s[1..], p, q);
    }
  }

  // ---------------------------------------------------------------------------
  // Top-level device filters
  // ---------------------------------------------------------------------------

  /** The four column patterns of the device table. */
  datatype DeviceFilters = DeviceFilters(hostname: string, mgmt: string, model: string, serial: string)

  const NoDeviceFilters := DeviceFilters("", "", "", "")

  /** The filter inputs of the device table's header, one per column. */
  datatype DeviceColumn = HostnameColumn | MgmtColumn | ModelColumn | SerialColumn

  /** `filters[column]`. */
  function DevicePattern(f: DeviceFilters, c: DeviceColumn): string
  {
    match c
    case HostnameColumn => f.hostname
    case MgmtColumn => f.mgmt
    case ModelColumn => f.model
    case SerialColumn => f.serial
  }

  /** `{ ...filters, [column]: value }`: one column's pattern replaced. */
  function WithDevicePattern(f: DeviceFilters, c: DeviceColumn, v: string): (g: DeviceFilters)
    ensures DevicePattern(g, c) == v
    ensures forall c' :: c' != c ==> DevicePattern(g, c') == DevicePattern(f, c')
  {
    match c
    case HostnameColumn => f.(hostname := v)
    case MgmtColumn => f.(mgmt := v)
    case ModelColumn => f.(model := v)
    case SerialColumn => f.(serial := v)
  }

  /** A device filter record is nothing but its four column patterns. */
  lemma DeviceFiltersByColumn(f: DeviceFilters, g: DeviceFilters)
    requires forall c :: DevicePattern(f, c) == DevicePattern(g, c)
    ensures f == g
  {
    assert DevicePattern(f, HostnameColumn) == DevicePattern(g, HostnameColumn);
    assert DevicePattern(f, MgmtColumn) == DevicePattern(g, MgmtColumn);
    assert DevicePattern(f, ModelColumn) == DevicePattern(g, ModelColumn);
    assert DevicePattern(f, SerialColumn) == DevicePattern(g, SerialColumn);
  }

  /** `text.toLowerCase().includes(pattern.toLowerCase())`, with `text || ""`. */
  predicate ColumnMatches(text: JsText, pattern: string)
  {
    Contains(Lower(text.OrEmpty()), Lower(pattern))
  }

  predicate DeviceMatches(f: DeviceFilters, d: Device)
  {
    && ColumnMatches(d.hostname, f.hostname)
    && ColumnMatches(d.mgmtAddress, f.mgmt)
    && ColumnMatches(d.model, f.model)
    && ColumnMatches(d.serialNumber, f.serial)
  }

  /**
   * `filteredDevices`: the devices, in their order, whose hostname, mgmt
   * address, model and serial each contain the matching pattern, ignoring
   * case and reading a missing value as "".
   */
  function FilterDevices(ds: seq<Device>, f: DeviceFilters): (r: seq<Device>)
    ensures IsSubsequence(r, ds)
    ensures forall d :: d in r <==> d in ds && DeviceMatches(f, d)
    ensures forall d :: multiset(r)[d] == if DeviceMatches(f, d) then multiset(ds)[d] else 0
  {
    KeepIsSelection(ds, d => DeviceMatches(f, d));
    Keep(ds, d => DeviceMatches(f, d))
  }

  /** With every pattern empty the filter is the identity. */
  lemma NoFiltersKeepAll(ds: seq<Device>)
    ensures FilterDevices(ds, NoDeviceFilters) == ds
  {
    forall i | 0 <= i < |ds|
      ensures DeviceMatches(NoDeviceFilters, ds[i])
    {
      var d := ds[i];
      ContainsEmpty(Lower(d.hostname.OrEmpty()));
      ContainsEmpty(Lower(d.mgmtAddress.OrEmpty()));
      ContainsEmpty(Lower(d.model.OrEmpty()));
      ContainsEmpty(Lower(d.serialNumber.OrEmpty()));
    }
    KeepEverything(ds, d => DeviceMatches(NoDeviceFilters, d));
  }

  /** Patterns that differ only in letter case filter alike. */
  lemma FilterIgnoresCase(ds: seq<Device>, f: DeviceFilters, g: DeviceFilters)
    requires Lower(f.hostname) == Lower(g.hostname) && Lower(f.mgmt) == Lower(g.mgmt)
    requires Lower(f.model) == Lower(g.model) && Lower(f.serial) == Lower(g.serial)
    ensures FilterDevices(ds, f) == FilterDevices(ds, g)
  {
    KeepAgreeing(ds, d => DeviceMatches(f, d), d => DeviceMatches(g, d));
  }

  /** Typing a pattern in upper case finds the same devices as in lower case. */
  lemma UpperCasePatternFindsSame(ds: seq<Device>, f: DeviceFilters)
    ensures FilterDevices(ds, DeviceFilters(Upper(f.hostname), Upper(f.mgmt), Upper(f.model), Upper(f.serial)))
         == FilterDevices(ds, f)
  {
    LowerOfUpper(f.hostname);
    LowerOfUpper(f.mgmt);
    LowerOfUpper(f.model);
    LowerOfUpper(f.serial);
    FilterIgnoresCase(ds, DeviceFilters(Upper(f.hostname), Upper(f.mgmt), Upper(f.model), Upper(f.serial)), f);
  }

  // ---------------------------------------------------------------------------
  // Interface and module sub-table filters
  // ---------------------------------------------------------------------------

  datatype InterfaceFilters = InterfaceFilters(name: string, status: string, speed: string, description: string, sfp: string)

  const NoInterfaceFilters := InterfaceFilters("", "", "", "", "")

  /** The filter inputs of an interface sub-table's header. */
  datatype InterfaceColumn = InterfaceNameColumn | StatusColumn | SpeedColumn | InterfaceDescriptionColumn | InterfaceSfpColumn

  /** `interfaceFilters[column]`. */
  function InterfacePattern(f: InterfaceFilters, c: InterfaceColumn): string
  {
    match c
    case InterfaceNameColumn => f.name
    case StatusColumn => f.status
    case SpeedColumn => f.speed
    case InterfaceDescriptionColumn => f.description
    case InterfaceSfpColumn => f.sfp
  }

  /** `{ ...interfaceFilters, [column]: value }`. */
  function WithInterfacePattern(f: InterfaceFilters, c: InterfaceColumn, v: string): (g: InterfaceFilters)
    ensures InterfacePattern(g, c) == v
    ensures forall c' :: c' != c ==> InterfacePattern(g, c') == InterfacePattern(f, c')
  {
    match c
    case InterfaceNameColumn => f.(name := v)
    case StatusColumn => f.(status := v)
    case SpeedColumn => f.(speed := v)
    case InterfaceDescriptionColumn => f.(description := v)
    case InterfaceSfpColumn => f.(sfp := v)
  }

  /** An interface filter record is nothing but its five column patterns. */
  lemma InterfaceFiltersByColumn(f: InterfaceFilters, g: InterfaceFilters)
    requires forall c :: InterfacePattern(f, c) == InterfacePattern(g, c)
    ensures f == g
  {
    assert InterfacePattern(f, InterfaceNameColumn) == InterfacePattern(g, InterfaceNameColumn);
    assert InterfacePattern(f, StatusColumn) == InterfacePattern(g, StatusColumn);
    assert InterfacePattern(f, SpeedColumn) == InterfacePattern(g, SpeedColumn);
    assert InterfacePattern(f, InterfaceDescriptionColumn) == InterfacePattern(g, InterfaceDescriptionColumn);
    assert InterfacePattern(f, InterfaceSfpColumn) == InterfacePattern(g, InterfaceSfpColumn);
  }

  /**
   * The SFP column text of an interface: the description, part number and
   * serial of the first module of the device whose id the interface's
   * `sfp_module.module_id` names, lower-cased and joined by spaces (missing
   * values spelled "undefined"/"null" by the template literal); "none" when
   * the interface names no module or no module of the device has that id.
   */
  function SfpText(i: Interface, modules: seq<Module>): (r: string)
    ensures (i.sfpModuleId.None? || forall k :: 0 <= k < |modules| ==> modules[k].id != i.sfpModuleId.value)
            ==> r == "none"
    ensures forall k :: 0 <= k < |modules| && i.sfpModuleId == Some(modules[k].id)
                        && (forall j :: 0 <= j < k ==> modules[j].id != modules[k].id)
                        ==> r == Lower(modules[k].description.Interpolated() + " " + modules[k].partNumber.Interpolated()
                                       + " " + modules[k].serialNumber.Interpolated())
  {
    match i.sfpModuleId
    case None => "none"
    case Some(mid) =>
      match FindById(modules, ModuleId, mid)
      case None => "none"
      case Some(m) =>
        Lower(m.description.Interpolated() + " " + m.partNumber.Interpolated() + " " + m.serialNumber.Interpolated())
  }

  predicate InterfaceMatches(f: InterfaceFilters, i: Interface, modules: seq<Module>)
  {
    && ColumnMatches(i.name, f.name)
    && Contains(Lower(i.status.OrEmpty() + "/" + i.lineProtocol.OrEmpty()), Lower(f.status))
    && ColumnMatches(i.speed, f.speed)
    && ColumnMatches(i.description, f.description)
    && Contains(SfpText(i, modules), Lower(f.sfp))
  }

  /** The interface rows shown under an expanded device. */
  function VisibleInterfaces(d: Device, f: InterfaceFilters): (r: seq<Interface>)
    ensures IsSubsequence(r, d.interfaces)
    ensures forall i :: i in r <==> i in d.interfaces && InterfaceMatches(f, i, d.modules)
    ensures forall i :: multiset(r)[i] == if InterfaceMatches(f, i, d.modules) then multiset(d.interfaces)[i] else 0
  {
    KeepIsSelection(d.interfaces, i => InterfaceMatches(f, i, d.modules));
    Keep(d.interfaces, i => InterfaceMatches(f, i, d.modules))
  }

  lemma NoInterfaceFiltersKeepAll(d: Device)
    ensures VisibleInterfaces(d, NoInterfaceFilters) == d.interfaces
  {
    forall k | 0 <= k < |d.interfaces|
      ensures InterfaceMatches(NoInterfaceFilters, d.interfaces[k], d.modules)
    {
      var i := d.interfaces[k];
      ContainsEmpty(Lower(i.name.OrEmpty()));
      ContainsEmpty(Lower(i.status.OrEmpty() + "/" + i.lineProtocol.OrEmpty()));
      ContainsEmpty(Lower(i.speed.OrEmpty()));
      ContainsEmpty(Lower(i.description.OrEmpty()));
      ContainsEmpty(SfpText(i, d.modules));
    }
    KeepEverything(d.interfaces, i => InterfaceMatches(NoInterfaceFilters, i, d.modules));
  }

  datatype ModuleFilters = ModuleFilters(
    name: string, partNumber: string, serial: string, description: string,
    warranty: string, expiry: string, sfp: string)

  const NoModuleFilters := ModuleFilters("", "", "", "", "", "", "")

  /** The filter inputs of a module sub-table's header. */
  datatype ModuleColumn =
    ModuleNameColumn | PartNumberColumn | ModuleSerialColumn | ModuleDescriptionColumn
    | WarrantyColumn | ExpiryColumn | ModuleSfpColumn

  /** `moduleFilters[column]`. */
  function ModulePattern(f: ModuleFilters, c: ModuleColumn): string
  {
    match c
    case ModuleNameColumn => f.name
    case PartNumberColumn => f.partNumber
    case ModuleSerialColumn => f.serial
    case ModuleDescriptionColumn => f.description
    case WarrantyColumn => f.warranty
    case ExpiryColumn => f.expiry
    case ModuleSfpColumn => f.sfp
  }

  /** `{ ...moduleFilters, [column]: value }`. */
  function WithModulePattern(f: ModuleFilters, c: ModuleColumn, v: string): (g: ModuleFilters)
    ensures ModulePattern(g, c) == v
    ensures forall c' :: c' != c ==> ModulePattern(g, c') == ModulePattern(f, c')
  {
    match c
    case ModuleNameColumn => f.(name := v)
    case PartNumberColumn => f.(partNumber := v)
    case ModuleSerialColumn => f.(serial := v)
    case ModuleDescriptionColumn => f.(description := v)
    case WarrantyColumn => f.(warranty := v)
    case ExpiryColumn => f.(expiry := v)
    case ModuleSfpColumn => f.(sfp := v)
  }

  /** A module filter record is nothing but its seven column patterns. */
  lemma ModuleFiltersByColumn(f: ModuleFilters, g: ModuleFilters)
    requires forall c :: ModulePattern(f, c) == ModulePattern(g, c)
    ensures f == g
  {
    assert ModulePattern(f, ModuleNameColumn) == ModulePattern(g, ModuleNameColumn);
    assert ModulePattern(f, PartNumberColumn) == ModulePattern(g, PartNumberColumn);
    assert ModulePattern(f, ModuleSerialColumn) == ModulePattern(g, ModuleSerialColumn);
    assert ModulePattern(f, ModuleDescriptionColumn) == ModulePattern(g, ModuleDescriptionColumn);
    assert ModulePattern(f, WarrantyColumn) == ModulePattern(g, WarrantyColumn);
    assert ModulePattern(f, ExpiryColumn) == ModulePattern(g, ExpiryColumn);
    assert ModulePattern(f, ModuleSfpColumn) == ModulePattern(g, ModuleSfpColumn);
  }

  /** The warranty column as the filter sees it. */
  function WarrantyText(m: Module): string
  {
    if m.underWarranty then "yes" else "no"
  }

  function ExpiryText(m: Module): string
  {
    match m.expiryText
    case None => ""
    case Some(t) => Lower(t)
  }

  /** The module's own SFP descriptor: "<interface> <part>" lower-cased, or "". */
  function ModuleSfpText(m: Module): string
  {
    match m.sfp
    case None => ""
    case Some(slot) => Lower(slot.interfaceName.Interpolated() + " " + slot.partNumber.Interpolated())
  }

  predicate ModuleMatches(f: ModuleFilters, m: Module)
  {
    && ColumnMatches(m.name, f.name)
    && ColumnMatches(m.partNumber, f.partNumber)
    && ColumnMatches(m.serialNumber, f.serial)
    && ColumnMatches(m.description, f.description)
    && Contains(WarrantyText(m), Lower(f.warranty))
    && Contains(ExpiryText(m), Lower(f.expiry))
    && Contains(ModuleSfpText(m), Lower(f.sfp))
  }

  /** The module rows shown under an expanded device. */
  function VisibleModules(d: Device, f: ModuleFilters): (r: seq<Module>)
    ensures IsSubsequence(r, d.modules)
    ensures forall m :: m in r <==> m in d.modules && ModuleMatches(f, m)
    ensures forall m :: multiset(r)[m] == if ModuleMatches(f, m) then multiset(d.modules)[m] else 0
  {
    KeepIsSelection(d.modules, m => ModuleMatches(f, m));
    Keep(d.modules, m => ModuleMatches(f, m))
  }

  lemma NoModuleFiltersKeepAll(d: Device)
    ensures VisibleModules(d, NoModuleFilters) == d.modules
  {
    forall k | 0 <= k < |d.modules|
      ensures ModuleMatches(NoModuleFilters, d.modules[k])
    {
      var m := d.modules[k];
      ContainsEmpty(Lower(m.name.OrEmpty()));
      ContainsEmpty(Lower(m.partNumber.OrEmpty()));
      ContainsEmpty(Lower(m.serialNumber.OrEmpty()));
      ContainsEmpty(Lower(m.description.OrEmpty()));
      ContainsEmpty(WarrantyText(m));
      ContainsEmpty(ExpiryText(m));
      ContainsEmpty(ModuleSfpText(m));
    }
    KeepEverything(d.modules, m => ModuleMatches(NoModuleFilters, m));
  }

  lemma NoIsNotYes()
    ensures !Contains("no", "yes")
  {
    forall i | 0 <= i <= |"no"|
      ensures !("yes" <= "no"[i..])
    {
      assert |"no"[i..]| < |"yes"|;
    }
  }

  lemma YesIsNotNo()
    ensures !Contains("yes", "no")
  {
    forall i | 0 <= i <= |"yes"|
      ensures !("no" <= "yes"[i..])
    {
      if i < |"yes"| { assert "yes"[i] != 'n'; }
    }
  }

  /**
   * Typing "yes" (in any case) in the warranty box shows only modules under
   * warranty, and "no" only those that are not.
   */
  lemma WarrantyFilterSplits(d: Device, f: ModuleFilters)
    ensures Lower(f.warranty) == "yes" ==> forall m :: m in VisibleModules(d, f) ==> m.underWarranty
    ensures Lower(f.warranty) == "no" ==> forall m :: m in VisibleModules(d, f) ==> !m.underWarranty
  {
    NoIsNotYes();
    YesIsNotNo();
  }

  // ---------------------------------------------------------------------------
  // Sorting
  // ---------------------------------------------------------------------------

  datatype Direction = Asc | Desc
  {
    function Flipped(): Direction
    {
      if Asc? then Desc else Asc
    }
  }

  /** `sortConfig`: the active column (none initially) and its direction. */
  datatype SortConfig = SortConfig(key: Option<SortKey>, direction: Direction)

  const InitialSort := SortConfig(None, Asc)

  /**
   * `requestSort(key)`: clicking the active column flips its direction;
   * clicking another column makes it active, ascending.
   */
  function RequestSort(prev: SortConfig, key: SortKey): (r: SortConfig)
    ensures r.key == Some(key)
    ensures prev.key == Some(key) ==> r.direction != prev.direction
    ensures prev.key != Some(key) ==> r.direction == Asc
  {
    if prev.key == Some(key) then SortConfig(Some(key), prev.direction.Flipped())
    else SortConfig(Some(key), Asc)
  }

  /** Clicking the active column twice restores the configuration. */
  lemma RequestSortTwice(prev: SortConfig, key: SortKey)
    requires prev.key == Some(key)
    ensures RequestSort(RequestSort(prev, key), key) == prev
  {
  }

  /** `(d[key] || "").toString().toLowerCase()`: the text a row is sorted by. */
  function SortText(d: Device, key: SortKey): string
  {
    Lower(Field(d, key).OrEmpty())
  }

  /** The comparator returns a negative number: `a` must come before `b`. */
  predicate Precedes(a: Device, b: Device, key: SortKey, dir: Direction)
  {
    if dir == Asc then Less(SortText(a, key), SortText(b, key))
    else Less(SortText(b, key), SortText(a, key))
  }

  /** The comparator returns 0 exactly on rows with equal sort text. */
  lemma PrecedesIsStrictOrder(a: Device, b: Device, c: Device, key: SortKey, dir: Direction)
    ensures !Precedes(a, a, key, dir)
    ensures Precedes(a, b, key, dir) ==> !Precedes(b, a, key, dir)
    ensures Precedes(a, b, key, dir) && Precedes(b, c, key, dir) ==> Precedes(a, c, key, dir)
    ensures !Precedes(a, b, key, dir) && !Precedes(b, a, key, dir) <==> SortText(a, key) == SortText(b, key)
  {
    var ta, tb, tc := SortText(a, key), SortText(b, key), SortText(c, key);
    LessIrreflexive(ta);
    if Less(ta, tb) { LessAsymmetric(ta, tb); }
    if Less(tb, ta) { LessAsymmetric(tb, ta); }
    if Less(ta, tb) && Less(tb, tc) { LessTransitive(ta, tb, tc); }
    if Less(tc, tb) && Less(tb, ta) { LessTransitive(tc, tb, ta); }
    if ta != tb { LessTotal(ta, tb); }
  }

  /** "May come before" is transitive. */
  lemma NotPrecedesTransitive(a: Device, b: Device, c: Device, key: SortKey, dir: Direction)
    requires !Precedes(b, a, key, dir) && !Precedes(c, b, key, dir)
    ensures !Precedes(c, a, key, dir)
  {
    PrecedesIsStrictOrder(a, b, c, key, dir);
    PrecedesIsStrictOrder(c, a, b, key, dir);
    PrecedesIsStrictOrder(b, c, a, key, dir);
  }

  /** No row is placed after a row that must follow it. */
  ghost predicate Sorted(s: seq<Device>, key: SortKey, dir: Direction)
  {
    forall i, j :: 0 <= i < j < |s| ==> !Precedes(s[j], s[i], key, dir)
  }

  /** Insert `x` before the first row that need not precede it. */
  function Insert(x: Device, s: seq<Device>, key: SortKey, dir: Direction): seq<Device>
  {
    if s == [] then [x]
    else if Precedes(s[0], x, key, dir) then [s[0]] + Insert(x, s[1..], key, dir)
    else [x] + s
  }

  /** A stable sort: each row is inserted ahead of every later row of equal text. */
  function InsertionSort(s: seq<Device>, key: SortKey, dir: Direction): seq<Device>
  {
    if s == [] then [] else Insert(s[0], InsertionSort(s[1..], key, dir), key, dir)
  }

  lemma {:induction false} InsertPermutes(x: Device, s: seq<Device>, key: SortKey, dir: Direction)
    ensures multiset(Insert(x, s, key, dir)) == multiset(s) + multiset{x}
  {
    if s != [] && Precedes(s[0], x, key, dir) {
      InsertPermutes(x, s[1..], key, dir);
      MultisetOfHead(s);
      assert multiset(Insert(x, s, key, dir)) == multiset([s[0]] + Insert(x, s[1..], key, dir));
    }
  }

  lemma MultisetOfHead<T>(s: seq<T>)
    requires s != []
    ensures multiset(s) == multiset{s[0]} + multiset(s[1..])
  {
    assert s == [s[0]] + s[1..];
  }

  /** Every row of `s` may follow `y`. */
  ghost predicate AllAfter(y: Device, s: seq<Device>, key: SortKey, dir: Direction)
  {
    forall j :: 0 <= j < |s| ==> !Precedes(s[j], y, key, dir)
  }

  lemma {:induction false} InsertAllAfter(y: Device, x: Device, s: seq<Device>, key: SortKey, dir: Direction)
    requires AllAfter(y, s, key, dir) && !Precedes(x, y, key, dir)
    ensures AllAfter(y, Insert(x, s, key, dir), key, dir)
  {
    if s != [] && Precedes(s[0], x, key, dir) {
      InsertAllAfter(y, x, s[1..], key, dir);
    }
  }

  /** A row that no later row need precede can head a sorted list. */
  lemma SortedCons(y: Device, s: seq<Device>, key: SortKey, dir: Direction)
    requires Sorted(s, key, dir) && AllAfter(y, s, key, dir)
    ensures Sorted([y] + s, key, dir)
  {
    forall i, j | 0 <= i < j < |[y] + s|
      ensures !Precedes(([y] + s)[j], ([y] + s)[i], key, dir)
    {
      assert ([y] + s)[j] == s[j - 1];
      if i > 0 { assert ([y] + s)[i] == s[i - 1]; }
    }
  }

  lemma {:induction false} InsertKeepsSorted(x: Device, s: seq<Device>, key: SortKey, dir: Direction)
    requires Sorted(s, key, dir)
    ensures Sorted(Insert(x, s, key, dir), key, dir)
  {
    if s == [] {
    } else if Precedes(s[0], x, key, dir) {
      InsertKeepsSorted(x, s[1..], key, dir);
      PrecedesIsStrictOrder(s[0], x, x, key, dir);
      assert AllAfter(s[0], s[1..], key, dir) by {
        forall j | 0 <= j < |s[1..]|
          ensures !Precedes(s[1..][j], s[0], key, dir)
        {
          assert s[1..][j] == s[j + 1];
        }
      }
      InsertAllAfter(s[0], x, s[1..], key, dir);
      SortedCons(s[0], Insert(x, s[1..], key, dir), key, dir);
    } else {
      forall j | 0 <= j < |s|
        ensures !Precedes(s[j], x, key, dir)
      {
        if j > 0 { NotPrecedesTransitive(x, s[0], s[j], key, dir); }
      }
      SortedCons(x, s, key, dir);
    }
  }

  /** A sorted list is left as it is. */
  lemma {:induction false} SortOfSorted(s: seq<Device>, key: SortKey, dir: Direction)
    requires Sorted(s, key, dir)
    ensures InsertionSort(s, key, dir) == s
  {
    if s != [] {
      SortOfSorted(s[1..], key, dir);
      assert |s| > 1 ==> !Precedes(s[1], s[0], key, dir);
    }
  }

  /** The rows of a list whose sort text is `t`, in their order. */
  function WithText(s: seq<Device>, key: SortKey, t: string): seq<Device>
  {
    Keep(s, d => SortText(d, key) == t)
  }

  lemma WithTextCons(x: Device, s: seq<Device>, key: SortKey, t: string)
    ensures WithText([x] + s, key, t) == (if SortText(x, key) == t then [x] else []) + WithText(s, key, t)
  {
    assert ([x] + s)[0] == x && ([x] + s)[1..] == s;
  }

  lemma {:induction false} InsertStable(x: Device, s: seq<Device>, key: SortKey, dir: Direction, t: string)
    ensures WithText(Insert(x, s, key, dir), key, t)
         == (if SortText(x, key) == t then [x] else []) + WithText(s, key, t)
  {
    if s == [] {
      WithTextCons(x, s, key, t);
    } else if Precedes(s[0], x, key, dir) {
      InsertStable(x, s[1..], key, dir, t);
      InsertStablePastHead(x, s, key, dir, t);
    } else {
      WithTextCons(x, s, key, t);
    }
  }

  /** The step of `InsertStable` where `x` moves past the head row, whose text differs from its own. */
  lemma InsertStablePastHead(x: Device, s: seq<Device>, key: SortKey, dir: Direction, t: string)
    requires s != [] && Precedes(s[0], x, key, dir)
    requires WithText(Insert(x, s[1..], key, dir), key, t)
          == (if SortText(x, key) == t then [x] else []) + WithText(s[1..], key, t)
    ensures WithText(Insert(x, s, key, dir), key, t)
         == (if SortText(x, key) == t then [x] else []) + WithText(s, key, t)
  {
    var head: seq<Device> := if SortText(s[0], key) == t then [s[0]] else [];
    var own: seq<Device> := if SortText(x, key) == t then [x] else [];
    var rest := Insert(x, s[1..], key, dir);
    PrecedesDiffers(s[0], x, key, dir);
    calc {
      WithText(Insert(x, s, key, dir), key, t);
      WithText([s[0]] + rest, key, t);
      { WithTextCons(s[0], rest, key, t); }
      head + WithText(rest, key, t);
      head + (own + WithText(s[1..], key, t));
      { SwapPastEmpty(head, own, WithText(s[1..], key, t)); }
      own + (head + WithText(s[1..], key, t));
      { WithTextHead(s, key, t); }
      own + WithText(s, key, t);
    }
  }

  /** Rows one of which must precede the other have different sort texts. */
  lemma PrecedesDiffers(a: Device, b: Device, key: SortKey, dir: Direction)
    requires Precedes(a, b, key, dir)
    ensures SortText(a, key) != SortText(b, key)
  {
    LessIrreflexive(SortText(a, key));
  }

  lemma SwapPastEmpty<T>(a: seq<T>, b: seq<T>, c: seq<T>)
    requires a == [] || b == []
    ensures a + (b + c) == b + (a + c)
  {
    if a == [] {
      assert a + (b + c) == b + c == b + (a + c);
    } else {
      assert a + (b + c) == a + c == b + (a + c);
    }
  }

  /** Rows with equal sort text keep their original relative order. */
  lemma {:induction false} SortIsStable(s: seq<Device>, key: SortKey, dir: Direction, t: string)
    ensures WithText(InsertionSort(s, key, dir), key, t) == WithText(s, key, t)
  {
    if s != [] {
      SortIsStable(s[1..], key, dir, t);
      InsertStable(s[0], InsertionSort(s[1..], key, dir), key, dir, t);
      WithTextHead(s, key, t);
    }
  }

  lemma {:induction false} SortIsOrderedPermutation(s: seq<Device>, key: SortKey, dir: Direction)
    ensures Sorted(InsertionSort(s, key, dir), key, dir)
    ensures multiset(InsertionSort(s, key, dir)) == multiset(s)
  {
    if s != [] {
      SortIsOrderedPermutation(s[1..], key, dir);
      InsertKeepsSorted(s[0], InsertionSort(s[1..], key, dir), key, dir);
      InsertPermutes(s[0], InsertionSort(s[1..], key, dir), key, dir);
      MultisetOfHead(s);
    }
  }

  lemma WithTextHead(s: seq<Device>, key: SortKey, t: string)
    requires s != []
    ensures WithText(s, key, t) == (if SortText(s[0], key) == t then [s[0]] else []) + WithText(s[1..], key, t)
  {
  }

  /** A list without any group of equal texts is empty. */
  lemma NoGroupsMeansEmpty(u: seq<Device>, key: SortKey)
    requires forall t :: WithText(u, key, t) == []
    ensures u == []
  {
    if u != [] {
      WithTextHead(u, key, SortText(u[0], key));
    }
  }

  /** Orderings with the same groups hold the same rows. */
  lemma SameGroupsSameRows(t1: seq<Device>, t2: seq<Device>, key: SortKey, x: Device)
    requires x in t1
    requires forall t :: WithText(t1, key, t) == WithText(t2, key, t)
    ensures x in t2
  {
    assert x in WithText(t1, key, SortText(x, key));
  }

  /** In a sorted list no row must precede the first one. */
  lemma NothingBeforeFirst(t: seq<Device>, key: SortKey, dir: Direction, x: Device)
    requires Sorted(t, key, dir) && x in t
    ensures !Precedes(x, t[0], key, dir)
  {
    var j :| 0 <= j < |t| && t[j] == x;
    if j > 0 { assert !Precedes(t[j], t[0], key, dir); }
    else { PrecedesIsStrictOrder(x, x, x, key, dir); }
  }

  /** Two sorted orderings with the same groups start with the same row. */
  lemma SameFirstRow(t1: seq<Device>, t2: seq<Device>, key: SortKey, dir: Direction)
    requires t1 != [] && t2 != []
    requires Sorted(t1, key, dir) && Sorted(t2, key, dir)
    requires forall t :: WithText(t1, key, t) == WithText(t2, key, t)
    ensures t1[0] == t2[0]
  {
    var a, b := t1[0], t2[0];
    SameGroupsSameRows(t1, t2, key, a);
    SameGroupsSameRows(t2, t1, key, b);
    NothingBeforeFirst(t2, key, dir, a);
    NothingBeforeFirst(t1, key, dir, b);
    PrecedesIsStrictOrder(a, b, a, key, dir);
    var ta := SortText(a, key);
    assert SortText(b, key) == ta;
    WithTextHead(t1, key, ta);
    WithTextHead(t2, key, ta);
    assert WithText(t1, key, ta)[0] == a;
    assert WithText(t2, key, ta)[0] == b;
  }

  lemma SameTailGroups(t1: seq<Device>, t2: seq<Device>, key: SortKey)
    requires t1 != [] && t2 != [] && t1[0] == t2[0]
    requires forall t :: WithText(t1, key, t) == WithText(t2, key, t)
    ensures forall t :: WithText(t1[1..], key, t) == WithText(t2[1..], key, t)
  {
    forall t
      ensures WithText(t1[1..], key, t) == WithText(t2[1..], key, t)
    {
      WithTextHead(t1, key, t);
      WithTextHead(t2, key, t);
      var head := if SortText(t1[0], key) == t then [t1[0]] else [];
      assert WithText(t1[1..], key, t) == (head + WithText(t1[1..], key, t))[|head|..];
      assert WithText(t2[1..], key, t) == (head + WithText(t2[1..], key, t))[|head|..];
    }
  }

  /**
   * Sortedness and stability pin the order down: two orderings of the same
   * rows that are both sorted and both keep every group of equal texts in
   * the same order are one and the same.
   */
  lemma {:induction false} SortedStableUnique(t1: seq<Device>, t2: seq<Device>, key: SortKey, dir: Direction)
    requires Sorted(t1, key, dir) && Sorted(t2, key, dir)
    requires forall t :: WithText(t1, key, t) == WithText(t2, key, t)
    ensures t1 == t2
    decreases |t1|
  {
    if t1 == [] {
      NoGroupsMeansEmpty(t2, key);
    } else if t2 == [] {
      NoGroupsMeansEmpty(t1, key);
    } else {
      SameFirstRow(t1, t2, key, dir);
      SameTailGroups(t1, t2, key);
      SortedStableUnique(t1[1..], t2[1..], key, dir);
      assert t1 == [t1[0]] + t1[1..] && t2 == [t2[0]] + t2[1..];
    }
  }

  /** `sortedDevices`: the filtered rows, reordered only when a column is active. */
  function SortDevices(s: seq<Device>, cfg: SortConfig): seq<Device>
  {
    match cfg.key
    case None => s
    case Some(key) => InsertionSort(s, key, cfg.direction)
  }

  /**
   * The sort step: no column leaves the order alone; a column gives a
   * permutation that is non-decreasing (ascending) or non-increasing
   * (descending) in the lower-cased column text, stable on equal texts.
   */
  lemma SortDevicesSpec(s: seq<Device>, cfg: SortConfig)
    ensures cfg.key.None? ==> SortDevices(s, cfg) == s
    ensures multiset(SortDevices(s, cfg)) == multiset(s)
    ensures cfg.key.Some? ==> Sorted(SortDevices(s, cfg), cfg.key.value, cfg.direction)
    ensures cfg.key.Some? ==> forall t :: WithText(SortDevices(s, cfg), cfg.key.value, t) == WithText(s, cfg.key.value, t)
  {
    if cfg.key.Some? {
      SortIsOrderedPermutation(s, cfg.key.value, cfg.direction);
      forall t ensures WithText(SortDevices(s, cfg), cfg.key.value, t) == WithText(s, cfg.key.value, t) {
        SortIsStable(s, cfg.key.value, cfg.direction, t);
      }
    }
  }

  /** Sorting twice is sorting once. */
  lemma SortIdempotent(s: seq<Device>, cfg: SortConfig)
    ensures SortDevices(SortDevices(s, cfg), cfg) == SortDevices(s, cfg)
  {
    if cfg.key.Some? {
      SortIsOrderedPermutation(s, cfg.key.value, cfg.direction);
      SortOfSorted(SortDevices(s, cfg), cfg.key.value, cfg.direction);
    }
  }

  /**
   * Any stable sort with this comparator (the engine's `Array.prototype.sort`
   * is required to be stable) produces exactly `SortDevices`.
   */
  lemma AnyStableSortAgrees(s: seq<Device>, cfg: SortConfig, out: seq<Device>)
    requires cfg.key.Some?
    requires Sorted(out, cfg.key.value, cfg.direction)
    requires forall t :: WithText(out, cfg.key.value, t) == WithText(s, cfg.key.value, t)
    ensures out == SortDevices(s, cfg)
  {
    SortDevicesSpec(s, cfg);
    SortedStableUnique(out, SortDevices(s, cfg), cfg.key.value, cfg.direction);
  }

  /** The rendered rows: filter first, then sort. */
  function VisibleDevices(ds: seq<Device>, f: DeviceFilters, cfg: SortConfig): (r: seq<Device>)
    ensures multiset(r) == multiset(FilterDevices(ds, f))
    ensures forall d :: d in r <==> d in ds && DeviceMatches(f, d)
  {
    SortDevicesSpec(FilterDevices(ds, f), cfg);
    var r := SortDevices(FilterDevices(ds, f), cfg);
    assert forall d :: d in r <==> d in multiset(r);
    r
  }
}
