/**
 * The device grid's own state: which rows and sections are expanded, which
 * devices and modules are selected, the filter inputs and the sort column,
 * with the handlers that change them.
 */
module DeviceGrid {
  import opened Inventory
  import opened Flags
  import opened Pipeline

  /**
   * A collapsed row shows neither of its sub-sections: the two section
   * stores only read true where the row itself is expanded.
   */
  ghost predicate SectionsFollowRows(expanded: Store, interfaces: Store, modules: Store)
  {
    forall id :: !IsOn(expanded, id) ==> !IsOn(interfaces, id) && !IsOn(modules, id)
  }

  class DeviceListView {
    var expanded: Store
    var expandedInterfaces: Store
    var expandedModules: Store
    var selected: Store
    var selectedModules: Store
    var filters: DeviceFilters
    var interfaceFilters: InterfaceFilters
    var moduleFilters: ModuleFilters
    var sortConfig: SortConfig

    ghost predicate Valid()
      reads this
    {
      SectionsFollowRows(expanded, expandedInterfaces, expandedModules)
    }

    /** A freshly mounted grid: nothing expanded or selected, no filter, no sort. */
    constructor ()
      ensures Valid()
      ensures expanded == map[] && expandedInterfaces == map[] && expandedModules == map[]
      ensures selected == map[] && selectedModules == map[]
      ensures filters == NoDeviceFilters && interfaceFilters == NoInterfaceFilters
      ensures moduleFilters == NoModuleFilters && sortConfig == InitialSort
    {
      expanded, expandedInterfaces, expandedModules := map[], map[], map[];
      selected, selectedModules := map[], map[];
      filters, interfaceFilters, moduleFilters := NoDeviceFilters, NoInterfaceFilters, NoModuleFilters;
      sortConfig := InitialSort;
    }

    /** The rows on screen, in order. */
    function Rows(devices: seq<Device>): seq<Device>
      reads this`filters, this`sortConfig
    {
      VisibleDevices(devices, filters, sortConfig)
    }

    /** The selection reported through `onSelectionChange`: selected ids, ascending. */
    function ReportedSelection(): (ids: seq<nat>)
      reads this`selected
      ensures forall k :: k in ids <==> IsOn(selected, k)
      ensures forall i, j :: 0 <= i < j < |ids| ==> ids[i] < ids[j]
    {
      TrueKeys(selected)
    }

    /** The header checkbox of the device table. */
    predicate HeaderChecked(devices: seq<Device>)
      reads this`selected, this`filters, this`sortConfig
    {
      AllOn(selected, Ids(Rows(devices), DeviceId))
    }

    /** The header checkbox of a device's module table, over all its modules. */
    predicate ModuleHeaderChecked(d: Device)
      reads this`selectedModules
    {
      AllOn(selectedModules, Ids(d.modules, ModuleId))
    }

    /** A click on a column header. */
    method ClickSortHeader(key: SortKey)
      modifies this`sortConfig
      ensures sortConfig == RequestSort(old(sortConfig), key)
    {
      sortConfig := RequestSort(sortConfig, key);
    }

    /**
     * The +/- icon of a row: the row flips, and both of its sections take the
     * row's new state, so re-opening a row always shows both sections open.
     */
    method ToggleExpand(id: nat)
      requires Valid()
      modifies this`expanded, this`expandedInterfaces, this`expandedModules
      ensures Valid()
      ensures IsOn(expanded, id) == !old(IsOn(expanded, id))
      ensures expanded == Assigned(old(expanded), id, IsOn(expanded, id))
      ensures expandedInterfaces == Assigned(old(expandedInterfaces), id, IsOn(expanded, id))
      ensures expandedModules == Assigned(old(expandedModules), id, IsOn(expanded, id))
    {
      var newState := !IsOn(expanded, id);
      expandedInterfaces := Assigned(expandedInterfaces, id, newState);
      expandedModules := Assigned(expandedModules, id, newState);
      expanded := Assigned(expanded, id, newState);
    }

    /** The row checkbox. */
    method ToggleSelect(id: nat)
      modifies this`selected
      ensures selected == Toggled(old(selected), id)
    {
      selected := Toggled(selected, id);
    }

    /** The "Interfaces" heading, which is only on screen while the row is expanded. */
    method ToggleInterfaces(id: nat)
      requires Valid() && IsOn(expanded, id)
      modifies this`expandedInterfaces
      ensures Valid()
      ensures expandedInterfaces == Toggled(old(expandedInterfaces), id)
    {
      expandedInterfaces := Toggled(expandedInterfaces, id);
    }

    /** The "Modules" heading, which is only on screen while the row is expanded. */
    method ToggleModules(id: nat)
      requires Valid() && IsOn(expanded, id)
      modifies this`expandedModules
      ensures Valid()
      ensures expandedModules == Toggled(old(expandedModules), id)
    {
      expandedModules := Toggled(expandedModules, id);
    }

    /** A module row's checkbox. */
    method ToggleModuleSelect(moduleId: nat)
      modifies this`selectedModules
      ensures selectedModules == Toggled(old(selectedModules), moduleId)
    {
      selectedModules := Toggled(selectedModules, moduleId);
    }

    /**
     * A click on the device table's header checkbox: the box flips, and every
     * row on screen takes its new state. Rows hidden by the filters keep
     * theirs, so clearing the filter later does not select them.
     */
    method ClickSelectAll(devices: seq<Device>)
      modifies this`selected
      ensures var rows := Ids(old(Rows(devices)), DeviceId);
              var checked := !old(HeaderChecked(devices));
              && (forall i :: 0 <= i < |rows| ==> IsOn(selected, rows[i]) == checked)
              && (forall k :: k !in rows ==> IsOn(selected, k) == old(IsOn(selected, k)))
              && (|rows| > 0 ==> HeaderChecked(devices) == checked)
    {
      var checked;
      selected, checked := SelectAll(selected, Ids(Rows(devices), DeviceId));
    }

    /**
     * A click on a module table's header checkbox: every module of the
     * device takes the box's new state, including modules the module
     * filters hide.
     */
    method ClickSelectAllModules(d: Device)
      modifies this`selectedModules
      ensures var ids := Ids(d.modules, ModuleId);
              var checked := !old(ModuleHeaderChecked(d));
              && (forall i :: 0 <= i < |ids| ==> IsOn(selectedModules, ids[i]) == checked)
              && (forall k :: k !in ids ==> IsOn(selectedModules, k) == old(IsOn(selectedModules, k)))
              && (|ids| > 0 ==> ModuleHeaderChecked(d) == checked)
    {
      var checked;
      selectedModules, checked := SelectAll(selectedModules, Ids(d.modules, ModuleId));
    }

    /** Typing in a device column filter: only that column's pattern changes, never the selection. */
    method SetDeviceFilter(column: DeviceColumn, value: string)
      modifies this`filters
      ensures DevicePattern(filters, column) == value
      ensures forall c :: c != column ==> DevicePattern(filters, c) == DevicePattern(old(filters), c)
    {
      filters := WithDevicePattern(filters, column, value);
    }

    /** Typing in an interface column filter: only that column's pattern changes. */
    method SetInterfaceFilter(column: InterfaceColumn, value: string)
      modifies this`interfaceFilters
      ensures InterfacePattern(interfaceFilters, column) == value
      ensures forall c :: c != column ==> InterfacePattern(interfaceFilters, c) == InterfacePattern(old(interfaceFilters), c)
    {
      interfaceFilters := WithInterfacePattern(interfaceFilters, column, value);
    }

    /** Typing in a module column filter: only that column's pattern changes. */
    method SetModuleFilter(column: ModuleColumn, value: string)
      modifies this`moduleFilters
      ensures ModulePattern(moduleFilters, column) == value
      ensures forall c :: c != column ==> ModulePattern(moduleFilters, c) == ModulePattern(old(moduleFilters), c)
    {
      moduleFilters := WithModulePattern(moduleFilters, column, value);
    }
  }
}
