/**
 * The "Sync Warranty Information" button of a device's module section: it
 * gathers serial numbers from the selected modules (or from all modules of
 * the device when nothing is selected) and either reports an error or hands
 * `{ serialNumbers }` to the page's EOX sync handler.
 */
module WarrantySync {
  import opened Strings
  import opened Inventory
  import opened Flags
  import opened Pipeline

  /**
   * No selected module: every module of the device. Otherwise: the device's
   * own modules whose id is among the selected ids, in the device's order.
   */
  function ModulesToSync(d: Device, selectedIds: seq<nat>): (r: seq<Module>)
    ensures |selectedIds| == 0 ==> r == d.modules
    ensures IsSubsequence(r, d.modules)
    ensures |selectedIds| > 0 ==> forall m :: m in r <==> m in d.modules && m.id in selectedIds
    ensures |selectedIds| > 0 ==> forall m :: multiset(r)[m] == if m.id in selectedIds then multiset(d.modules)[m] else 0
  {
    if |selectedIds| == 0 then
      KeepEverything(d.modules, m => true);
      KeepIsSelection(d.modules, m => true);
      d.modules
    else
      KeepIsSelection(d.modules, (m: Module) => m.id in selectedIds);
      Keep(d.modules, (m: Module) => m.id in selectedIds)
  }

  /** `m.serial_number?.trim().toUpperCase()`, or nothing when the serial is null or missing. */
  function CleanSerial(m: Module): Option<string>
  {
    match m.serialNumber
    case Str(s) => Some(Upper(Trim(s)))
    case _ => None
  }

  /** A serial as it goes to the backend: non-blank, trimmed and in upper case. */
  predicate Normalized(s: string)
  {
    && s != []
    && !IsJsSpace(s[0]) && !IsJsSpace(s[|s| - 1])
    && forall i :: 0 <= i < |s| ==> !('a' <= s[i] <= 'z')
  }

  /** Upper-casing neither creates nor removes whitespace. */
  lemma UpperKeepsSpaces(c: char)
    ensures IsJsSpace(UpperChar(c)) == IsJsSpace(c)
  {
    if 'a' <= c <= 'z' {
      assert 'A' <= UpperChar(c) <= 'Z';
    }
  }

  /** A trimmed serial stays trimmed once upper-cased, and has no lower-case letter left. */
  lemma UpperOfTrimmed(t: string)
    requires t != [] && !IsJsSpace(t[0]) && !IsJsSpace(t[|t| - 1])
    ensures Normalized(Upper(t))
  {
    UpperKeepsSpaces(t[0]);
    UpperKeepsSpaces(t[|t| - 1]);
  }

  lemma CleanSerialNormalized(m: Module)
    requires CleanSerial(m).Some? && CleanSerial(m).value != []
    ensures Normalized(CleanSerial(m).value)
  {
    var t := Trim(m.serialNumber.s);
    assert |Upper(t)| == |t|;
    UpperOfTrimmed(t);
  }

  /** `.map(cleanSerial).filter(Boolean)`: the non-empty cleaned serials, in order. */
  /** What one module contributes: its cleaned serial unless that is empty or missing. */
  function Contribution(m: Module): (r: seq<string>)
    ensures |r| <= 1
    ensures forall i :: 0 <= i < |r| ==> Normalized(r[i])
    ensures r == [] <==> CleanSerial(m).None? || CleanSerial(m).value == []
    ensures r != [] ==> r == [CleanSerial(m).value]
  {
    match CleanSerial(m)
    case Some(s) =>
      if s != [] then
        CleanSerialNormalized(m);
        [s]
      else []
    case None => []
  }

  function SerialNumbers(ms: seq<Module>): (r: seq<string>)
    ensures |r| <= |ms|
    ensures forall i :: 0 <= i < |r| ==> Normalized(r[i])
  {
    if ms == [] then []
    else Contribution(ms[0]) + SerialNumbers(ms[1..])
  }

  lemma SerialNumbersOfOne(m: Module)
    ensures SerialNumbers([m]) == Contribution(m)
  {
    assert [m][1..] == [];
  }

  /** Serials are collected module by module: the list of a concatenation is the concatenation. */
  lemma {:induction false} SerialNumbersConcat(a: seq<Module>, b: seq<Module>)
    ensures SerialNumbers(a + b) == SerialNumbers(a) + SerialNumbers(b)
  {
    if a == [] {
      assert a + b == b;
    } else {
      assert (a + b)[0] == a[0] && (a + b)[1..] == a[1..] + b;
      SerialNumbersConcat(a[1..], b);
    }
  }

  /** A module whose serial is blank, null or missing contributes nothing. */
  lemma BlankSerialDropped(m: Module)
    requires m.serialNumber.Str? ==> forall k :: 0 <= k < |m.serialNumber.s| ==> IsJsSpace(m.serialNumber.s[k])
    ensures SerialNumbers([m]) == []
  {
    SerialNumbersOfOne(m);
  }

  datatype EoxRequest = EoxRequest(serialNumbers: seq<string>)

  /** What the click does: show an error through `setError`, or call `onSyncEox`. */
  datatype WarrantyAction = ReportError(message: string) | SyncEox(request: EoxRequest)

  const NoSerialsMessage := "No valid serial numbers found for selected modules"

  /** The button's onClick handler for device `d`. */
  function WarrantySyncAction(d: Device, selectedModules: Store): (r: WarrantyAction)
    ensures var serials := SerialNumbers(ModulesToSync(d, TrueKeys(selectedModules)));
            && (r.ReportError? <==> serials == [])
            && (r.ReportError? ==> r.message == NoSerialsMessage)
            && (r.SyncEox? ==> r.request.serialNumbers == serials)
  {
    var serials := SerialNumbers(ModulesToSync(d, TrueKeys(selectedModules)));
    if |serials| == 0 then ReportError(NoSerialsMessage) else SyncEox(EoxRequest(serials))
  }

  /**
   * The module selection is one store shared by every device: with modules
   * selected elsewhere and none of this device's, the button syncs nothing
   * and reports the error rather than falling back to all modules.
   */
  lemma ForeignSelectionBlocksSync(d: Device, selectedModules: Store)
    requires exists k :: IsOn(selectedModules, k)
    requires forall i :: 0 <= i < |d.modules| ==> !IsOn(selectedModules, d.modules[i].id)
    ensures WarrantySyncAction(d, selectedModules).ReportError?
  {
    var ids := TrueKeys(selectedModules);
    var k :| IsOn(selectedModules, k);
    assert k in ids;
    var ms := ModulesToSync(d, ids);
    forall i | 0 <= i < |d.modules|
      ensures d.modules[i].id !in ids
    {
    }
    assert forall m :: m in d.modules ==> m.id !in ids;
    assert forall m :: m !in ms;
    assert ms == [];
  }

  /**
   * The button text: the count of true entries in the selection store, or
   * "All Modules" when there is none, which is exactly when the click syncs
   * every module of the device.
   */
  function WarrantyButtonLabel(selectedModules: Store): (text: string)
    ensures TrueCount(selectedModules) == 0 ==> text == "Sync Warranty Information (All Modules)"
    ensures TrueCount(selectedModules) > 0 ==>
              text == "Sync Warranty Information (" + Decimal(TrueCount(selectedModules)) + " Selected Modules)"
  {
    var n := TrueCount(selectedModules);
    if n > 0 then "Sync Warranty Information (" + Decimal(n) + " Selected Modules)"
    else "Sync Warranty Information (All Modules)"
  }

  lemma LabelAgreesWithAction(d: Device, selectedModules: Store)
    ensures WarrantyButtonLabel(selectedModules) == "Sync Warranty Information (All Modules)"
            ==> ModulesToSync(d, TrueKeys(selectedModules)) == d.modules
  {
    var n := TrueCount(selectedModules);
    if n > 0 {
      var text := WarrantyButtonLabel(selectedModules);
      assert text[27] == Decimal(n)[0];
      assert "Sync Warranty Information (All Modules)"[27] == 'A';
    }
  }
}
