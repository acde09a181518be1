/**
 * The dashboard page: the toolbar (List Devices, Sync), the status area and
 * the device grid it shows once devices are loaded. The two toolbar
 * handlers are asynchronous; each is split into the part that runs on the
 * click and the part that runs when the HTTP request settles, and the
 * request's outcome is a parameter of the second part.
 */
module Dashboard {
  import opened Strings
  import opened Inventory

  /** A JSON body, kept as its text: the page only displays it. */
  datatype Json = Json(text: string)

  /**
   * `err.response?.data || { error: err.message }`: the server's error body
   * when there is one, else an object naming the client-side message.
   */
  datatype ErrorInfo = ServerBody(body: Json) | ClientError(message: string)

  /** How an axios request ends: with `res.data`, or with an error. */
  datatype HttpOutcome<T> = Ok(data: T) | Failed(responseData: Option<Json>, message: string)

  /** `err.response?.data || { error: err.message }`: an empty body counts as no body. */
  function ErrorRecord<T>(outcome: HttpOutcome<T>): (e: ErrorInfo)
    requires outcome.Failed?
    ensures outcome.responseData.Some? && outcome.responseData.value.text != [] ==>
              e == ServerBody(outcome.responseData.value)
    ensures outcome.responseData.None? || outcome.responseData.value.text == [] ==>
              e == ClientError(outcome.message)
  {
    match outcome.responseData
    case Some(b) => if b.text != [] then ServerBody(b) else ClientError(outcome.message)
    case None => ClientError(outcome.message)
  }

  datatype AppState = AppState(
    loading: bool,
    result: Option<Json>,
    error: Option<ErrorInfo>,
    devices: seq<Device>,
    selectedDevices: seq<nat>)

  const InitialApp := AppState(false, None, None, [], [])

  /** The body of `POST /devices/sync`: `null` syncs every device. */
  datatype SyncRequest = SyncRequest(hostnames: Option<seq<JsText>>)

  /**
   * `selectedDevices.map(id => devices.find(d => d.id === id).hostname)`:
   * nothing when some id has no device, where the source's `.hostname`
   * on `undefined` throws a TypeError.
   */
  function HostnamesOf(ids: seq<nat>, devices: seq<Device>): (r: Option<seq<JsText>>)
    ensures r.Some? <==> AllFound(ids, devices)
    ensures r.Some? ==> |r.value| == |ids|
    ensures r.Some? ==> forall i :: 0 <= i < |ids| ==>
                          r.value[i] == FindById(devices, DeviceId, ids[i]).value.hostname
  {
    if ids == [] then Some([])
    else
      AllFoundCons(ids, devices);
      match FindById(devices, DeviceId, ids[0])
      case None => None
      case Some(d) =>
        match HostnamesOf(ids[1..], devices)
        case None => None
        case Some(rest) =>
          assert forall i :: 1 <= i < |ids| ==> ids[i] == ids[1..][i - 1];
          Some([d.hostname] + rest)
  }

  /** Every id in `ids` names a loaded device. */
  predicate AllFound(ids: seq<nat>, devices: seq<Device>)
  {
    forall i :: 0 <= i < |ids| ==> FindById(devices, DeviceId, ids[i]).Some?
  }

  lemma AllFoundCons(ids: seq<nat>, devices: seq<Device>)
    requires ids != []
    ensures AllFound(ids, devices) <==> FindById(devices, DeviceId, ids[0]).Some? && AllFound(ids[1..], devices)
  {
    assert forall i :: 1 <= i < |ids| ==> ids[i] == ids[1..][i - 1];
  }

  /**
   * The sync payload: `hostnames: null` with no selection, else the
   * selected devices' hostnames in selection order; nothing when the
   * lookup throws.
   */
  function SyncPayload(selected: seq<nat>, devices: seq<Device>): (r: Option<SyncRequest>)
    ensures r.None? <==> |selected| > 0 && HostnamesOf(selected, devices).None?
    ensures r.Some? ==> (r.value.hostnames.None? <==> |selected| == 0)
    ensures r.Some? && |selected| > 0 ==> r.value.hostnames == HostnamesOf(selected, devices)
  {
    if |selected| == 0 then Some(SyncRequest(None))
    else
      match HostnamesOf(selected, devices)
      case None => None
      case Some(names) => Some(SyncRequest(Some(names)))
  }

  /** With the backend's unique ids, each entry is the hostname of the device carrying that id. */
  lemma PayloadNamesSelectedDevices(selected: seq<nat>, devices: seq<Device>, i: nat, k: nat)
    requires UniqueIds(devices)
    requires SyncPayload(selected, devices).Some? && i < |selected|
    requires k < |devices| && devices[k].id == selected[i]
    ensures SyncPayload(selected, devices).value.hostnames.value[i] == devices[k].hostname
  {
    FindDeviceUnique(devices, k);
  }

  /** Every selected id names a loaded device. */
  ghost predicate SelectionLoaded(s: AppState)
  {
    forall i :: 0 <= i < |s.selectedDevices| ==>
      exists k :: 0 <= k < |s.devices| && s.devices[k].id == s.selectedDevices[i]
  }

  lemma LoadedSelectionHasPayload(s: AppState)
    requires SelectionLoaded(s)
    ensures SyncPayload(s.selectedDevices, s.devices).Some?
  {
    forall i | 0 <= i < |s.selectedDevices|
      ensures FindById(s.devices, DeviceId, s.selectedDevices[i]).Some?
    {
      var k :| 0 <= k < |s.devices| && s.devices[k].id == s.selectedDevices[i];
      assert DeviceId(s.devices[k]) == s.selectedDevices[i];
    }
  }

  /** The three resets at the top of `handleSync`. */
  function SyncBegun(s: AppState): (r: AppState)
    ensures r.loading && r.result.None? && r.error.None?
    ensures r.devices == s.devices && r.selectedDevices == s.selectedDevices
  {
    AppState(true, None, None, s.devices, s.selectedDevices)
  }

  /** The `try`/`catch`/`finally` of a request: record the outcome, then clear `loading`. */
  function SyncSettled(s: AppState, outcome: HttpOutcome<Json>): (r: AppState)
    ensures !r.loading
    ensures outcome.Ok? ==> r.result == Some(outcome.data) && r.error == s.error
    ensures outcome.Failed? ==> r.error == Some(ErrorRecord(outcome)) && r.result == s.result
    ensures r.devices == s.devices && r.selectedDevices == s.selectedDevices
  {
    match outcome
    case Ok(data) => s.(loading := false, result := Some(data))
    case Failed(_, _) => s.(loading := false, error := Some(ErrorRecord(outcome)))
  }

  /**
   * After a sync request settles: on success the response is the result and
   * no error is shown; on failure the error record is shown and no result.
   */
  lemma SyncOutcomeSlots(s: AppState, outcome: HttpOutcome<Json>)
    ensures var t := SyncSettled(SyncBegun(s), outcome);
            && !t.loading
            && (outcome.Ok? ==> t.result == Some(outcome.data) && t.error.None?)
            && (outcome.Failed? ==> t.error == Some(ErrorRecord(outcome)) && t.result.None?)
  {
  }

  /**
   * `handleSync` as written: the payload is built before the `try`, so a
   * lookup that throws escapes the handler after `loading` was set and
   * before any request is sent; nothing will ever clear `loading`.
   */
  function SyncClickedAsWritten(s: AppState): (r: (AppState, Option<SyncRequest>))
    ensures r.0 == SyncBegun(s)
    ensures r.1 == SyncPayload(s.selectedDevices, s.devices)
  {
    (SyncBegun(s), SyncPayload(s.selectedDevices, s.devices))
  }

  /** The message V8 gives the TypeError of reading `hostname` from `undefined`. */
  const LookupFailure := "Cannot read properties of undefined (reading 'hostname')"

  /**
   * `handleSync` with the payload built inside the `try`: a failed lookup is
   * caught like a failed request, so the click either sends a request or
   * ends with an error and `loading` cleared.
   */
  function SyncClicked(s: AppState): (r: (AppState, Option<SyncRequest>))
    ensures r.1 == SyncPayload(s.selectedDevices, s.devices)
    ensures r.1.Some? ==> r.0 == SyncBegun(s)
    ensures r.1.None? ==> r.0 == SyncSettled(SyncBegun(s), Failed(None, LookupFailure))
  {
    match SyncPayload(s.selectedDevices, s.devices)
    case Some(request) => (SyncBegun(s), Some(request))
    case None => (SyncSettled(SyncBegun(s), Failed(None, LookupFailure)), None)
  }

  /**
   * With the correction, every sync click leaves the page idle once its
   * request (if any) settles, and shows the lookup failure as an error.
   */
  lemma SyncAlwaysFinishes(s: AppState, outcome: HttpOutcome<Json>)
    ensures var (t, request) := SyncClicked(s);
            && (request.Some? ==> t.loading && !SyncSettled(t, outcome).loading)
            && (request.None? ==> !t.loading && t.error == Some(ClientError(LookupFailure)))
  {
  }

  /** Where the ids are all loaded, the correction changes nothing. */
  lemma SyncCorrectionAgrees(s: AppState)
    requires SelectionLoaded(s)
    ensures SyncClicked(s) == SyncClickedAsWritten(s)
  {
    LoadedSelectionHasPayload(s);
  }

  /** The resets at the top of `handleListDevices`; the grid unmounts with the empty list. */
  function ListBegun(s: AppState): (r: AppState)
    ensures r.loading && r.result.None? && r.error.None? && r.devices == []
    ensures r.selectedDevices == s.selectedDevices
  {
    AppState(true, None, None, [], s.selectedDevices)
  }

  /**
   * The list request settles. A non-empty list mounts a fresh grid, whose
   * first selection report is empty; an empty list or a failure leaves the
   * grid unmounted and the last reported selection in place.
   */
  function ListSettled(s: AppState, outcome: HttpOutcome<seq<Device>>): (r: AppState)
    ensures !r.loading && r.result == s.result
    ensures outcome.Ok? ==> r.devices == outcome.data && r.error == s.error
    ensures outcome.Ok? && |outcome.data| > 0 ==> r.selectedDevices == []
    ensures outcome.Ok? && |outcome.data| == 0 ==> r.selectedDevices == s.selectedDevices
    ensures outcome.Failed? ==> r.error == Some(ErrorRecord(outcome))
    ensures outcome.Failed? ==> r.devices == s.devices && r.selectedDevices == s.selectedDevices
  {
    match outcome
    case Ok(ds) =>
      s.(loading := false, devices := ds, selectedDevices := if |ds| > 0 then [] else s.selectedDevices)
    case Failed(_, _) => s.(loading := false, error := Some(ErrorRecord(outcome)))
  }

  /** A successful non-empty list always leaves a selection the sync payload can resolve. */
  lemma ListKeepsSelectionLoaded(s: AppState, ds: seq<Device>)
    requires |ds| > 0
    ensures SelectionLoaded(ListSettled(ListBegun(s), Ok(ds)))
  {
  }

  /**
   * Select a device, then refresh the list and have the refresh fail: the
   * stale selection survives with no devices loaded, and the next Sync
   * click as written sends nothing and leaves `loading` set, which keeps
   * both toolbar buttons disabled for good.
   */
  lemma FailedRefreshThenSyncHangs(s: AppState, message: string)
    requires !s.loading && |s.selectedDevices| > 0
    ensures var listed := ListSettled(ListBegun(s), Failed(None, message));
            && !listed.loading
            && var (t, request) := SyncClickedAsWritten(listed);
            && request.None? && t.loading
  {
    var listed := ListSettled(ListBegun(s), Failed(None, message));
    assert listed.devices == [];
    assert FindById(listed.devices, DeviceId, listed.selectedDevices[0]).None?;
  }

  /** The same click with the correction reports the failure and frees the toolbar. */
  lemma FailedRefreshThenSyncRecovers(s: AppState, message: string)
    requires !s.loading && |s.selectedDevices| > 0
    ensures var listed := ListSettled(ListBegun(s), Failed(None, message));
            var (t, request) := SyncClicked(listed);
            && request.None? && !t.loading && t.error == Some(ClientError(LookupFailure))
  {
    var listed := ListSettled(ListBegun(s), Failed(None, message));
    assert FindById(listed.devices, DeviceId, listed.selectedDevices[0]).None?;
  }

  /** The List Devices button text. */
  function ListButtonLabel(loading: bool): (text: string)
    ensures loading <==> text == "Loading\U{2026}"
  {
    if loading then "Loading\U{2026}" else "List Devices"
  }

  /** The Sync button text, from the number of selected devices. */
  function SyncButtonLabel(n: nat): (text: string)
    ensures n == 0 <==> text == "Sync Devices (All)"
    ensures n > 0 ==> text == "Sync (" + Decimal(n) + ") Selected Devices"
  {
    if n == 0 then "Sync Devices (All)"
    else
      var text := "Sync (" + Decimal(n) + ") Selected Devices";
      assert text[5] == '(' && "Sync Devices (All)"[5] == 'D';
      text
  }

  /** Different selection sizes give different Sync labels: the count can be read back. */
  lemma SyncLabelInjective(m: nat, n: nat)
    requires SyncButtonLabel(m) == SyncButtonLabel(n)
    ensures m == n
  {
    if m > 0 && n > 0 {
      var a := SyncButtonLabel(m);
      assert a[6..|a| - 18] == Decimal(m);
      assert a[6..|a| - 18] == Decimal(n);
      DecimalInjective(m, n);
    }
  }

  /** The (always disabled) toolbar warranty button text. */
  function ToolbarWarrantyLabel(n: nat): (text: string)
    ensures n == 0 <==> text == "Sync Warranty Information (All)"
    ensures n > 0 ==> text == "Sync Warranty Information (" + Decimal(n) + ")"
  {
    if n == 0 then "Sync Warranty Information (All)"
    else
      var text := "Sync Warranty Information (" + Decimal(n) + ")";
      assert text[27] == Decimal(n)[0] && "Sync Warranty Information (All)"[27] == 'A';
      text
  }

  /** The two toolbar labels agree on whether a selection is in effect. */
  lemma ToolbarLabelsAgree(n: nat)
    ensures SyncButtonLabel(n) == "Sync Devices (All)" <==> ToolbarWarrantyLabel(n) == "Sync Warranty Information (All)"
  {
  }

  /** The page state, with the toolbar handlers. */
  class App {
    var loading: bool
    var result: Option<Json>
    var error: Option<ErrorInfo>
    var devices: seq<Device>
    var selectedDevices: seq<nat>

    function State(): AppState
      reads this
    {
      AppState(loading, result, error, devices, selectedDevices)
    }

    constructor ()
      ensures State() == InitialApp
    {
      loading, result, error, devices, selectedDevices := false, None, None, [], [];
    }

    /** A click on List Devices; the button is disabled while loading. */
    method ClickListDevices()
      requires !loading
      modifies this
      ensures State() == ListBegun(old(State()))
    {
      loading, error, result, devices := true, None, None, [];
    }

    method ListResponse(outcome: HttpOutcome<seq<Device>>)
      modifies this
      ensures State() == ListSettled(old(State()), outcome)
    {
      match outcome {
        case Ok(ds) =>
          devices := ds;
          if |ds| > 0 {
            selectedDevices := [];
          }
        case Failed(_, _) =>
          error := Some(ErrorRecord(outcome));
      }
      loading := false;
    }

    /**
     * A click on Sync (disabled while loading), with the lookup inside the
     * `try`; returns the request it sends, if any.
     */
    method ClickSync() returns (request: Option<SyncRequest>)
      requires !loading
      modifies this
      ensures (State(), request) == SyncClicked(old(State()))
    {
      loading, result, error := true, None, None;
      request := SyncPayload(selectedDevices, devices);
      if request.None? {
        error := Some(ClientError(LookupFailure));
        loading := false;
      }
    }

    method SyncResponse(outcome: HttpOutcome<Json>)
      modifies this
      ensures State() == SyncSettled(old(State()), outcome)
    {
      match outcome {
        case Ok(data) =>
          result := Some(data);
        case Failed(_, _) =>
          error := Some(ErrorRecord(outcome));
      }
      loading := false;
    }

    /** `onSelectionChange={setSelectedDevices}`, called by the grid. */
    method SelectionChanged(ids: seq<nat>)
      modifies this`selectedDevices
      ensures selectedDevices == ids
    {
      selectedDevices := ids;
    }
  }
}
