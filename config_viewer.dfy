/**
 * The per-device configuration page: loading the configuration and
 * operational data once, and the search bar that steps through the
 * highlighted matches. The number of `<mark>` elements in the active tab
 * comes from the DOM and is a parameter, as is the loader's outcome.
 */
module ConfigViewer {
  import opened Inventory

  /**
   * JavaScript's `%`: the remainder of truncating division. It agrees with
   * the Euclidean remainder on a non-negative dividend, is the negated
   * remainder of `-a` otherwise, and always takes the dividend's sign.
   */
  function JsRem(a: int, n: int): (r: int)
    requires n > 0
    ensures -n < r < n
    ensures a >= 0 ==> 0 <= r && r == a % n
    ensures a <= 0 ==> r <= 0 && -r == (-a) % n
  {
    if a >= 0 then a % n else -((-a) % n)
  }

  /** `(matchIndex + 1) % marks.length`. */
  function NextIndex(i: int, n: int): (r: int)
    requires n > 0
    ensures i >= -1 ==> 0 <= r < n && r == (i + 1) % n
  {
    JsRem(i + 1, n)
  }

  /** `(matchIndex - 1 + marks.length) % marks.length`. */
  function PrevIndex(i: int, n: int): (r: int)
    requires n > 0
    ensures i >= 1 - n ==> 0 <= r < n && r == (i - 1 + n) % n
  {
    JsRem(i - 1 + n, n)
  }

  lemma ModOfSmall(a: int, n: int)
    requires 0 <= a < n
    ensures a % n == a
  {
  }

  /** Next is the cycle step: the last match wraps to the first, any other moves one on. */
  lemma NextWraps(i: int, n: int)
    requires 0 <= i < n
    ensures NextIndex(i, n) == if i == n - 1 then 0 else i + 1
  {
  }

  /** Prev is the reverse step: the first match wraps to the last, any other moves one back. */
  lemma PrevWraps(i: int, n: int)
    requires 0 <= i < n
    ensures PrevIndex(i, n) == if i == 0 then n - 1 else i - 1
  {
    if i > 0 {
      assert i - 1 + n == (i - 1) + 1 * n;
    }
  }

  /** Prev undoes Next and Next undoes Prev, on every match position. */
  lemma NextPrevInverse(i: int, n: int)
    requires 0 <= i < n
    ensures PrevIndex(NextIndex(i, n), n) == i
    ensures NextIndex(PrevIndex(i, n), n) == i
  {
    NextWraps(i, n);
    PrevWraps(i, n);
    NextWraps(PrevIndex(i, n), n);
    PrevWraps(NextIndex(i, n), n);
  }

  /** `scrollToMatch(index)`: the mark scrolled into view, if any. */
  function ScrollTarget(index: int, marks: nat): (r: Option<nat>)
    ensures marks == 0 ==> r.None?
    ensures marks > 0 && index >= 0 ==> r == Some(index % marks)
    ensures 0 <= index < marks ==> r == Some(index)
    ensures r.Some? ==> r.value < marks
  {
    assert 0 <= index < marks ==> index % marks == index by {
      if 0 <= index < marks { ModOfSmall(index, marks); }
    }
    if marks == 0 then None
    else
      var k := JsRem(index, marks);
      if k < 0 then None else Some(k)
  }

  /** What `getDeviceConfigOps` resolved with: `{ success, message, result }`. */
  datatype ConfigResult = ConfigResult(configuration: JsText, operationaldata: JsText)

  datatype Envelope = Envelope(success: bool, message: JsText, result: Option<ConfigResult>)

  datatype LoadOutcome = Received(envelope: Envelope) | Thrown(responseData: Option<string>, message: string)

  /** The page's error value: a message, or the server's error body (shown as JSON). */
  datatype PageError = Message(text: string) | ResponseBody(body: string)

  /** `envelope.message || "Failed to load configuration"`. */
  function EnvelopeError(e: Envelope): (m: string)
    ensures m != []
    ensures e.message.Str? && e.message.s != [] ==> m == e.message.s
    ensures !(e.message.Str? && e.message.s != []) ==> m == "Failed to load configuration"
  {
    var given := e.message.OrEmpty();
    if given != [] then given else "Failed to load configuration"
  }

  /** `if (error)`: an error value the page treats as present. */
  predicate ErrorShown(e: Option<PageError>)
  {
    match e
    case None => false
    case Some(Message(t)) => t != []
    case Some(ResponseBody(_)) => true
  }

  datatype Tab = ConfigTab | OperationalTab

  datatype Page = LoadingPage | ErrorPage | ContentPage

  class DeviceConfigOps {
    var config: string
    var operational: string
    var loading: bool
    var error: Option<PageError>
    var activeTab: Tab
    var searchTerm: string
    var matchIndex: int

    ghost predicate Valid()
      reads this
    {
      matchIndex >= 0
    }

    constructor ()
      ensures Valid()
      ensures config == "" && operational == "" && loading && error.None?
      ensures activeTab == ConfigTab && searchTerm == "" && matchIndex == 0
    {
      config, operational, loading, error := "", "", true, None;
      activeTab, searchTerm, matchIndex := ConfigTab, "", 0;
    }

    /** Which of the three renderings is on screen. */
    function View(): (p: Page)
      reads this
      ensures p == LoadingPage <==> loading
      ensures p == ErrorPage <==> !loading && ErrorShown(error)
    {
      if loading then LoadingPage else if ErrorShown(error) then ErrorPage else ContentPage
    }

    /**
     * `load()` settles. A failed envelope or a thrown error sets the error and
     * keeps whatever texts were there; a thrown error with an empty response
     * body reports its message, as `||` does. A successful envelope sets
     * both texts; `loading` is cleared in every case.
     */
    method Load(outcome: LoadOutcome)
      modifies this`config, this`operational, this`loading, this`error
      ensures !loading
      ensures outcome.Received? && !outcome.envelope.success ==>
                error == Some(Message(EnvelopeError(outcome.envelope)))
                && config == old(config) && operational == old(operational)
      ensures outcome.Received? && outcome.envelope.success ==>
                error == old(error)
                && config == (match outcome.envelope.result
                              case Some(r) => r.configuration.OrEmpty()
                              case None => "")
                && operational == (match outcome.envelope.result
                                   case Some(r) => r.operationaldata.OrEmpty()
                                   case None => "")
      ensures outcome.Thrown? ==>
                config == old(config) && operational == old(operational)
                && error == Some(match outcome.responseData
                                 case Some(b) => if b != [] then ResponseBody(b) else Message(outcome.message)
                                 case None => Message(outcome.message))
    {
      match outcome {
        case Received(envelope) =>
          if !envelope.success {
            error := Some(Message(EnvelopeError(envelope)));
          } else {
            match envelope.result {
              case Some(r) =>
                config := r.configuration.OrEmpty();
                operational := r.operationaldata.OrEmpty();
              case None =>
                config := "";
                operational := "";
            }
          }
        case Thrown(responseData, message) =>
          match responseData {
            case Some(b) =>
              error := Some(if b != [] then ResponseBody(b) else Message(message));
            case None => error := Some(Message(message));
          }
      }
      loading := false;
    }

    /** Typing in the search box: new term, back to the first match. */
    method ChangeSearch(term: string)
      modifies this`searchTerm, this`matchIndex
      ensures Valid()
      ensures searchTerm == term && matchIndex == 0
    {
      searchTerm := term;
      matchIndex := 0;
    }

    /** The tab buttons; the operational tab is disabled while its text is empty. */
    method SelectTab(tab: Tab)
      requires tab == OperationalTab ==> operational != []
      modifies this`activeTab
      ensures activeTab == tab
    {
      activeTab := tab;
    }

    /** Enter in the search box: back to the first match and scroll to it. */
    method HandleFind(marks: nat) returns (scrolled: Option<nat>)
      modifies this`matchIndex
      ensures Valid()
      ensures matchIndex == 0
      ensures scrolled == if marks == 0 then None else Some(0)
    {
      matchIndex := 0;
      scrolled := ScrollTarget(0, marks);
    }

    /** The down arrow: one match on, wrapping; nothing when there is no match. */
    method HandleNext(marks: nat) returns (scrolled: Option<nat>)
      requires Valid()
      modifies this`matchIndex
      ensures Valid()
      ensures marks == 0 ==> matchIndex == old(matchIndex) && scrolled.None?
      ensures marks > 0 ==> matchIndex == (old(matchIndex) + 1) % marks && scrolled == Some(matchIndex)
    {
      if marks == 0 {
        return None;
      }
      matchIndex := NextIndex(matchIndex, marks);
      scrolled := ScrollTarget(matchIndex, marks);
    }

    /** The up arrow: one match back, wrapping; nothing when there is no match. */
    method HandlePrev(marks: nat) returns (scrolled: Option<nat>)
      requires Valid()
      modifies this`matchIndex
      ensures Valid()
      ensures marks == 0 ==> matchIndex == old(matchIndex) && scrolled.None?
      ensures marks > 0 ==> matchIndex == (old(matchIndex) - 1 + marks) % marks && scrolled == Some(matchIndex)
    {
      if marks == 0 {
        return None;
      }
      matchIndex := PrevIndex(matchIndex, marks);
      scrolled := ScrollTarget(matchIndex, marks);
    }
  }
}
