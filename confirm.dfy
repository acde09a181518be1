/**
 * The promise-based confirmation dialog hook: `confirm(opts)` opens the
 * dialog and returns a promise that the Cancel or OK click resolves to
 * false or true. Promises are identified by the order of their creation;
 * `settled` records the value each resolved promise has delivered.
 */
module ConfirmGate {
  import opened Inventory

  /**
   * The fields of `opts` the dialog reads. `open` is `None` when `opts` has
   * no `open` key; a text field is `Undefined` when the key is absent.
   */
  datatype DialogOptions = DialogOptions(
    open: Option<bool>,
    title: JsText,
    message: JsText,
    confirmText: JsText,
    cancelText: JsText)

  /** `confirm()` with no argument: `opts = {}`. */
  const NoOptions := DialogOptions(None, Undefined, Undefined, Undefined, Undefined)

  datatype DialogState = DialogState(
    open: bool,
    title: JsText,
    message: JsText,
    confirmText: JsText,
    cancelText: JsText)

  /** `useState({ open: false })`. */
  const InitialDialog := DialogState(false, Undefined, Undefined, Undefined, Undefined)

  /**
   * `{ open: true, ...opts }`: the new state comes from `opts` alone, and an
   * `open` key in `opts` overrides the `true` written before it.
   */
  function Opened(opts: DialogOptions): (s: DialogState)
    ensures s.open <==> opts.open != Some(false)
    ensures s.title == opts.title && s.message == opts.message
    ensures s.confirmText == opts.confirmText && s.cancelText == opts.cancelText
  {
    DialogState(
      match opts.open case Some(b) => b case None => true,
      opts.title, opts.message, opts.confirmText, opts.cancelText)
  }

  /** `close`: `{ ...s, open: false }`. */
  function Closed(s: DialogState): (r: DialogState)
    ensures !r.open
    ensures r.title == s.title && r.message == s.message
    ensures r.confirmText == s.confirmText && r.cancelText == s.cancelText
  {
    s.(open := false)
  }

  /**
   * A destructured field with a default: the default replaces only
   * `undefined`; `null` renders as nothing.
   */
  function Displayed(v: JsText, default: string): (r: string)
    ensures v.Undefined? ==> r == default
    ensures v.Null? ==> r == ""
    ensures v.Str? ==> r == v.s
  {
    match v
    case Undefined => default
    case Null => ""
    case Str(s) => s
  }

  datatype View = Hidden | Shown(title: string, message: string, confirmText: string, cancelText: string)

  /** `Dialog()`: nothing while closed, else the four texts with their defaults. */
  function Render(s: DialogState): (v: View)
    ensures v.Hidden? <==> !s.open
    ensures v.Shown? ==> v == Shown(Displayed(s.title, "Confirm"), Displayed(s.message, "Are you sure?"),
                                    Displayed(s.confirmText, "OK"), Displayed(s.cancelText, "Cancel"))
  {
    if !s.open then Hidden
    else Shown(Displayed(s.title, "Confirm"), Displayed(s.message, "Are you sure?"),
               Displayed(s.confirmText, "OK"), Displayed(s.cancelText, "Cancel"))
  }

  /** `confirm()` shows the default texts. */
  lemma DefaultDialog()
    ensures Render(Opened(NoOptions)) == Shown("Confirm", "Are you sure?", "OK", "Cancel")
  {
  }

  /** `confirm(opts)` shows the dialog unless `opts` says `open: false`. */
  lemma OpenedIsShown(opts: DialogOptions)
    ensures Render(Opened(opts)).Shown? <==> opts.open != Some(false)
  {
  }

  /** Closing hides the dialog, and reopening with the same options shows what it showed. */
  lemma CloseThenReopen(opts: DialogOptions)
    requires opts.open != Some(false)
    ensures Render(Closed(Opened(opts))).Hidden?
    ensures Render(Opened(opts)) == Render(Closed(Opened(opts)).(open := true))
  {
  }

  /** The elements on which a click can land, innermost first along their ancestry. */
  datatype Element = Backdrop | ModalBody | CancelButton | ConfirmButton

  datatype Handler = CancelHandler | ConfirmHandler

  /** The path a click bubbles along: from the element clicked up to the backdrop. */
  function Ancestry(e: Element): (path: seq<Element>)
    ensures |path| > 0 && path[0] == e && path[|path| - 1] == Backdrop
  {
    match e
    case Backdrop => [Backdrop]
    case ModalBody => [ModalBody, Backdrop]
    case CancelButton => [CancelButton, ModalBody, Backdrop]
    case ConfirmButton => [ConfirmButton, ModalBody, Backdrop]
  }

  /** The `onClick` attribute of each element. */
  function OnClick(e: Element): Option<Handler>
  {
    match e
    case Backdrop => Some(CancelHandler)
    case ModalBody => None
    case CancelButton => Some(CancelHandler)
    case ConfirmButton => Some(ConfirmHandler)
  }

  /** The modal's handler calls `stopPropagation`. */
  predicate StopsPropagation(e: Element)
  {
    e == ModalBody
  }

  /** Bubbling: each element's handler runs in turn until one stops propagation. */
  function Bubble(path: seq<Element>): (fired: seq<Handler>)
    ensures |fired| <= |path|
    ensures forall h :: h in fired ==> exists i :: 0 <= i < |path| && OnClick(path[i]) == Some(h)
  {
    if path == [] then []
    else
      var own := match OnClick(path[0]) case Some(h) => [h] case None => [];
      var rest := if StopsPropagation(path[0]) then [] else Bubble(path[1..]);
      assert forall h :: h in rest ==> exists i :: 1 <= i < |path| && OnClick(path[i]) == Some(h) by {
        forall h | h in rest
          ensures exists i :: 1 <= i < |path| && OnClick(path[i]) == Some(h)
        {
          var j :| 0 <= j < |path[1..]| && OnClick(path[1..][j]) == Some(h);
          assert path[j + 1] == path[1..][j];
        }
      }
      own + rest
  }

  /**
   * Each click runs at most one handler: the backdrop and Cancel cancel, OK
   * confirms, and a click elsewhere inside the modal runs nothing.
   */
  lemma {:induction false} ClickRouting(e: Element)
    ensures Bubble(Ancestry(e)) == match e
                                   case Backdrop => [CancelHandler]
                                   case ModalBody => []
                                   case CancelButton => [CancelHandler]
                                   case ConfirmButton => [ConfirmHandler]
  {
    assert Bubble([]) == [];
    assert Bubble([Backdrop]) == [CancelHandler] by {
      assert [Backdrop][1..] == [];
    }
    assert Bubble([ModalBody, Backdrop]) == [];
    match e
    case Backdrop =>
    case ModalBody =>
    case CancelButton =>
      assert [CancelButton, ModalBody, Backdrop][1..] == [ModalBody, Backdrop];
    case ConfirmButton =>
      assert [ConfirmButton, ModalBody, Backdrop][1..] == [ModalBody, Backdrop];
  }

  class ConfirmDialog {
    var state: DialogState
    /** `resolverRef.current`: the promise the next click resolves. */
    var resolver: Option<nat>
    /** The number of promises `confirm` has created. */
    var created: nat
    /** The value each resolved promise delivered; a promise resolves once. */
    var settled: map<nat, bool>

    ghost predicate Valid()
      reads this
    {
      && (state.open ==> resolver.Some? && resolver.value !in settled)
      && (resolver.Some? ==> resolver.value < created)
      && (forall p :: p in settled ==> p < created)
    }

    constructor ()
      ensures Valid()
      ensures state == InitialDialog && resolver.None? && created == 0 && settled == map[]
    {
      state, resolver, created, settled := InitialDialog, None, 0, map[];
    }

    /**
     * `confirm(opts)`: a new pending promise, which the dialog will resolve;
     * a promise still pending from an earlier call will never be resolved.
     */
    method Confirm(opts: DialogOptions) returns (p: nat)
      requires Valid()
      modifies this
      ensures Valid()
      ensures p == old(created) && p !in settled
      ensures created == p + 1 && resolver == Some(p)
      ensures state == Opened(opts) && settled == old(settled)
    {
      p := created;
      created := created + 1;
      resolver := Some(p);
      state := Opened(opts);
    }

    /** `handleCancel`: resolve the current promise with false and close. */
    method HandleCancel()
      requires Valid() && state.open
      modifies this`state, this`settled
      ensures Valid()
      ensures settled == old(settled)[resolver.value := false]
      ensures state == Closed(old(state))
    {
      settled := settled[resolver.value := false];
      state := Closed(state);
    }

    /** `handleConfirm`: resolve the current promise with true and close. */
    method HandleConfirm()
      requires Valid() && state.open
      modifies this`state, this`settled
      ensures Valid()
      ensures settled == old(settled)[resolver.value := true]
      ensures state == Closed(old(state))
    {
      settled := settled[resolver.value := true];
      state := Closed(state);
    }

    /** A click on the open dialog, dispatched by bubbling. */
    method Click(e: Element)
      requires Valid() && state.open
      modifies this`state, this`settled
      ensures Valid()
      ensures e == ModalBody ==> state == old(state) && settled == old(settled)
      ensures e == Backdrop || e == CancelButton ==>
                state == Closed(old(state)) && settled == old(settled)[resolver.value := false]
      ensures e == ConfirmButton ==>
                state == Closed(old(state)) && settled == old(settled)[resolver.value := true]
    {
      ClickRouting(e);
      var fired := Bubble(Ancestry(e));
      if fired == [CancelHandler] {
        HandleCancel();
      } else if fired == [ConfirmHandler] {
        HandleConfirm();
      }
    }
  }
}
