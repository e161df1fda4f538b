/**
 * The `MessageComposer` component: a stateless form around a textarea. What
 * it decides is which controls are disabled and, for the two DOM events it
 * handles, whether the browser default is suppressed and how many times the
 * `onSubmit` callback runs.
 */
module MessageComposer {
  import opened Text

  /** The props the handlers close over (`onChange`/`onSubmit` are the effects counted in `Dispatch`). */
  datatype Props = Props(value: string, isSubmitting: bool, errorMessage: string)

  /** A keydown on the textarea: `event.key` and `event.ctrlKey`. */
  datatype KeyEvent = KeyEvent(key: string, ctrlKey: bool)

  /** What a handler did: whether it called `preventDefault` and how many times it called `onSubmit`. */
  datatype Dispatch = Dispatch(preventedDefault: bool, submits: nat)

  /** `isSubmitDisabled`, the send button's `disabled`. */
  predicate IsSubmitDisabled(p: Props)
  {
    p.isSubmitting || p.value == ""
  }

  /** The textarea's `disabled`. */
  predicate IsTextareaDisabled(p: Props)
  {
    p.isSubmitting
  }

  /** `handleSubmit`: the form's submit event. */
  function HandleSubmit(p: Props): (d: Dispatch)
    ensures d.preventedDefault && d.submits == 1
  {
    Dispatch(true, 1)
  }

  /** `handleTextareaKeyDown`. */
  function HandleTextareaKeyDown(p: Props, e: KeyEvent): (d: Dispatch)
    ensures d.submits <= 1
    ensures d.submits == 1 <==> e.key == "Enter" && e.ctrlKey
    ensures d.preventedDefault <==> d.submits == 1
  {
    if e.key == "Enter" && e.ctrlKey then Dispatch(true, 1) else Dispatch(false, 0)
  }

  /**
   * The button is disabled only while submitting or for the empty value: a
   * value made only of whitespace enables it, while the textarea's own
   * disabled flag follows `isSubmitting` alone.
   */
  lemma SubmitGate(p: Props)
    ensures !IsSubmitDisabled(p) <==> !p.isSubmitting && |p.value| > 0
    ensures IsTextareaDisabled(p) ==> IsSubmitDisabled(p)
    ensures p.value != "" && IsBlank(Js, p.value) && !p.isSubmitting ==> !IsSubmitDisabled(p)
  {
  }

  /** A plain Enter (no Ctrl) submits nothing and leaves the newline to the browser. */
  lemma PlainEnterTypesNewline(p: Props)
    ensures HandleTextareaKeyDown(p, KeyEvent("Enter", false)) == Dispatch(false, 0)
  {
  }

  /**
   * Ctrl+Enter does not consult the gate: it submits the same way whether
   * or not the button is disabled, including with an empty value or while a
   * submission is in flight.
   */
  lemma CtrlEnterBypassesGate(p: Props, q: Props)
    ensures HandleTextareaKeyDown(p, KeyEvent("Enter", true)) == HandleTextareaKeyDown(q, KeyEvent("Enter", true))
    ensures IsSubmitDisabled(Props("", p.isSubmitting, p.errorMessage))
    ensures HandleTextareaKeyDown(Props("", p.isSubmitting, p.errorMessage), KeyEvent("Enter", true)).submits == 1
  {
  }
}
