/** The messages the app's snackbar shows: free text, a string resource, or a
    string resource with an action button. The action is a parameter `A`: the
    model records which action a message carries rather than running a callback. */
module Snackbar {
  import opened Wrappers
  import opened KotlinText
  import opened Resources

  datatype SnackbarMessage<A> =
    | StringSnackbar(message: string)
    | ResourceSnackbar(resource: StringRes)
    | ActionSnackbar(resource: StringRes, actionText: StringRes, action: A)

  /** `toMessage(resources)`: the text to show. */
  function ToMessage<A>(m: SnackbarMessage<A>, getString: StringRes -> string): string
  {
    match m
    case StringSnackbar(text) => text
    case ResourceSnackbar(res) => getString(res)
    case ActionSnackbar(res, _, _) => getString(res)
  }

  /** `toActionText(resources)`: the button label, null without a button. */
  function ToActionText<A>(m: SnackbarMessage<A>, getString: StringRes -> string): Option<string>
  {
    match m
    case ActionSnackbar(_, actionText, _) => Some(getString(actionText))
    case _ => None
  }

  /** `toAction()`: the action that runs, null (and nothing runs) without a button. */
  function ToAction<A>(m: SnackbarMessage<A>): Option<A>
  {
    match m
    case ActionSnackbar(_, _, action) => Some(action)
    case _ => None
  }

  /** Free text is shown as it is; both resource kinds show their resource. */
  lemma ToMessageSpec<A>(m: SnackbarMessage<A>, getString: StringRes -> string)
    ensures m.StringSnackbar? ==> ToMessage(m, getString) == m.message
    ensures !m.StringSnackbar? ==> ToMessage(m, getString) == getString(m.resource)
  {
  }

  /** A label and an action exist exactly for a message with a button, and are
      that message's own. */
  lemma ActionSpec<A>(m: SnackbarMessage<A>, getString: StringRes -> string)
    ensures ToActionText(m, getString).Some? <==> m.ActionSnackbar?
    ensures ToAction(m).Some? <==> m.ActionSnackbar?
    ensures m.ActionSnackbar? ==> ToActionText(m, getString) == Some(getString(m.actionText))
    ensures m.ActionSnackbar? ==> ToAction(m) == Some(m.action)
  {
  }

  /** `Throwable.toSnackbarMessage()`, where None is a null message: a non-blank
      message is shown as it is, anything else as the generic error. */
  function FromThrowable<A>(message: Option<string>): SnackbarMessage<A>
  {
    var text := match message case Some(t) => t case None => "";
    if !IsBlank(text) then StringSnackbar(text) else ResourceSnackbar(GenericError)
  }

  /** The text shown for an error is its own message when that is not blank,
      and the generic error otherwise; such a snackbar never has a button. */
  lemma FromThrowableShows<A>(message: Option<string>, getString: StringRes -> string)
    ensures var m: SnackbarMessage<A> := FromThrowable(message);
      && (message.Some? && !IsBlank(message.value) ==> ToMessage(m, getString) == message.value)
      && (message.None? || IsBlank(message.value) ==> ToMessage(m, getString) == getString(GenericError))
      && ToActionText(m, getString) == None && ToAction(m) == None
  {
  }

  /** Wrapping the text of a free-text snackbar again gives the same snackbar. */
  lemma FromThrowableRoundTrip<A>(text: string, getString: StringRes -> string)
    requires !IsBlank(text)
    ensures FromThrowable<A>(Some(ToMessage<A>(StringSnackbar(text), getString))) == StringSnackbar(text)
  {
  }
}
