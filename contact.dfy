/**
 * The contact form (src/components/ContactSection.tsx): four text fields, the
 * `canSend` rule that enables the submit button, and the send state machine.
 * The request's settlement is an event, `Receive`, carrying what `fetch` and
 * `r.json()` produced.
 */
module Contact {
  import opened Wrappers
  import opened Text

  datatype SendState = Idle | Sending | Sent | Error

  datatype Field = Email | Name | Title | Message

  /** The JSON body the form posts. */
  datatype Payload = Payload(email: string, name: string, title: string, message: string)

  /** The parsed reply body; `error` is absent or empty when the body carries none. */
  datatype ReplyBody = ReplyBody(ok: bool, error: Option<string>)

  /** How the request settled: `fetch` threw, or a status with a body that parsed (or not). */
  datatype Outcome =
    | Threw
    | Replied(httpOk: bool, body: Option<ReplyBody>)

  const NetworkErrorMessage: string := "Network error. Please try again."
  const DefaultErrorMessage: string := "Message could not be sent. Please try again."
  const RenderedFallback: string := "Message could not be sent."

  /** `canSend`: every field has a non-whitespace character. */
  predicate CanSend(email: string, name: string, title: string, message: string) {
    |Trim(email)| > 0 && |Trim(name)| > 0 && |Trim(title)| > 0 && |Trim(message)| > 0
  }

  /** The form may be sent exactly when no field is empty or whitespace only. */
  lemma CanSendIffNoBlankField(email: string, name: string, title: string, message: string)
    ensures CanSend(email, name, title, message) <==>
      !AllWhitespace(email) && !AllWhitespace(name) && !AllWhitespace(title) && !AllWhitespace(message)
  {
  }

  /** Empty fields cannot be sent. */
  lemma NothingToSend()
    ensures !CanSend("", "", "", "")
  {
    assert Trim("") == [];
  }

  /** The error text a settled request leaves, or `None` when it succeeded. */
  function ErrorOf(outcome: Outcome): (r: Option<string>)
    ensures r.Some? ==> r.value != ""
    ensures outcome.Threw? ==> r == Some(NetworkErrorMessage)
    ensures outcome.Replied? && outcome.httpOk && outcome.body.Some? && outcome.body.value.ok ==> r.None?
    ensures outcome.Replied? && (!outcome.httpOk || outcome.body.None? || !outcome.body.value.ok) ==> r.Some?
    ensures outcome.Replied? && outcome.body.None? ==> r == Some(DefaultErrorMessage)
  {
    match outcome
    case Threw => Some(NetworkErrorMessage)
    case Replied(httpOk, body) =>
      if !httpOk || body.None? || !body.value.ok then
        if body.Some? && body.value.error.Some? && body.value.error.value != "" then Some(body.value.error.value)
        else Some(DefaultErrorMessage)
      else None
  }

  /** The server's own error text is shown when it has one; otherwise the default message. */
  lemma ServerErrorShown(httpOk: bool, body: ReplyBody)
    requires !httpOk || !body.ok
    ensures ErrorOf(Replied(httpOk, Some(body))) ==
      Some(if body.error.Some? && body.error.value != "" then body.error.value else DefaultErrorMessage)
  {
  }

  /** The status line under the button when sending failed. */
  function RenderedError(sendError: string): string {
    if sendError != "" then sendError else RenderedFallback
  }

  class Form {
    var email: string
    var name: string
    var title: string
    var message: string
    var sendState: SendState
    var sendError: string
    var inFlight: Option<Payload>   // the body of the request being sent

    /**
     * The states the form can reach: a request is in flight exactly while
     * sending, and an error text is set exactly in the error state.
     */
    predicate Valid()
      reads this
    {
      (sendState == Sending <==> inFlight.Some?) &&
      (sendState == Error <==> sendError != "")
    }

    /** The submit button is enabled. */
    predicate SubmitEnabled()
      reads this
    {
      CanSend(email, name, title, message) && sendState != Sending
    }

    constructor()
      ensures Valid() && sendState == Idle && !SubmitEnabled()
      ensures email == "" && name == "" && title == "" && message == ""
    {
      email, name, title, message := "", "", "", "";
      sendState := Idle;
      sendError := "";
      inFlight := None;
      NothingToSend();
    }

    /** An input's `onChange`. */
    method Edit(f: Field, value: string)
      modifies this
      ensures email == (if f == Email then value else old(email))
      ensures name == (if f == Name then value else old(name))
      ensures title == (if f == Title then value else old(title))
      ensures message == (if f == Message then value else old(message))
      ensures sendState == old(sendState) && sendError == old(sendError) && inFlight == old(inFlight)
    {
      match f
      case Email => email := value;
      case Name => name := value;
      case Title => title := value;
      case Message => message := value;
    }

    /**
     * `onSubmit`: the fields as they are now become the request body. The
     * submit button is disabled while sending (and also unless `CanSend`, which
     * the handler itself does not rely on).
     */
    method Submit()
      requires Valid() && sendState != Sending
      modifies this
      ensures Valid()
      ensures sendState == Sending && sendError == ""
      ensures inFlight == Some(Payload(email, name, title, message))
      ensures email == old(email) && name == old(name) && title == old(title) && message == old(message)
    {
      sendState := Sending;
      sendError := "";
      inFlight := Some(Payload(email, name, title, message));
    }

    /**
     * The rest of `onSubmit` once the request settles: success clears the
     * fields (so the button is disabled until they are filled again), failure
     * keeps them and sets the error text.
     */
    method Receive(outcome: Outcome)
      requires Valid() && sendState == Sending
      modifies this
      ensures Valid() && inFlight.None?
      ensures ErrorOf(outcome).None? ==>
        sendState == Sent && sendError == "" && email == "" && name == "" && title == "" && message == "" &&
        !SubmitEnabled()
      ensures ErrorOf(outcome).Some? ==>
        sendState == Error && sendError == ErrorOf(outcome).value && RenderedError(sendError) == sendError &&
        email == old(email) && name == old(name) && title == old(title) && message == old(message)
    {
      inFlight := None;
      var err := ErrorOf(outcome);
      if err.Some? {
        sendState := Error;
        sendError := err.value;
        return;
      }
      sendState := Sent;
      email, name, title, message := "", "", "", "";
      NothingToSend();
    }
  }
}
