/** The magic-link sign-in page (app/auth/sign-in/page.tsx) as a small state machine. */
module SignIn {
  import opened Wrappers
  import opened JsText

  datatype Status = Idle | Sending | Sent | Error

  const SENDING_COPY: string := "Sending magic link…"

  /** canSubmit: a non-blank email that contains "@". */
  predicate CanSubmit(email: string) {
    |Trim(email)| > 0 && Includes(email, ['@'])
  }

  /** The feedback shown after a link was sent to `email`. */
  function SentFeedback(email: string): string {
    "Magic link sent to " + email + ". Check spam if you don't see it within a few minutes."
  }

  /** statusCopy: nothing when idle, a fixed text while sending, else the feedback. */
  function StatusCopy(status: Status, feedback: Option<string>): (copy: Option<string>)
    ensures status == Idle ==> copy.None?
    ensures status == Sending ==> copy == Some(SENDING_COPY)
    ensures status in {Sent, Error} ==> copy == feedback
  {
    match status
    case Sending => Some(SENDING_COPY)
    case Sent => feedback
    case Error => feedback
    case Idle => None
  }

  /** The submit button's `disabled`. */
  predicate SubmitDisabled(email: string, status: Status) {
    !CanSubmit(email) || status == Sending
  }

  /** The blank check is implied by the "@" check: canSubmit is just "contains @". */
  lemma CanSubmitIffHasAt(email: string)
    ensures CanSubmit(email) <==> '@' in email
  {
    IncludesChar(email, '@');
    TrimEmptyIff(email);
    if '@' in email {
      var i :| 0 <= i < |email| && email[i] == '@';
      assert !IsSpace(email[i]);
    }
  }

  /** The page's state: the email field, the status and the feedback line. */
  class SignInPage {
    var email: string
    var status: Status
    var feedback: Option<string>

    constructor ()
      ensures email == "" && status == Idle && feedback == None
    {
      email := "";
      status := Idle;
      feedback := None;
    }

    /** The email input's onChange. */
    method SetEmail(value: string)
      modifies this
      ensures email == value && status == old(status) && feedback == old(feedback)
    {
      email := value;
    }

    /**
     * The synchronous part of handleSubmit: refuse an invalid email, else enter "sending".
     * The result is the email sent to the auth service, if any.
     */
    method BeginSubmit() returns (submitted: Option<string>)
      modifies this
      ensures !CanSubmit(old(email)) ==>
        submitted.None? && email == old(email) && status == old(status) && feedback == old(feedback)
      ensures CanSubmit(old(email)) ==>
        submitted == Some(old(email)) && email == old(email) && status == Sending && feedback.None?
      ensures submitted.Some? ==> StatusCopy(status, feedback) == Some(SENDING_COPY) && SubmitDisabled(email, status)
    {
      var ok := CanSubmit(email);
      if !ok {
        return None;
      }
      status := Sending;
      feedback := None;
      submitted := Some(email);
    }

    /**
     * The part of handleSubmit after the auth call settles; `submitted` is the email the
     * handler captured and `authError` the service's error message, if any.
     */
    method CompleteSubmit(submitted: string, authError: Option<string>)
      modifies this
      ensures authError.Some? ==> status == Error && feedback == authError && email == old(email)
      ensures authError.None? ==> status == Sent && feedback == Some(SentFeedback(submitted)) && email == ""
      ensures StatusCopy(status, feedback) == feedback && feedback.Some?
      ensures authError.None? ==> !CanSubmit(email) && SubmitDisabled(email, status)
    {
      if authError.Some? {
        status := Error;
        feedback := authError;
        return;
      }
      status := Sent;
      feedback := Some(SentFeedback(submitted));
      email := "";
    }
  }
}
