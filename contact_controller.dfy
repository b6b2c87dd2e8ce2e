/**
 * backend/controllers/contactController.js: sendContactEmail. It checks that
 * the four fields are present, checks the address against the e-mail pattern,
 * then, when an e-mail API key is configured, hands one message to Resend,
 * and answers 200 whatever became of that message.
 *
 * The environment variables and the outcome of the Resend call arrive as
 * parameters; the HTML body of the message and the logging are not modelled.
 */
module ContactController {
  import opened Common
  import opened JsStrings
  import opened EmailFormat

  /** req.body: each field absent (undefined/null) or a string. */
  datatype ContactRequest = ContactRequest(
    name: Option<string>,
    email: Option<string>,
    subject: Option<string>,
    message: Option<string>)

  /** process.env as the handler reads it. */
  datatype Env = Env(emailApiKey: Option<string>, emailFrom: Option<string>, adminEmail: Option<string>)

  /** What became of resend.emails.send: delivered, an `error` in the reply, or a throw. */
  datatype SendOutcome = Delivered | ProviderError | SendThrew

  /** The fields of the message handed to Resend, without its HTML body. */
  datatype OutgoingEmail = OutgoingEmail(from: string, to: seq<string>, subject: string)

  /** res.status(status).json({success, message}). */
  datatype Response = Response(status: nat, success: bool, message: string)

  /** The response and the message the handler tried to send, if any. */
  datatype Handled = Handled(response: Response, sent: Option<OutgoingEmail>)

  const MissingFieldsMessage := "Please provide all required fields"
  const InvalidEmailMessage := "Please provide a valid email address"
  const ThankYouMessage := "Thank you for contacting us! We will get back to you soon."
  const ServerErrorMessage := "Server error. Please try again later."
  const SubjectPrefix := "Contact Form: "
  const DefaultFrom := "JobFinder <onboarding@resend.dev>"
  const DefaultAdmin := "divanshu0073.be23@chitkara.edu.in"

  /** The four fields are all truthy (present and non-empty); no trimming. */
  predicate HasAllFields(req: ContactRequest) {
    Truthy(req.name) && Truthy(req.email) && Truthy(req.subject) && Truthy(req.message)
  }

  /** The message the handler gives Resend for a valid request. */
  function OutgoingFor(env: Env, subject: string): (m: OutgoingEmail)
    ensures |m.subject| == |SubjectPrefix| + |subject|
    ensures m.subject[..|SubjectPrefix|] == SubjectPrefix && m.subject[|SubjectPrefix|..] == subject
    ensures |m.to| == 1
    ensures Truthy(env.emailFrom) ==> m.from == env.emailFrom.value
    ensures !Truthy(env.emailFrom) ==> m.from == DefaultFrom
    ensures Truthy(env.adminEmail) ==> m.to[0] == env.adminEmail.value
    ensures !Truthy(env.adminEmail) ==> m.to[0] == DefaultAdmin
  {
    OutgoingEmail(OrElse(env.emailFrom, DefaultFrom), [OrElse(env.adminEmail, DefaultAdmin)], SubjectPrefix + subject)
  }

  /** sendContactEmail(req, res). `body` is req.body, None when it is
      undefined (destructuring it throws, which the outer catch turns into 500). */
  function SendContactEmail(body: Option<ContactRequest>, env: Env, outcome: SendOutcome): (h: Handled)
    // a request that validates always gets 200 and the thank-you message
    ensures h.response.status == 200 <==> body.Some? && HasAllFields(body.value) && IsValidEmail(body.value.email.value)
    ensures h.response.status == 200 ==> h.response == Response(200, true, ThankYouMessage)
    // the required-field check comes before the address check
    ensures body.Some? && !HasAllFields(body.value) ==> h.response == Response(400, false, MissingFieldsMessage)
    ensures body.Some? && HasAllFields(body.value) && !IsValidEmail(body.value.email.value) ==>
      h.response == Response(400, false, InvalidEmailMessage)
    ensures body.None? ==> h.response == Response(500, false, ServerErrorMessage)
    // a message is attempted only for a request that validated, and only with a key
    ensures h.sent.Some? <==> h.response.status == 200 && Truthy(env.emailApiKey)
    ensures h.sent.Some? ==> h.sent.value == OutgoingFor(env, body.value.subject.value)
  {
    match body
    case None => Handled(Response(500, false, ServerErrorMessage), None)
    case Some(req) =>
      if !Truthy(req.name) || !Truthy(req.email) || !Truthy(req.subject) || !Truthy(req.message) then
        Handled(Response(400, false, MissingFieldsMessage), None)
      else if !IsValidEmail(req.email.value) then
        Handled(Response(400, false, InvalidEmailMessage), None)
      else
        var sent := if Truthy(env.emailApiKey)
          then Some(OutgoingFor(env, req.subject.value))
          else None;
        // the outcome of the send is logged and then ignored
        Handled(Response(200, true, ThankYouMessage), sent)
  }

  /** The answer does not depend on what Resend did with the message, nor on
      whether a key was configured at all. */
  lemma ResponseIgnoresDelivery(body: Option<ContactRequest>, env1: Env, env2: Env, o1: SendOutcome, o2: SendOutcome)
    ensures SendContactEmail(body, env1, o1).response == SendContactEmail(body, env2, o2).response
  {
  }

  /** The server does not trim: a name, subject and message made only of
      whitespace pass the required-field check as long as they are not empty,
      and with a valid address get 200. */
  lemma WhitespaceFieldsAccepted(name: string, email: string, subject: string, message: string, env: Env, outcome: SendOutcome)
    requires name != [] && subject != [] && message != []
    requires forall i :: 0 <= i < |name| ==> IsWhitespace(name[i])
    requires forall i :: 0 <= i < |subject| ==> IsWhitespace(subject[i])
    requires forall i :: 0 <= i < |message| ==> IsWhitespace(message[i])
    requires IsValidEmail(email)
    ensures SendContactEmail(Some(ContactRequest(Some(name), Some(email), Some(subject), Some(message))), env, outcome).response.status == 200
  {
  }
}
