/**
 * frontend/src/pages/ContactPage.js without its JSX: the form state, the
 * per-field validation rules, handleChange and handleSubmit. The POST to
 * /contact is not made here: its outcome arrives as a PostOutcome value.
 */
module ContactPage {
  import opened Common
  import opened JsStrings
  import opened EmailFormat
  import ContactController

  /** The four inputs of the form, by their `name` attribute. */
  datatype Field = Name | Email | Subject | Message

  /** The form as first rendered and as reset after a successful send. */
  const EmptyForm: map<Field, string> := map[Name := "", Email := "", Subject := "", Message := ""]

  lemma EmptyFormHasFields()
    ensures HasFormFields(EmptyForm)
  {
    forall f: Field ensures f in EmptyForm {
      assert f == Name || f == Email || f == Subject || f == Message;
    }
  }

  const NameRequired := "Name is required"
  const NameTooShort := "Name must be at least 2 characters"
  const EmailRequired := "Email is required"
  const EmailInvalid := "Please enter a valid email address"
  const SubjectRequired := "Subject is required"
  const SubjectTooShort := "Subject must be at least 3 characters"
  const MessageRequired := "Message is required"
  const MessageTooShort := "Message must be at least 10 characters"

  const DefaultSuccessMessage := "Thank you for contacting us! We will get back to you soon."
  const DefaultFailureMessage := "Failed to send message. Please try again later."

  /** Every input has a value in the form data. */
  predicate HasFormFields(form: map<Field, string>) {
    forall f: Field :: f in form
  }

  /** A field whose trimmed value must be at least `minLength` characters
      long: no error, the "required" message when blank, or the "too short" one. */
  function LengthError(value: string, minLength: nat, requiredMessage: string, shortMessage: string): (e: Option<string>)
    requires minLength > 0
    ensures e.None? <==> Utf16Length(Trim(value)) >= minLength
    ensures e.Some? ==> e.value == if Trim(value) == "" then requiredMessage else shortMessage
  {
    if Trim(value) == "" then Some(requiredMessage)
    else if Utf16Length(Trim(value)) < minLength then Some(shortMessage)
    else None
  }

  /** The address must be non-blank once trimmed, and then match the pattern as typed. */
  function EmailError(email: string): (e: Option<string>)
    ensures e.None? <==> IsValidEmail(email)
    ensures e.Some? ==> e.value == if Trim(email) == "" then EmailRequired else EmailInvalid
  {
    ValidEmailIsTrimmed(email);
    if Trim(email) == "" then Some(EmailRequired)
    else if !IsValidEmail(email) then Some(EmailInvalid)
    else None
  }

  /** The rule validateForm applies to one field: name, subject and message
      by their length once trimmed (2, 3 and 10 characters), the address by
      the e-mail pattern. */
  predicate FieldValid(f: Field, value: string) {
    match f
    case Name => Utf16Length(Trim(value)) >= 2
    case Email => IsValidEmail(value)
    case Subject => Utf16Length(Trim(value)) >= 3
    case Message => Utf16Length(Trim(value)) >= 10
  }

  /** The message validateForm records for one field, if any. */
  function FieldError(f: Field, value: string): (e: Option<string>)
    ensures e.None? <==> FieldValid(f, value)
  {
    match f
    case Name => LengthError(value, 2, NameRequired, NameTooShort)
    case Email => EmailError(value)
    case Subject => LengthError(value, 3, SubjectRequired, SubjectTooShort)
    case Message => LengthError(value, 10, MessageRequired, MessageTooShort)
  }

  /** validateForm's newErrors: exactly the fields that break their rule,
      each with its one message. */
  function FormErrors(form: map<Field, string>): (errs: map<Field, string>)
    requires HasFormFields(form)
    ensures forall f :: f in errs <==> !FieldValid(f, form[f])
  {
    map f | f in form && FieldError(f, form[f]).Some? :: FieldError(f, form[f]).value
  }

  /** Name: "Name is required" when blank once trimmed, else "Name must be
      at least 2 characters" when shorter than 2 once trimmed. */
  lemma NameRule(form: map<Field, string>)
    requires HasFormFields(form)
    ensures var errs := FormErrors(form);
      && (Name in errs <==> Utf16Length(Trim(form[Name])) < 2)
      && (Trim(form[Name]) == "" ==> errs[Name] == NameRequired)
      && (Trim(form[Name]) != "" && Utf16Length(Trim(form[Name])) < 2 ==> errs[Name] == NameTooShort)
  {
  }

  /** Email: "Email is required" when blank once trimmed, else "Please enter
      a valid email address" when the untrimmed text fails the pattern. */
  lemma EmailRule(form: map<Field, string>)
    requires HasFormFields(form)
    ensures var errs := FormErrors(form);
      && (Email in errs <==> !IsValidEmail(form[Email]))
      && (Trim(form[Email]) == "" ==> errs[Email] == EmailRequired)
      && (Trim(form[Email]) != "" && !IsValidEmail(form[Email]) ==> errs[Email] == EmailInvalid)
  {
  }

  /** Subject: required, and at least 3 characters once trimmed. */
  lemma SubjectRule(form: map<Field, string>)
    requires HasFormFields(form)
    ensures var errs := FormErrors(form);
      && (Subject in errs <==> Utf16Length(Trim(form[Subject])) < 3)
      && (Trim(form[Subject]) == "" ==> errs[Subject] == SubjectRequired)
      && (Trim(form[Subject]) != "" && Utf16Length(Trim(form[Subject])) < 3 ==> errs[Subject] == SubjectTooShort)
  {
  }

  /** Message: required, and at least 10 characters once trimmed. */
  lemma MessageRule(form: map<Field, string>)
    requires HasFormFields(form)
    ensures var errs := FormErrors(form);
      && (Message in errs <==> Utf16Length(Trim(form[Message])) < 10)
      && (Trim(form[Message]) == "" ==> errs[Message] == MessageRequired)
      && (Trim(form[Message]) != "" && Utf16Length(Trim(form[Message])) < 10 ==> errs[Message] == MessageTooShort)
  {
  }

  /** Lengths are counted in UTF-16 code units: one character outside the
      Basic Multilingual Plane, such as an emoji, is long enough for a name. */
  lemma AstralCharacterIsLongEnoughName(c: char)
    requires c as int >= 0x1_0000
    ensures FieldValid(Name, [c])
  {
    assert !IsWhitespace(c);
    assert TrimStart([c]) == [c];
    assert TrimEnd([c]) == [c];
    assert Utf16Length([c]) == 2 by {
      assert [c][..0] == [];
    }
  }

  /** An address that matches the pattern has no whitespace, so trimming leaves it as it is, non-empty. */
  lemma ValidEmailIsTrimmed(email: string)
    ensures IsValidEmail(email) ==> Trim(email) == email && email != ""
  {
    if IsValidEmail(email) {
      assert !IsWhitespace(email[0]) && !IsWhitespace(email[|email| - 1]);
      assert TrimStart(email) == email;
      assert TrimEnd(email) == email;
    }
  }

  /** Every rule of validateForm holds for the form. */
  predicate FormValid(form: map<Field, string>)
    requires HasFormFields(form)
  {
    Utf16Length(Trim(form[Name])) >= 2 && IsValidEmail(form[Email]) && Utf16Length(Trim(form[Subject])) >= 3 && Utf16Length(Trim(form[Message])) >= 10
  }

  /** validateForm returns true exactly when every rule holds. */
  lemma FormValidIff(form: map<Field, string>)
    requires HasFormFields(form)
    ensures FormErrors(form) == map[] <==> FormValid(form)
  {
    var errs := FormErrors(form);
    if errs == map[] {
      assert Name !in errs && Email !in errs && Subject !in errs && Message !in errs;
    }
    if FormValid(form) {
      assert FieldValid(Name, form[Name]) && FieldValid(Email, form[Email]);
      assert FieldValid(Subject, form[Subject]) && FieldValid(Message, form[Message]);
      forall f | f in errs ensures false {
        match f
        case Name =>
        case Email =>
        case Subject =>
        case Message =>
      }
      assert errs.Keys == {};
    }
  }

  /** The address is tested untrimmed: surrounding spaces make a
      non-blank address invalid, not merely untidy. */
  lemma PaddedEmailRejected(form: map<Field, string>)
    requires HasFormFields(form)
    requires Trim(form[Email]) != ""
    requires IsWhitespace(form[Email][0]) || IsWhitespace(form[Email][|form[Email]| - 1])
    ensures FormErrors(form)[Email] == EmailInvalid
  {
  }

  /** Every form the page lets through is accepted by the server's checks,
      whatever the server's environment and the fate of the e-mail. */
  lemma ClientValidPassesServer(form: map<Field, string>, env: ContactController.Env, outcome: ContactController.SendOutcome)
    requires HasFormFields(form)
    requires FormErrors(form) == map[]
    ensures ContactController.SendContactEmail(
      Some(ContactController.ContactRequest(Some(form[Name]), Some(form[Email]), Some(form[Subject]), Some(form[Message]))),
      env, outcome).response == ContactController.Response(200, true, ContactController.ThankYouMessage)
  {
    FormValidIff(form);
    NonBlankIsTruthy(form[Name]);
    NonBlankIsTruthy(form[Subject]);
    NonBlankIsTruthy(form[Message]);
    ValidEmailIsTrimmed(form[Email]);
    assert ContactController.HasAllFields(
      ContactController.ContactRequest(Some(form[Name]), Some(form[Email]), Some(form[Subject]), Some(form[Message])));
  }

  /** A value whose trimmed form has some length is itself non-empty. */
  lemma NonBlankIsTruthy(value: string)
    ensures Utf16Length(Trim(value)) > 0 ==> Truthy(Some(value))
  {
  }

  /** The alert: hidden, or shown with a type ("success"/"error") and a text. */
  datatype Alert = Alert(show: bool, kind: string, message: string)

  const HiddenAlert := Alert(false, "", "")

  /** How the POST /contact ended: a response whose data.message may be
      missing, or a thrown error whose response.data.message may be missing. */
  datatype PostOutcome = Answered(message: Option<string>) | Failed(message: Option<string>)

  /** The alert handleSubmit shows once the POST has settled. */
  function AlertAfter(outcome: PostOutcome): (a: Alert)
    ensures a.show
    ensures a.kind == (if outcome.Answered? then "success" else "error")
    ensures Truthy(outcome.message) ==> a.message == outcome.message.value
    ensures !Truthy(outcome.message) ==>
      a.message == if outcome.Answered? then DefaultSuccessMessage else DefaultFailureMessage
  {
    match outcome
    case Answered(m) => Alert(true, "success", OrElse(m, DefaultSuccessMessage))
    case Failed(m) => Alert(true, "error", OrElse(m, DefaultFailureMessage))
  }

  /** The component's state: formData, errors, loading and alert. */
  class ContactPageState {
    var formData: map<Field, string>
    var errors: map<Field, string>
    var loading: bool
    var alert: Alert

    /** The four inputs never leave the form data. */
    ghost predicate Valid()
      reads this
    {
      HasFormFields(formData)
    }

    /** The initial useState values. */
    constructor ()
      ensures Valid()
      ensures formData == EmptyForm && errors == map[] && !loading && alert == HiddenAlert
    {
      formData := EmptyForm;
      EmptyFormHasFields();
      errors := map[];
      loading := false;
      alert := HiddenAlert;
    }

    /** handleChange: the named field takes the new value; that field's error
        is cleared to "" if it was set; nothing else changes. */
    method HandleChange(name: Field, value: string)
      requires Valid()
      modifies this
      ensures Valid()
      ensures formData == old(formData)[name := value]
      ensures name in old(errors) && old(errors)[name] != "" ==> errors == old(errors)[name := ""]
      ensures !(name in old(errors) && old(errors)[name] != "") ==> errors == old(errors)
      ensures loading == old(loading) && alert == old(alert)
    {
      formData := formData[name := value];
      if name in errors && errors[name] != "" {
        errors := errors[name := ""];
      }
    }

    /** validateForm: replaces the errors with those of the current form and
        reports whether every rule holds. */
    method ValidateForm() returns (ok: bool)
      requires Valid()
      modifies this`errors
      ensures errors == FormErrors(formData)
      ensures ok <==> errors == map[]
      ensures ok <==> FormValid(formData)
    {
      errors := FormErrors(formData);
      FormValidIff(formData);
      ok := |errors| == 0;
    }

    /** handleSubmit, with the POST's outcome given. An invalid form only
        updates the errors: nothing is posted and loading and the alert stay
        as they were. A valid form is posted as it stands; afterwards the
        alert reports the outcome, the form is emptied on success only, and
        loading is false either way. */
    method HandleSubmit(outcome: PostOutcome) returns (posted: Option<map<Field, string>>)
      requires Valid()
      modifies this
      ensures Valid()
      ensures errors == FormErrors(old(formData))
      ensures posted.None? <==> !FormValid(old(formData))
      ensures posted.None? ==> formData == old(formData) && loading == old(loading) && alert == old(alert)
      ensures posted.Some? ==> posted.value == old(formData) && !loading && alert == AlertAfter(outcome)
      ensures posted.Some? && outcome.Answered? ==> formData == EmptyForm
      ensures posted.Some? && outcome.Failed? ==> formData == old(formData)
    {
      ghost var form := formData;
      var ok := ValidateForm();
      assert formData == form && (ok <==> FormValid(form));
      if !ok {
        return None;
      }
      var sent := PostForm(outcome);
      posted := Some(sent);
    }

    /** The part of handleSubmit that runs once the form is valid: loading is
        set and the alert hidden, the form data is posted, the alert then
        reports the outcome, the form is reset on success, and the finally
        block clears loading. */
    method PostForm(outcome: PostOutcome) returns (sent: map<Field, string>)
      requires Valid()
      modifies this`formData, this`loading, this`alert
      ensures Valid()
      ensures sent == old(formData)
      ensures !loading && alert == AlertAfter(outcome)
      ensures formData == (if outcome.Answered? then EmptyForm else old(formData))
    {
      loading := true;
      alert := HiddenAlert;
      sent := formData;
      match outcome {
        case Answered(m) =>
          alert := Alert(true, "success", OrElse(m, DefaultSuccessMessage));
          formData := EmptyForm;
          EmptyFormHasFields();
        case Failed(m) =>
          alert := Alert(true, "error", OrElse(m, DefaultFailureMessage));
      }
      loading := false;
    }
  }
}
