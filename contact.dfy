/** The submit handler of the contact form: early-return validation of the
    name and email fields before the (simulated) submission. */
module ContactForm {
  import opened Wrappers
  import opened Email

  /** The values `FormData.get` returns for the form's fields; `None` is
      the `null` returned for a field the form does not have. */
  datatype FormData = FormData(
    name: Option<string>,
    email: Option<string>,
    address: Option<string>,
    phone: Option<string>,
    message: Option<string>)

  /** JavaScript falsiness of a field value: `null` or the empty string. */
  predicate Blank(v: Option<string>) {
    v.None? || v.value == ""
  }

  /** Where the submit handler ends. */
  datatype Outcome = MissingRequired | InvalidEmail | Submitted

  /** The notification text shown for each outcome; a submitted form gets
      its thank-you message once the simulated request completes. */
  function NotificationText(o: Outcome): (r: string)
    ensures r == "Please fill in all required fields." <==> o == MissingRequired
    ensures r == "Please enter a valid email address." <==> o == InvalidEmail
  {
    match o
    case MissingRequired => "Please fill in all required fields."
    case InvalidEmail => "Please enter a valid email address."
    case Submitted => "Thank you for your message! We will get back to you soon."
  }

  /** The notification type ("error" or "success") for each outcome. */
  function NotificationType(o: Outcome): (r: string)
    ensures r == "success" <==> o == Submitted
    ensures r != "success" ==> r == "error"
  {
    if o == Submitted then "success" else "error"
  }

  /** The validation chain: a missing name or email stops with the
      required-fields error; otherwise an email the pattern rejects stops
      with the valid-email error; otherwise the form is submitted. */
  function Validate(f: FormData): (r: Outcome)
    ensures r == MissingRequired <==> Blank(f.name) || Blank(f.email)
    ensures r == InvalidEmail <==> !Blank(f.name) && !Blank(f.email) && !IsValidEmail(f.email.value)
  {
    if Blank(f.name) || Blank(f.email) then MissingRequired
    else if !IsValidEmail(f.email.value) then InvalidEmail
    else Submitted
  }

  /** A form is submitted exactly when it has a non-empty name and an email
      that matches the address pattern; the emptiness check on the email
      is subsumed by the pattern. */
  lemma SubmittedIff(f: FormData)
    ensures Validate(f) == Submitted <==>
              !Blank(f.name) && f.email.Some? && MatchesPattern(f.email.value)
  {
    if f.email.Some? {
      IsValidEmailMatchesPattern(f.email.value);
    }
  }

  /** Address, phone and message are never checked: forms that agree on
      name and email end the same way. */
  lemma OnlyNameAndEmailChecked(f: FormData, g: FormData)
    requires f.name == g.name && f.email == g.email
    ensures Validate(f) == Validate(g)
  {
  }

  /** The notification a submission ends with: the success notice exactly
      when the form is submitted, the required-fields error exactly when the
      name or email is blank, and the valid-email error exactly when both
      are given but the email does not match the address pattern. */
  lemma NotificationForForm(f: FormData)
    ensures NotificationType(Validate(f)) == "success" <==>
              !Blank(f.name) && f.email.Some? && MatchesPattern(f.email.value)
    ensures NotificationText(Validate(f)) == "Please fill in all required fields." <==>
              Blank(f.name) || Blank(f.email)
    ensures NotificationText(Validate(f)) == "Please enter a valid email address." <==>
              !Blank(f.name) && !Blank(f.email) && !MatchesPattern(f.email.value)
  {
    SubmittedIff(f);
    if f.email.Some? {
      IsValidEmailMatchesPattern(f.email.value);
    }
  }
}
