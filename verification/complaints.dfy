/** The patient's feedback dialog on an appointment: a subject of at most
    100 characters and a description of at most 500, both required, sent
    trimmed with the appointment and the signed-in user's id. */
module Complaints {
  import opened Wrappers
  import opened Text
  import opened Session

  const SubjectMax: nat := 100
  const DescriptionMax: nat := 500

  datatype Dialog = Dialog(subject: String, description: String, open: bool)

  const Closed: Dialog := Dialog("", "", false)

  /** The text-entry limits the browser enforces on both fields. */
  predicate WithinLimits(d: Dialog)
  {
    |d.subject| <= SubjectMax && |d.description| <= DescriptionMax
  }

  /** Text entered into a field limited to `max` characters keeps its first `max`. */
  function Capped(s: String, max: nat): (r: String)
    ensures |r| <= max
    ensures |s| <= max ==> r == s
    ensures StartsWith(s, r)
  {
    if |s| <= max then s else s[..max]
  }

  function OpenDialog(d: Dialog): (r: Dialog)
    ensures r.open && r.subject == d.subject && r.description == d.description
  {
    d.(open := true)
  }

  function EditSubject(d: Dialog, s: String): (r: Dialog)
    ensures r.subject == Capped(s, SubjectMax) && r.description == d.description && r.open == d.open
  {
    d.(subject := Capped(s, SubjectMax))
  }

  function EditDescription(d: Dialog, s: String): (r: Dialog)
    ensures r.description == Capped(s, DescriptionMax) && r.subject == d.subject && r.open == d.open
  {
    d.(description := Capped(s, DescriptionMax))
  }

  /** `isFormValid`: both fields have something besides white space. */
  predicate IsFormValid(d: Dialog)
  {
    Trim(d.subject) != [] && Trim(d.description) != []
  }

  /** `remainingChars` under the description field. */
  function RemainingChars(d: Dialog): (n: int)
    ensures n + |d.description| == DescriptionMax
    ensures WithinLimits(d) ==> 0 <= n <= DescriptionMax
  {
    DescriptionMax - |d.description|
  }

  /** The hint under the form: something is typed but the form is not valid. */
  predicate ShowsHint(d: Dialog)
  {
    !IsFormValid(d) && (d.subject != [] || d.description != [])
  }

  /** The submit button is enabled only for a valid form with no request in flight. */
  predicate SubmitEnabled(d: Dialog, loading: bool)
  {
    !loading && IsFormValid(d)
  }

  datatype ComplaintRequest = ComplaintRequest(userId: Value, apId: int, subject: String, description: String)

  datatype Submission = Refused(message: String) | Sent(request: ComplaintRequest)

  const FillAllFields: String := "Please fill in all fields."
  const NoUser: String := "User not found. Please log in again."

  /** `handleSubmit` up to the request: blank fields are refused first,
      then a missing user; otherwise the trimmed texts are sent with the
      appointment id and the user's `user_id`. */
  function Submit(d: Dialog, user: Option<UserRecord>, apId: int): (r: Submission)
    ensures r.Sent? <==> IsFormValid(d) && user.Some?
    ensures !IsFormValid(d) ==> r == Refused(FillAllFields)
    ensures IsFormValid(d) && user.None? ==> r == Refused(NoUser)
    ensures r.Sent? ==>
      && r.request.subject == Trim(d.subject) && r.request.description == Trim(d.description)
      && r.request.apId == apId && r.request.userId == Get(user.value, "user_id")
  {
    if Trim(d.subject) == [] || Trim(d.description) == [] then Refused(FillAllFields)
    else if user.None? then Refused(NoUser)
    else Sent(ComplaintRequest(Get(user.value, "user_id"), apId, Trim(d.subject), Trim(d.description)))
  }

  /** A request is sent exactly when neither field is blank and a user is
      signed in, and what it carries is already trimmed and non-blank. */
  lemma SentIsTrimmedAndNonBlank(d: Dialog, user: Option<UserRecord>, apId: int)
    ensures Submit(d, user, apId).Sent? <==> !IsBlank(d.subject) && !IsBlank(d.description) && user.Some?
    ensures Submit(d, user, apId).Sent? ==>
      var q := Submit(d, user, apId).request;
      && Trim(q.subject) == q.subject && Trim(q.description) == q.description
      && !IsBlank(q.subject) && !IsBlank(q.description)
      && |q.subject| <= |d.subject| && |q.description| <= |d.description|
  {
    TrimEmptyIffBlank(d.subject);
    TrimEmptyIffBlank(d.description);
    var r := Submit(d, user, apId);
    if r.Sent? {
      var q := r.request;
      TrimIdempotent(d.subject);
      TrimIdempotent(d.description);
      TrimEmptyIffBlank(q.subject);
      TrimEmptyIffBlank(q.description);
    }
  }

  /** An enabled submit button always leads to a request for a signed-in user. */
  lemma EnabledSubmitSends(d: Dialog, user: UserRecord, apId: int)
    requires SubmitEnabled(d, false)
    ensures Submit(d, Some(user), apId).Sent?
  {
  }

  /** After the server answers: success empties and closes the dialog,
      failure leaves it exactly as it was. */
  function Settle(d: Dialog, succeeded: bool): (r: Dialog)
    ensures succeeded ==> r == Closed
    ensures !succeeded ==> r == d
  {
    if succeeded then Closed else d
  }

  /** `handleCancel`, with the answer to "discard unsaved changes?" as a
      parameter: blank fields close at once and are kept; otherwise the
      dialog is emptied and closed on confirmation and left alone when the
      user declines. */
  function Cancel(d: Dialog, confirmed: bool): (r: Dialog)
    ensures IsBlank(d.subject) && IsBlank(d.description) ==> r == d.(open := false)
    ensures !(IsBlank(d.subject) && IsBlank(d.description)) && confirmed ==> r == Closed
    ensures !(IsBlank(d.subject) && IsBlank(d.description)) && !confirmed ==> r == d
  {
    TrimEmptyIffBlank(d.subject);
    TrimEmptyIffBlank(d.description);
    if Trim(d.subject) != [] || Trim(d.description) != [] then
      (if confirmed then Closed else d)
    else d.(open := false)
  }

  /** The Escape key while the dialog is open: it closes at once, without
      asking, whatever the fields hold, and keeps their text. */
  function Escape(d: Dialog): (r: Dialog)
    ensures !r.open
    ensures r.subject == d.subject && r.description == d.description
  {
    d.(open := false)
  }

  /** Escape and the Cancel control part ways on a dialog holding text:
      Cancel asks and, when declined, leaves it open, while Escape closes it
      and keeps the text, which reopening shows again. On a blank dialog the
      two agree. */
  lemma EscapeVersusCancel(d: Dialog)
    requires d.open
    ensures !(IsBlank(d.subject) && IsBlank(d.description)) ==> Cancel(d, false).open && !Escape(d).open
    ensures OpenDialog(Escape(d)) == d
    ensures IsBlank(d.subject) && IsBlank(d.description) ==> Escape(d) == Cancel(d, false) == Cancel(d, true)
  {
  }

  /** Every step keeps both fields within their limits, so the remaining
      count never goes negative. */
  lemma StepsKeepLimits(d: Dialog, s: String, succeeded: bool, confirmed: bool)
    requires WithinLimits(d)
    ensures WithinLimits(OpenDialog(d)) && WithinLimits(Escape(d))
    ensures WithinLimits(EditSubject(d, s)) && WithinLimits(EditDescription(d, s))
    ensures WithinLimits(Settle(d, succeeded)) && WithinLimits(Cancel(d, confirmed))
    ensures RemainingChars(EditDescription(d, s)) >= 0
  {
  }

  /** A dialog that the Cancel control closes without asking for
      confirmation held nothing but white space, and one reopened after a
      successful submit starts empty, without the validation hint. */
  lemma ClosingWithoutAsking(d: Dialog)
    requires Cancel(d, false).open == false && d.open
    ensures IsBlank(d.subject) && IsBlank(d.description)
    ensures !ShowsHint(OpenDialog(Settle(d, true)))
  {
  }
}
