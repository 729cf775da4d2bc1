/**
 * The form-state hook shared by the log-in and sign-up pages: field values, a
 * map of field errors (an entry may hold `null`, modelled as `None`), and a
 * submitting flag. `handleSubmit` validates, and only on a clean validation
 * awaits the caller's callback, whose rejection becomes a `form` error.
 */
module AuthForm {
  import opened JsValues

  type Fields = map<string, string>

  /** A validator maps the field values to field error messages. */
  type Validator = Fields -> map<string, string>

  datatype FormState = FormState(values: Fields, errors: map<string, Option<string>>, isSubmitting: bool)

  /** `errors[name]` read as a condition: present, not `null`, not empty. */
  predicate HasError(errors: map<string, Option<string>>, name: string) {
    name in errors && Truthy(errors[name])
  }

  /** `handleChange`: store the value and clear (to `null`) a truthy error on that field only. */
  function HandleChange(s: FormState, name: string, value: string): (r: FormState)
    ensures r.values == s.values[name := value]
    ensures !HasError(r.errors, name)
    ensures r.errors.Keys == s.errors.Keys
    ensures forall k :: k in s.errors && k != name ==> r.errors[k] == s.errors[k]
    ensures r.isSubmitting == s.isSubmitting
  {
    var errors := if HasError(s.errors, name) then s.errors[name := None] else s.errors;
    s.(values := s.values[name := value], errors := errors)
  }

  /** How the awaited callback settled. */
  datatype Settled = Resolved | Rejected(message: string)

  const FallbackMessage := "An error occurred. Please try again."

  /** `error.message || 'An error occurred. Please try again.'` */
  function FormMessage(message: string): (m: string)
    ensures m != ""
    ensures message != "" ==> m == message
  {
    if message != "" then message else FallbackMessage
  }

  /** Lift validator output into the errors map. */
  function AsErrors(e: map<string, string>): (r: map<string, Option<string>>)
    ensures r.Keys == e.Keys
    ensures forall k :: k in e ==> r[k] == Some(e[k])
  {
    map k | k in e :: Some(e[k])
  }

  /** `validate ? validate(values) : {}` */
  function Validation(values: Fields, validate: Option<Validator>): map<string, string> {
    match validate
    case None => map[]
    case Some(f) => f(values)
  }

  /** The state after a submission, and whether the callback was called (with `values`). */
  datatype Submission = Submission(state: FormState, called: bool)

  /**
   * `handleSubmit` as written: the catch spreads the `errors` captured when the
   * handler was created, so the errors shown before the submission come back.
   */
  function HandleSubmitAsWritten(s: FormState, validate: Option<Validator>, outcome: Settled): (r: Submission)
    ensures r.called <==> Validation(s.values, validate) == map[]
    ensures r.state.values == s.values
    ensures !r.called ==> r.state.errors == AsErrors(Validation(s.values, validate)) && r.state.isSubmitting == s.isSubmitting
    ensures r.called ==> !r.state.isSubmitting
    ensures r.called && outcome.Resolved? ==> r.state.errors == map[]
    ensures r.called && outcome.Rejected? ==>
      r.state.errors.Keys == s.errors.Keys + {"form"}
      && r.state.errors["form"] == Some(FormMessage(outcome.message))
  {
    var found := Validation(s.values, validate);
    if found != map[] then Submission(s.(errors := AsErrors(found)), false)
    else
      var errors := match outcome
        case Resolved => AsErrors(found)
        case Rejected(m) => s.errors["form" := Some(FormMessage(m))];
      Submission(s.(errors := errors, isSubmitting := false), true)
  }

  /**
   * `handleSubmit` as intended: a rejection adds the `form` error to the errors
   * of this submission's validation, which is empty on that path.
   */
  function HandleSubmit(s: FormState, validate: Option<Validator>, outcome: Settled): (r: Submission)
    ensures r.called <==> Validation(s.values, validate) == map[]
    ensures r.state.values == s.values
    ensures !r.called ==> r.state.errors == AsErrors(Validation(s.values, validate)) && r.state.isSubmitting == s.isSubmitting
    ensures r.called ==> !r.state.isSubmitting
    ensures r.called && outcome.Resolved? ==> r.state.errors == map[]
    ensures r.called && outcome.Rejected? ==> r.state.errors == map["form" := Some(FormMessage(outcome.message))]
    ensures forall k :: HasError(r.state.errors, k) ==>
      k in Validation(s.values, validate) || (k == "form" && outcome.Rejected?)
  {
    var found := Validation(s.values, validate);
    if found != map[] then Submission(s.(errors := AsErrors(found)), false)
    else
      var errors := match outcome
        case Resolved => AsErrors(found)
        case Rejected(m) => AsErrors(found)["form" := Some(FormMessage(m))];
      Submission(s.(errors := errors, isSubmitting := false), true)
  }

  /** The two agree on every path except a rejected callback. */
  lemma SubmitAgreesUnlessRejected(s: FormState, validate: Option<Validator>, outcome: Settled)
    requires outcome.Resolved? || Validation(s.values, validate) != map[] || s.errors.Keys <= {"form"}
    ensures HandleSubmitAsWritten(s, validate, outcome) == HandleSubmit(s, validate, outcome)
  {
    var a := HandleSubmitAsWritten(s, validate, outcome);
    var b := HandleSubmit(s, validate, outcome);
    if a.called && outcome.Rejected? {
      assert a.state.errors.Keys == b.state.errors.Keys;
    }
  }

  /**
   * The stale error: the user saw a field error on the previous submission,
   * fixed another field (which clears only that field's error), validation now
   * passes, and the callback rejects. The old error is shown again, although
   * validation just reported nothing; the corrected handler shows only `form`.
   */
  lemma StaleErrorReappears(s: FormState, field: string, edited: string, value: string,
                            validate: Validator, message: string)
    requires HasError(s.errors, field) && field != edited && field != "form"
    requires validate(s.values[edited := value]) == map[]
    ensures var t := HandleChange(s, edited, value);
      var written := HandleSubmitAsWritten(t, Some(validate), Rejected(message));
      var fixed := HandleSubmit(t, Some(validate), Rejected(message));
      HasError(written.state.errors, field) && !HasError(fixed.state.errors, field)
  {
    var t := HandleChange(s, edited, value);
    var written := HandleSubmitAsWritten(t, Some(validate), Rejected(message));
    assert written.state.errors == t.errors["form" := Some(FormMessage(message))];
  }
}
