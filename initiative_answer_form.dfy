/** The administrators' answer form of an initiative
    (decidim-initiatives/app/forms/decidim/initiatives/admin/initiative_answer_form.rb):
    which states the form accepts, when signature and answer dates are
    required, and the errors its validations add, in the order Rails runs
    them.  The initiative's current state and the two state lists of the
    Initiative model are parameters; "today" is a parameter too. */
module InitiativeAnswerForm {
  import opened Wrappers
  import RubyCore

  /** A calendar day. */
  type Date = int

  datatype Attribute = SignatureStartDate | SignatureEndDate | State | AnswerDate
  datatype ErrorKind = Blank | MustBeAfter | Invalid | MustBeBefore
  datatype Error = Error(attribute: Attribute, kind: ErrorKind)

  /** `Initiative::AUTOMATIC_STATES` and `Initiative::MANUAL_STATES`, as strings. */
  datatype StateLists = StateLists(automatic: seq<string>, manual: seq<string>)

  /** The submitted fields that the validations look at. */
  datatype Form = Form(
    state: Option<string>,
    signatureStartDate: Option<Date>,
    signatureEndDate: Option<Date>,
    answerDate: Option<Date>)

  /** What the validation can raise: `nil <= date` has no method `<=`. */
  datatype Raised = NoMethodError

  const Published := "published"

  /** `uniq_states`: every automatic and manual state, once each. */
  function UniqStates(lists: StateLists): (r: seq<string>)
    ensures forall s :: s in r <==> s in lists.automatic || s in lists.manual
    ensures RubyCore.NoDuplicates(r)
    ensures lists.automatic + lists.manual == [] <==> r == []
  {
    var all := lists.automatic + lists.manual;
    assert all != [] ==> all[0] in all;
    RubyCore.Uniq(all)
  }

  /** `state_updatable?`: the initiative is in a state an administrator may change by hand. */
  predicate StateUpdatable(lists: StateLists, current: string) {
    current in lists.manual
  }

  /** `signature_dates_required?`, through `check_state`; the memoisation does
      not change the value. */
  predicate SignatureDatesRequired(lists: StateLists, current: string) {
    current in lists.manual
  }

  /** `answer_date_allowed?`: never when the submitted state is "published". */
  predicate AnswerDateAllowed(lists: StateLists, current: string, form: Form) {
    if form.state == Some(Published) then false else StateUpdatable(lists, current)
  }

  /** `state_validation`: one error when a state that cannot be changed by hand
      was changed, one more when the state is not a known one. */
  function StateValidation(lists: StateLists, current: string, state: Option<string>): (errs: seq<Error>)
    ensures errs == [] <==>
              state.Some? && state.value in UniqStates(lists) && (StateUpdatable(lists, current) || state == Some(current))
    ensures |errs| <= 2
    ensures forall e :: e in errs ==> e == Error(State, Invalid)
  {
    (if !StateUpdatable(lists, current) && Some(current) != state then [Error(State, Invalid)] else []) +
    (if state.None? || state.value !in UniqStates(lists) then [Error(State, Invalid)] else [])
  }

  /** The two presence checks of the signature dates. */
  function SignatureDatesPresence(lists: StateLists, current: string, form: Form): seq<Error> {
    if SignatureDatesRequired(lists, current) then
      (if form.signatureStartDate.None? then [Error(SignatureStartDate, Blank)] else []) +
      (if form.signatureEndDate.None? then [Error(SignatureEndDate, Blank)] else [])
    else []
  }

  /** The end date must be strictly after the start date when both are given. */
  function SignatureDatesOrder(form: Form): seq<Error> {
    if form.signatureStartDate.Some? && form.signatureEndDate.Some? &&
       !(form.signatureEndDate.value > form.signatureStartDate.value)
    then [Error(SignatureEndDate, MustBeAfter)]
    else []
  }

  function StatePresence(form: Form): seq<Error> {
    if RubyCore.Blank(form.state) then [Error(State, Blank)] else []
  }

  function AnswerDatePresence(lists: StateLists, current: string, form: Form): seq<Error> {
    if AnswerDateAllowed(lists, current, form) && form.answerDate.None? then [Error(AnswerDate, Blank)] else []
  }

  /** The errors of every validation before `answer_date_restriction`. */
  function ErrorsBeforeRestriction(lists: StateLists, current: string, form: Form): seq<Error> {
    SignatureDatesPresence(lists, current, form) + SignatureDatesOrder(form) + StatePresence(form) +
    StateValidation(lists, current, form.state) + AnswerDatePresence(lists, current, form)
  }

  /** `valid?` as the form is written: the errors in the order the validations
      add them, or the exception `answer_date_restriction` raises when the
      answer date is allowed but missing. */
  function Validate(lists: StateLists, current: string, form: Form, today: Date): (r: Result<seq<Error>, Raised>)
    ensures r.Failure? <==> AnswerDateAllowed(lists, current, form) && form.answerDate.None?
    ensures r.Success? ==> ErrorsBeforeRestriction(lists, current, form) <= r.value
  {
    var errs := ErrorsBeforeRestriction(lists, current, form);
    if !AnswerDateAllowed(lists, current, form) then Success(errs)
    else if form.answerDate.None? then Failure(NoMethodError)
    else if form.answerDate.value <= today then Success(errs)
    else Success(errs + [Error(AnswerDate, MustBeBefore)])
  }

  /** What it takes for a form to be valid. */
  predicate Acceptable(lists: StateLists, current: string, form: Form, today: Date) {
    (SignatureDatesRequired(lists, current) ==> form.signatureStartDate.Some? && form.signatureEndDate.Some?) &&
    (form.signatureStartDate.Some? && form.signatureEndDate.Some? ==>
       form.signatureEndDate.value > form.signatureStartDate.value) &&
    !RubyCore.Blank(form.state) &&
    form.state.value in UniqStates(lists) &&
    (StateUpdatable(lists, current) || form.state == Some(current)) &&
    (AnswerDateAllowed(lists, current, form) ==> form.answerDate.Some? && form.answerDate.value <= today)
  }

  /** The form as written is valid exactly when it is acceptable. */
  lemma ValidIffAcceptable(lists: StateLists, current: string, form: Form, today: Date)
    ensures Validate(lists, current, form, today) == Success([]) <==> Acceptable(lists, current, form, today)
  {
  }

  /** `answer_date_allowed?` against the submitted state. */
  lemma AnswerDateAllowedRule(lists: StateLists, current: string, form: Form)
    ensures form.state == Some(Published) ==> !AnswerDateAllowed(lists, current, form)
    ensures form.state != Some(Published) ==>
              (AnswerDateAllowed(lists, current, form) <==> StateUpdatable(lists, current))
    ensures SignatureDatesRequired(lists, current) <==> StateUpdatable(lists, current)
  {
  }

  /** The state is always required: a form without one is never valid. */
  lemma StateAlwaysRequired(lists: StateLists, current: string, form: Form, today: Date)
    requires RubyCore.Blank(form.state)
    ensures Validate(lists, current, form, today).Success? ==>
              Error(State, Blank) in Validate(lists, current, form, today).value
  {
    var before := ErrorsBeforeRestriction(lists, current, form);
    var a := SignatureDatesPresence(lists, current, form) + SignatureDatesOrder(form);
    assert before == a + [Error(State, Blank)] + StateValidation(lists, current, form.state) +
                     AnswerDatePresence(lists, current, form);
    assert before[|a|] == Error(State, Blank);
  }

  /** With Decidim's state lists (accepted and rejected are reached
      automatically; created, validating, discarded and published are set by
      hand), a published initiative discarded without an answer date makes the
      validation raise instead of reporting the missing date. */
  lemma MissingAnswerDateRaises()
    ensures var lists := StateLists(["accepted", "rejected"], ["created", "validating", "discarded", "published"]);
            Validate(lists, "published", Form(Some("discarded"), Some(1), Some(2), None), 10) == Failure(NoMethodError)
  {
  }

  /** The validation as evidently intended: a missing answer date is reported
      by its presence check alone, and the restriction only compares a date
      that is there. */
  function ValidateCorrected(lists: StateLists, current: string, form: Form, today: Date): (errs: seq<Error>)
    ensures ErrorsBeforeRestriction(lists, current, form) <= errs
    ensures AnswerDateAllowed(lists, current, form) && form.answerDate.None? ==> Error(AnswerDate, Blank) in errs
    ensures Validate(lists, current, form, today).Success? ==> errs == Validate(lists, current, form, today).value
  {
    var errs := ErrorsBeforeRestriction(lists, current, form);
    if AnswerDateAllowed(lists, current, form) && form.answerDate.Some? && !(form.answerDate.value <= today)
    then errs + [Error(AnswerDate, MustBeBefore)]
    else
      assert AnswerDateAllowed(lists, current, form) && form.answerDate.None? ==>
               errs[|errs| - 1] == Error(AnswerDate, Blank);
      errs
  }

  /** The corrected validation accepts exactly the acceptable forms and never raises. */
  lemma CorrectedValidIffAcceptable(lists: StateLists, current: string, form: Form, today: Date)
    ensures ValidateCorrected(lists, current, form, today) == [] <==> Acceptable(lists, current, form, today)
  {
  }
}
