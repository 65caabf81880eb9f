/** The booking form controller of js/app.js as an explicit state: the
    contact fields, the hidden selected-service input, the texts of the
    selection and summary displays, and the submit button. Selecting a
    service card and submitting the form are pure transitions on it. */
module Booking {
  import opened Wrappers
  import opened Text
  import opened Validation

  /** What a service card carries in its `data-service` and `data-price`
      attributes. */
  datatype Service = Service(name: string, price: nat)

  /** The values of the form's text inputs. */
  datatype Fields = Fields(
    fullName: string,
    email: string,
    phone: string,
    date: string,
    time: string,
    notes: string)

  /** The texts shown by the selection panel and the booking summary. */
  datatype Display = Display(
    serviceName: string,
    servicePrice: string,
    summaryService: string,
    summaryPrice: string,
    summaryDate: string,
    summaryTime: string)

  datatype Button = Button(caption: string, disabled: bool)

  /** `defaults` are the values `form.reset()` restores; `selected` is the
      hidden `selectedService` input, empty when no service is chosen. */
  datatype FormState = FormState(
    fields: Fields,
    defaults: Fields,
    selected: string,
    display: Display,
    button: Button)

  const NoServiceName := "No service selected"
  const NotSelected := "Not selected"
  const ZeroPrice := "$0"
  const ProcessingLabel := "Processing..."

  /** The price text `$${servicePrice}`. */
  function PriceText(price: nat): (t: string)
    ensures |t| >= 2 && t[0] == '$'
    ensures AllDigits(t[1..]) && DigitsValue(t[1..]) == price
    ensures t[1] == '0' ==> price == 0 && t == "$0"
  {
    var t := "$" + NatToDecimal(price);
    assert t[1..] == NatToDecimal(price);
    DecimalRoundTrip(price);
    t
  }

  // ---------------------------------------------------------------------------
  // selectService
  // ---------------------------------------------------------------------------

  /** A click lands on `card`, the enclosing service card if there is one.
      With no card nothing changes; otherwise the card's service becomes the
      one selection and every display naming a service or price shows it. */
  function SelectService(s: FormState, card: Option<Service>): (t: FormState)
    ensures card.None? ==> t == s
    ensures card.Some? ==> t.selected == card.value.name
    ensures card.Some? ==> t.display.serviceName == card.value.name
    ensures card.Some? ==> t.display.summaryService == card.value.name
    ensures card.Some? ==> t.display.servicePrice == PriceText(card.value.price)
    ensures card.Some? ==> t.display.summaryPrice == PriceText(card.value.price)
    ensures t.fields == s.fields && t.defaults == s.defaults && t.button == s.button
    ensures t.display.summaryDate == s.display.summaryDate
    ensures t.display.summaryTime == s.display.summaryTime
  {
    match card
    case None => s
    case Some(svc) =>
      var price := PriceText(svc.price);
      s.(selected := svc.name,
         display := s.display.(serviceName := svc.name, servicePrice := price,
                               summaryService := svc.name, summaryPrice := price))
  }

  /** Selecting A and then B leaves exactly B selected: the later click
      overwrites everything the earlier one set. */
  lemma SelectLastWins(s: FormState, a: Service, b: Service)
    ensures SelectService(SelectService(s, Some(a)), Some(b)) == SelectService(s, Some(b))
  {
    var t := SelectService(SelectService(s, Some(a)), Some(b));
    var u := SelectService(s, Some(b));
    assert t.display == u.display;
  }

  // ---------------------------------------------------------------------------
  // validating the form in order
  // ---------------------------------------------------------------------------

  /** The form's text inputs. */
  datatype Input = FullNameInput | EmailInput | PhoneInput | DateInput | TimeInput | NotesInput

  /** The element id of each input, the key `validateField` looks up. */
  function Id(i: Input): (id: string)
    ensures id in RuleIds <==> i != NotesInput
  {
    match i
    case FullNameInput => "fullName"
    case EmailInput => "email"
    case PhoneInput => "phone"
    case DateInput => "date"
    case TimeInput => "time"
    case NotesInput => "notes"
  }

  /** The fields submit validates, in the order it validates them. */
  const SubmitOrder: seq<Input> := [FullNameInput, EmailInput, PhoneInput, DateInput, TimeInput]

  /** `document.getElementById(fieldId).value`. */
  function FieldValue(f: Fields, i: Input): string {
    match i
    case FullNameInput => f.fullName
    case EmailInput => f.email
    case PhoneInput => f.phone
    case DateInput => f.date
    case TimeInput => f.time
    case NotesInput => f.notes
  }

  /** `validateField(fieldId)` run on the current form. */
  function Passes(f: Fields): Input -> bool {
    i => ValidateField(Id(i), FieldValue(f, i))
  }

  /** The result of `xs.every(test)`: whether every element passed, and the
      elements `test` actually ran on. For the form, these are the fields
      whose error message was set or cleared. */
  datatype Sweep<T> = Sweep(valid: bool, checked: seq<T>)

  /** `Array.prototype.every` stops at the first element that fails: the
      elements checked are a prefix of `xs`, all but the last of them passed,
      the last one failed unless the sweep succeeded, and it succeeds exactly
      when every element passes. */
  function Every<T>(xs: seq<T>, test: T -> bool): (r: Sweep<T>)
    ensures |r.checked| <= |xs|
    ensures forall k :: 0 <= k < |r.checked| ==> r.checked[k] == xs[k]
    ensures forall k :: 0 <= k < |r.checked| - 1 ==> test(r.checked[k])
    ensures r.valid <==> forall k :: 0 <= k < |xs| ==> test(xs[k])
    ensures r.valid ==> r.checked == xs
    ensures !r.valid ==> |r.checked| > 0 && !test(r.checked[|r.checked| - 1])
  {
    if |xs| == 0 then Sweep(true, [])
    else if !test(xs[0]) then Sweep(false, [xs[0]])
    else
      var rest := Every(xs[1..], test);
      Sweep(rest.valid, [xs[0]] + rest.checked)
  }

  /** The five required fields described by their rules in words. */
  ghost predicate FormValid(f: Fields) {
    && HasTwoNonSpace(f.fullName)
    && EmailShape(f.email)
    && PhonePattern(f.phone)
    && f.date != ""
    && f.time != ""
  }

  /** Each input's rule, as `validateField` applies it on the form. */
  lemma PassesByField(f: Fields)
    ensures Passes(f)(FullNameInput) <==> HasTwoNonSpace(f.fullName)
    ensures Passes(f)(EmailInput) <==> EmailShape(f.email)
    ensures Passes(f)(PhoneInput) <==> PhonePattern(f.phone)
    ensures Passes(f)(DateInput) <==> f.date != ""
    ensures Passes(f)(TimeInput) <==> f.time != ""
    ensures Passes(f)(NotesInput)
  {
    var _ := ValidateField(Id(FullNameInput), f.fullName);
    var _ := ValidateField(Id(EmailInput), f.email);
    var _ := ValidateField(Id(PhoneInput), f.phone);
    var _ := ValidateField(Id(DateInput), f.date);
    var _ := ValidateField(Id(TimeInput), f.time);
    var _ := ValidateField(Id(NotesInput), f.notes);
  }

  /** `every` over the five inputs is their conjunction. */
  lemma EveryOfSubmitOrder(p: Input -> bool)
    ensures Every(SubmitOrder, p).valid
        <==> p(FullNameInput) && p(EmailInput) && p(PhoneInput) && p(DateInput) && p(TimeInput)
  {
    assert SubmitOrder[0] == FullNameInput && SubmitOrder[1] == EmailInput;
    assert SubmitOrder[2] == PhoneInput && SubmitOrder[3] == DateInput;
    assert SubmitOrder[4] == TimeInput && |SubmitOrder| == 5;
  }

  lemma FormValidInOrder(f: Fields)
    ensures Every(SubmitOrder, Passes(f)).valid <==> FormValid(f)
  {
    EveryOfSubmitOrder(Passes(f));
    PassesByField(f);
  }

  // ---------------------------------------------------------------------------
  // submit
  // ---------------------------------------------------------------------------

  /** How the awaited (simulated) request settles. */
  datatype Attempt = Resolved | Threw

  /** The `formData` object assembled at submit time. */
  datatype Payload = Payload(
    name: string,
    email: string,
    phone: string,
    service: string,
    date: string,
    time: string,
    notes: string)

  datatype Outcome =
    | Blocked                       // the submit button is disabled: no submit event fires
    | NoService                     // alert: no service selected
    | Invalid                       // alert: fields not filled in correctly
    | Confirmed(booking: Payload)   // success modal shown, form reset
    | Failed(booking: Payload)      // the awaited call threw

  /** One submit: its outcome, the fields validated on the way, and the
      form state afterwards. */
  datatype Step = Step(outcome: Outcome, checked: seq<Input>, next: FormState)

  function PayloadOf(s: FormState): (p: Payload)
    ensures p.service == s.selected
    ensures p.name == s.fields.fullName && p.email == s.fields.email
    ensures p.phone == s.fields.phone && p.date == s.fields.date
    ensures p.time == s.fields.time && p.notes == s.fields.notes
  {
    Payload(s.fields.fullName, s.fields.email, s.fields.phone, s.selected,
            s.fields.date, s.fields.time, s.fields.notes)
  }

  /** The state after a successful booking: inputs back to their defaults,
      no selection, the selection texts cleared, the button restored. The
      summary date and time are left as they were, since `form.reset()`
      fires no change event. */
  function AfterBooking(s: FormState): (t: FormState)
    ensures t.fields == s.defaults && t.defaults == s.defaults
    ensures t.selected == ""
    ensures t.display.serviceName == NoServiceName && t.display.servicePrice == ZeroPrice
    ensures t.display.summaryService == NotSelected && t.display.summaryPrice == ZeroPrice
    ensures t.display.summaryDate == s.display.summaryDate
    ensures t.display.summaryTime == s.display.summaryTime
    ensures t.button == Button(s.button.caption, false)
  {
    FormState(
      s.defaults,
      s.defaults,
      "",
      s.display.(serviceName := NoServiceName, servicePrice := ZeroPrice,
                 summaryService := NotSelected, summaryPrice := ZeroPrice),
      Button(s.button.caption, false))
  }

  /** The `every` call that opens the submit handler: a non-empty prefix of
      fullName, email, phone, date, time is validated, every field before the
      last one checked passed, and the form is valid exactly when all five
      rules hold. */
  function CheckForm(f: Fields): (r: Sweep<Input>)
    ensures 0 < |r.checked| <= |SubmitOrder|
    ensures forall k :: 0 <= k < |r.checked| ==> r.checked[k] == SubmitOrder[k]
    ensures forall k :: 0 <= k < |r.checked| - 1 ==> Passes(f)(SubmitOrder[k])
    ensures r.valid <==> FormValid(f)
    ensures r.valid ==> r.checked == SubmitOrder
    ensures !r.valid ==> !Passes(f)(r.checked[|r.checked| - 1])
  {
    FormValidInOrder(f);
    Every(SubmitOrder, Passes(f))
  }

  /** Whether the user can submit at all: a disabled submit button takes
      neither clicks nor implicit submission with Enter, so the handler does
      not run. */
  predicate CanSubmit(s: FormState) {
    !s.button.disabled
  }

  /** The user's request to submit, as the code is written. With the button
      disabled nothing happens. Otherwise the submit handler runs: all five
      fields are validated first (stopping at the first failure); then a
      missing service wins over invalid fields; then the payload is built
      from the current values and the button disabled while the simulated
      request is awaited. When the await throws, the catch block only
      reports the error, so the button stays disabled. */
  function Submit(s: FormState, attempt: Attempt): (r: Step)
    ensures !CanSubmit(s) ==> r.outcome == Blocked && r.checked == [] && r.next == s
    ensures CanSubmit(s) ==> r.checked == CheckForm(s.fields).checked
    ensures CanSubmit(s) && s.selected == "" ==> r.outcome == NoService && r.next == s
    ensures CanSubmit(s) && s.selected != "" && !FormValid(s.fields) ==>
      r.outcome == Invalid && r.next == s
    ensures CanSubmit(s) && s.selected != "" && FormValid(s.fields) ==>
      && (r.outcome.Confirmed? || r.outcome.Failed?)
      && r.outcome.booking == Payload(s.fields.fullName, s.fields.email, s.fields.phone,
                                      s.selected, s.fields.date, s.fields.time, s.fields.notes)
    ensures r.outcome.Confirmed? <==>
      CanSubmit(s) && s.selected != "" && FormValid(s.fields) && attempt == Resolved
    ensures r.outcome.Confirmed? ==> r.next == AfterBooking(s)
    ensures r.outcome.Failed? ==> r.next == s.(button := Button(ProcessingLabel, true))
  {
    var sweep := CheckForm(s.fields);
    if !CanSubmit(s) then Step(Blocked, [], s)
    else if s.selected == "" then Step(NoService, sweep.checked, s)
    else if !sweep.valid then Step(Invalid, sweep.checked, s)
    else
      var booking := PayloadOf(s);
      match attempt
      case Threw => Step(Failed(booking), sweep.checked, s.(button := Button(ProcessingLabel, true)))
      case Resolved => Step(Confirmed(booking), sweep.checked, AfterBooking(s))
  }

  /** A booking reaches the request only when a service is selected and every
      field satisfies its rule; and every such form does reach it. */
  lemma DispatchIffValid(s: FormState, attempt: Attempt)
    ensures var o := Submit(s, attempt).outcome;
      (o.Confirmed? || o.Failed?) <==> CanSubmit(s) && s.selected != "" && FormValid(s.fields)
  {
  }

  /** The dispatched payload satisfies the field rules, read off the payload
      itself. */
  lemma DispatchedPayloadValid(s: FormState, attempt: Attempt)
    ensures var o := Submit(s, attempt).outcome;
      (o.Confirmed? || o.Failed?) ==>
        && o.booking.service != ""
        && ValidName(o.booking.name) && ValidEmail(o.booking.email) && ValidPhone(o.booking.phone)
        && o.booking.date != "" && o.booking.time != ""
  {
    var o := Submit(s, attempt).outcome;
    if o.Confirmed? || o.Failed? {
      NameCharacterisation(o.booking.name);
      EmailCharacterisation(o.booking.email);
      PhoneMatchesPattern(o.booking.phone);
    }
  }

  /** After a success the selection is gone, so submitting again at once
      only reports the missing service. */
  lemma ResubmitAfterSuccess(s: FormState, a: Attempt, b: Attempt)
    ensures Submit(s, a).outcome.Confirmed? ==> Submit(Submit(s, a).next, b).outcome == NoService
  {
  }

  /** After the awaited call throws, every entered value and the selection
      are still there: the same booking can be read off the form again. */
  lemma FailureKeepsInput(s: FormState)
    ensures var r := Submit(s, Threw);
      r.outcome.Failed? ==>
        && r.next.fields == s.fields && r.next.defaults == s.defaults
        && r.next.display == s.display
        && PayloadOf(r.next) == r.outcome.booking
  {
  }

  /** As written, a throw locks the form: the button stays disabled, so every
      later submit is blocked and the caption keeps reading "Processing...". */
  lemma ThrowLocksForm(s: FormState, b: Attempt)
    ensures var r := Submit(s, Threw);
      r.outcome.Failed? ==>
        && !CanSubmit(r.next)
        && r.next.button.caption == ProcessingLabel
        && Submit(r.next, b) == Step(Blocked, [], r.next)
  {
  }

  /** The submit handler with the catch block restoring the button's caption
      and re-enabling it, as the success path does. Only the state after a
      throw differs from `Submit`. */
  function SubmitRecovering(s: FormState, attempt: Attempt): (r: Step)
    ensures r.outcome == Submit(s, attempt).outcome
    ensures r.checked == Submit(s, attempt).checked
    ensures !r.outcome.Failed? ==> r.next == Submit(s, attempt).next
    ensures r.outcome.Failed? ==> r.next == s && CanSubmit(r.next)
  {
    var r := Submit(s, attempt);
    if r.outcome.Failed? then r.(next := s) else r
  }

  /** With the button restored, a failed attempt can be retried at once and
      dispatches the same booking, whatever the retry's call does. */
  lemma RetryAfterFailure(s: FormState, b: Attempt)
    ensures var r := SubmitRecovering(s, Threw);
      r.outcome.Failed? ==>
        var o := SubmitRecovering(r.next, b).outcome;
        (o.Confirmed? || o.Failed?) && o.booking == r.outcome.booking
  {
  }

  /** A worked booking: with a service chosen and the fields filled in as
      below, submitting dispatches exactly these values and, once the call
      resolves, clears the selection. */
  lemma JaneDoeBooking(s: FormState)
    requires CanSubmit(s)
    requires s.selected == "Haircut"
    requires s.fields == Fields("Jane Doe", "jane@example.com", "555-123-4567",
                                "2030-01-15", "14:30", "")
    ensures Submit(s, Resolved).outcome
         == Confirmed(Payload("Jane Doe", "jane@example.com", "555-123-4567",
                              "Haircut", "2030-01-15", "14:30", ""))
    ensures Submit(s, Resolved).next.selected == ""
  {
    JaneDoeFields(s.fields);
  }

  /** The same booking when its call throws: as written the form cannot be
      submitted again, while with the button restored the retry goes
      through. */
  lemma JaneDoeLockedOut(s: FormState)
    requires CanSubmit(s)
    requires s.selected == "Haircut"
    requires s.fields == Fields("Jane Doe", "jane@example.com", "555-123-4567",
                                "2030-01-15", "14:30", "")
    ensures Submit(s, Threw).outcome.Failed?
    ensures Submit(Submit(s, Threw).next, Resolved).outcome == Blocked
    ensures SubmitRecovering(SubmitRecovering(s, Threw).next, Resolved).outcome.Confirmed?
  {
    JaneDoeFields(s.fields);
  }

  lemma JaneDoeFields(f: Fields)
    requires f == Fields("Jane Doe", "jane@example.com", "555-123-4567",
                         "2030-01-15", "14:30", "")
    ensures FormValid(f)
  {
    JaneDoeName(f.fullName);
    JaneDoeEmail(f.email);
    JaneDoePhone(f.phone);
  }

  lemma JaneDoeName(n: string)
    requires n == "Jane Doe"
    ensures HasTwoNonSpace(n)
  {
    assert n[0] == 'J' && n[1] == 'a';
    assert 'J' !in SpaceChars && 'a' !in SpaceChars;
    assert !IsSpace(n[0]) && !IsSpace(n[1]);
  }

  lemma JaneDoeEmail(e: string)
    requires e == "jane@example.com"
    ensures EmailShape(e)
  {
    assert e[4] == '@' && e[12] == '.';
    PrintablePlain(e[..4]);
    PrintablePlain(e[5..12]);
    PrintablePlain(e[13..]);
    PatternIsValidEmail(e, 4, 12);
    EmailCharacterisation(e);
  }

  lemma JaneDoePhone(p: string)
    requires p == "555-123-4567"
    ensures PhonePattern(p)
  {
    assert ValidPhone(p);
    PhoneMatchesPattern(p);
  }
}
