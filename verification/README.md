# Booking form controller — a Dafny model

This project models the client-side controller of a small appointment
booking page (`js/app.js`). The controller does three things worth stating
precisely:

- **Field validation.** The rule table checks the customer's name, email,
  phone, date and time. `validateField` applies the rule registered for a
  field id. An id with no rule counts as valid.
- **The time summary.** The `HH:MM` value of the time input is shown as
  `h:MM AM` or `h:MM PM`.
- **Service selection and submit.** A click on a service card makes that
  service the one selection. The submit handler validates the fields in a
  fixed order, refuses when no service is chosen or a field fails, builds
  the booking payload from the current values, awaits a simulated request,
  and on success resets the form.

The page's state is an explicit immutable `FormState` record. It holds the
input values, the hidden selected-service input, the texts of the selection
panel and summary, and the submit button. Selecting and submitting are pure
functions from one state to the next. The awaited request is a parameter
(`Attempt`) that either resolves or throws. `Submit` is the user's request
to submit, taken to have passed the browser's own form validation (see
"## Left out"). While the submit button is disabled it does nothing,
because a disabled submit button takes neither clicks nor implicit
submission.

Modules, one per concern:

- `wrappers.dfy`: `Wrappers.Option`, used for lookups that may find nothing.
- `text.dfy`: `Text`, the JavaScript string primitives the controller
  relies on. These are the `\s` whitespace class (the same set `trim`
  strips), `trim`, and decimal rendering and `parseInt` of natural
  numbers. It also holds character counting and search, which are helpers
  for the proofs about the email rule; the controller calls neither.
- `validation.dfy`: `Validation`, the rule table and `validateField`. Each
  regular expression has two forms: the validator, and a reference
  definition that follows the pattern's structure. Lemmas prove the two
  agree and match a plain-language description.
- `time_display.dfy`: `TimeDisplay`, the 12-hour summary text.
- `booking.dfy`: `Booking`, the form state, `selectService` and the submit
  handler.

Behaviour worth noting, because the code does not do what a reader might
expect:

- Submit validation short-circuits. `every` stops at the first failing
  field, so only the fields up to the first failing one are re-validated.
  Messages set earlier, on blur, stay visible for the fields after it.
- The date rule only checks that the value is non-empty. Past dates are
  kept out only by the input's `min` attribute, which is not part of the
  rule.
- The client never calls the confirmation server. The "request" is a
  one-second timer.
- If the awaited call throws, the submit button stays disabled and keeps
  the caption `Processing...`. It is not re-enabled, so the form cannot be
  submitted again (see "## Findings").
- A successful submit does not reset the summary date and time texts.
  `form.reset()` fires no change event, so they keep showing the submitted
  values.

## Model

| member | source | states |
|---|---|---|
| `Text.TrimEnds` | js/app.js:89 | `trim` gives a result no longer than its input. The result is empty exactly when the input is all whitespace. Otherwise it starts and ends with a non-whitespace character. |
| `Text.TrimBounds` | js/app.js:89 | If anything survives trimming, it is exactly the stretch of the input from its first to its last non-whitespace character. |
| `Text.TrimIdempotent` | js/app.js:89 | Trimming an already trimmed string changes nothing. |
| `Text.NatToDecimal` | js/app.js:56 | `${n}` renders a whole number in 0..2^53 as a non-empty string of decimal digits with no leading zero; 0 renders as `0`. |
| `Text.DecimalInjective` | js/app.js:56 | Distinct numbers render as distinct numerals, so distinct prices show distinct texts. |
| `Text.DecimalRoundTrip` | js/app.js:151-154 | `parseInt` of a rendered number gives the number back. |
| `Validation.NameCharacterisation` | js/app.js:88-91 | The name rule (trimmed length at least 2) passes exactly when the text has two non-whitespace characters at different positions. |
| `Validation.EmailMatchesPattern` | js/app.js:92-95 | The email validator accepts exactly the strings made of a non-empty run of `[^\s@]`, then `@`, then a non-empty run, then `.`, then a non-empty run, covering the whole string. |
| `Validation.EmailCharacterisation` | js/app.js:92-95 | The email validator accepts a string exactly when all of these hold: it has no whitespace; it has exactly one `@`; the part before the `@` is non-empty; and the part after it has a `.` with a character on each side. |
| `Validation.PhoneRepeatCharacterisation` | js/app.js:97 | The anchored repetition `[class]{n,}` matches a string exactly when it has at least `n` characters, all from the class. |
| `Validation.PhoneMatchesPattern` | js/app.js:96-99 | The phone validator accepts exactly what `^[\d\-\s\+\(\)]{10,}$` matches: ten or more characters, each a digit, `-`, whitespace, `+`, `(` or `)`. |
| `Validation.RuleFor` | js/app.js:87-108 | Exactly the five ids `fullName`, `email`, `phone`, `date` and `time` have a rule. |
| `Validation.ValidateField` | js/app.js:100-130 | An id with no rule is valid whatever its value. For each of the five ids, the result is characterised per field: the name has two non-whitespace characters; the email matches the pattern and its plain-language description; the phone matches its pattern; the date and time are non-empty. Past dates are not rejected. |
| `TimeDisplay.To12` | js/app.js:151-153 | For every hour: the displayed hour is in 1..12 and agrees with the hour modulo 12; the suffix is PM exactly when the hour is 12 or more; 0 shows as 12 AM and 12 as 12 PM; the minutes pass through unchanged. For hours up to 23, the display converts back to the same 24-hour hour. |
| `TimeDisplay.To12OfTo24` | js/app.js:151-153 | Every 12-hour reading with hour 1..12 is the display of the 24-hour hour it denotes. |
| `TimeDisplay.RenderRoundTrip` | js/app.js:154 | The text `h:MM AM/PM` can be parsed back into the hour, minutes and suffix it was built from, whenever the minutes contain no `:`. |
| `TimeDisplay.SummaryTime` | js/app.js:150-154 | For an `HH:MM` value, the summary text reads back as follows: an hour in 1..12; PM exactly when the parsed hour is 12 or more; the entered minutes; the entered hour modulo 12; and, for hours up to 23, the entered hour again. The hour has no leading zero (`07:30` shows as `7:30 AM`). Together these fix the text for every hour. |
| `Booking.PriceText` | js/app.js:56 | The price display is a `$` followed by a non-empty run of decimal digits with no leading zero, and `parseInt` of those digits is the price. Price 0 shows as `$0`. These facts leave only one possible text. |
| `Booking.SelectService` | js/app.js:40-60 | A click outside every card changes nothing. A click on a card replaces the selection with that card's service. The panel and summary then show its name and price. Fields, defaults, button, summary date and summary time are untouched. |
| `Booking.SelectLastWins` | js/app.js:50-60 | Selecting A then B gives the same state as selecting only B, so only one service is ever active. |
| `Booking.Id` | js/app.js:170 | Every input except the notes has an entry in the rule table. |
| `Booking.Every` | js/app.js:171 | `every` runs its test on a prefix of the list. All checked elements except the last one passed. When the result is false, the last checked element failed. The result is true exactly when every element passes, and then every element was checked. |
| `Booking.PassesByField` | js/app.js:110-117 | On the form, `validateField` applies the name, email, phone, date and time rules to the matching inputs. The notes input always passes. |
| `Booking.FormValidInOrder` | js/app.js:170-171 | Validating fullName, email, phone, date and time in order succeeds exactly when the name, email, phone, date and time rules all hold. |
| `Booking.CheckForm` | js/app.js:170-171 | The submit handler validates a non-empty prefix of fullName, email, phone, date, time. Every field before the last one checked passed. The form is valid exactly when all five rules hold, and then all five were checked. Otherwise the last field checked is the one that failed. |
| `Booking.PayloadOf` | js/app.js:186-194 | The payload holds the current name, email, phone, date, time and notes, plus the selected service. |
| `Booking.AfterBooking` | js/app.js:212-222 | After a successful booking, the inputs hold their defaults and no service is selected. The displays read "No service selected", "Not selected" and "$0". The button is enabled with its old caption. The summary date and time are unchanged. |
| `Booking.Submit` | js/app.js:166-228 | While the button is disabled, nothing happens and nothing is validated. Otherwise validation runs first, exactly as `CheckForm` describes. With no service selected, the outcome is "no service" whatever the fields hold, and the state is unchanged. With a service but a failing field, the outcome is "invalid" and the state is unchanged. Otherwise the payload is exactly the current values. A resolved call then leads to the reset state `AfterBooking` describes. A throwing call changes only the button, which is left disabled with the caption "Processing...". |
| `Booking.DispatchIffValid` | js/app.js:173-194 | Once the browser fires submit, a booking is dispatched exactly when the button is enabled, a service is selected and every field satisfies its rule. |
| `Booking.DispatchedPayloadValid` | js/app.js:180-194 | Every dispatched payload names a service and passes the name, email, phone, date and time validators. |
| `Booking.ResubmitAfterSuccess` | js/app.js:213-218 | After a successful booking, submitting again at once yields "no service", because the selection was cleared. |
| `Booking.FailureKeepsInput` | js/app.js:196-227 | After the awaited call throws, the fields, defaults, selection and displays are unchanged: the same booking can be read off the form again, so no input was lost. |
| `Booking.ThrowLocksForm` | js/app.js:196-227 | As written, after a throw the button stays disabled with the caption "Processing...", and every later submit is blocked. |
| `Booking.SubmitRecovering` | js/app.js:196-227 | The corrected handler. It has the same outcome and checked fields as `Submit`, and the same next state except after a throw. After a throw it returns the form as it was before the submit, with the button enabled. |
| `Booking.RetryAfterFailure` | js/app.js:196-227 | With the corrected handler, after a throw the user can submit again at once. That retry dispatches the same booking, whatever its own call does. |
| `Booking.JaneDoeLockedOut` | js/app.js:196-227 | For the Jane Doe booking with a throwing call, a second submit is blocked as written, but goes through with the corrected handler. |
| `Booking.JaneDoeBooking` | js/app.js:166-218 | Take the service "Haircut", the name "Jane Doe", the email "jane@example.com", the phone "555-123-4567", a date and a time. Submitting dispatches exactly these values, and a resolved call clears the selection. |

## Left out

- server/server.js: the mail-sending endpoint is network and email I/O, and the client never calls it.
- DOM presentation: border colours, error-message elements and their texts, `alert`, `scrollIntoView`, the success modal and its open/close handlers, the pulse animation, focus trapping, lazy image loading, scroll throttling and the load animation (js/app.js:62-70, 118-127, 234-358). None of it feeds back into the state, with one exception. The Enter/Space handler on a service card (js/app.js:272-277) calls `selectService` with that card, which is the same transition `SelectService(s, Some(card))` as a click.
- The minimum date (`new Date().toISOString()`) and the date summary (`toLocaleDateString`) depend on the clock and the locale. The date summary text is carried in the state but never computed.
- Timers and async: the one-second simulated request is the `Attempt` parameter. That promise never rejects (js/app.js:204). So `Threw` stands for any exception thrown after the button is disabled (js/app.js:201) and before the reset (js/app.js:213), for instance one from `console.log` or `showSuccessModal`. Each of these leaves the same state. The model assumes that the page's submit control is a `button[type="submit"]`. Without one, line 199 throws before the button is touched, and that case is not modelled. A second submit while the first is still pending is not modelled, because each submit is one atomic transition.
- `TimeDisplay.SummaryTime`: requires a well-formed `HH:MM` value. For an empty or malformed value, `parseInt` gives `NaN`, and the page shows hour 12 with AM, because `NaN % 12 || 12` is 12 and `NaN >= 12` is false. A value with no `:` also prints its minutes as `undefined`. So the empty time input shows `12:undefined AM`, including at page load (js/app.js:160). None of this is modelled.
- `Booking.SelectService`: prices are whole numbers in 0..2^53. `parseInt` of `data-price` (js/app.js:51) can also give other values, and none of them is modelled:
  - a value it cannot read, shown as `$NaN`;
  - a negative value, such as `-5` shown as `$-5`;
  - a fractional value truncated to its whole part, such as `49.99` read as 49;
  - a value past 2^53, where precision is lost, or from 10^21 up, which `${n}` prints in exponent form.
- `Validation.RuleFor`: ids other than the five have no rule. In the source, a lookup of an inherited object property such as `toString` would find a non-rule and throw. `validateField` is only ever called with the five ids.
- `Validation.NameCharacterisation`: strings are sequences of Unicode scalar values, whereas JavaScript's `length` counts UTF-16 code units. So a name made of one character outside the Basic Multilingual Plane has length 2 and passes in the source, but counts as one character here. The email and phone rules are unaffected, because surrogate halves are never whitespace, `@` or a phone character.
- `console.log` of the booking and `console.error` of the exception (js/app.js:207, 225) are dropped effects, and so is the error `alert`.
- `Booking.Submit`: the browser's own form validation, which runs before the `submit` event fires, is not modelled. This covers the date input's `min` of today (js/app.js:30) and any `required` or `type` attributes in the page markup. So the model's `Submit` confirms a booking with a past date that the browser would refuse to submit.
- `Booking.Submit`: `form.reset()` restores the inputs' default values, which come from the page markup. That markup is not part of this model, so the defaults are part of the state.

## Findings

| source | as written | input that shows it | evidently intended | confidence | as-written member | corrected member |
|---|---|---|---|---|---|---|
| js/app.js:224-227 | The catch block logs the error and alerts "An error occurred. Please try again.". It does not restore the button, which stays disabled with the caption "Processing...". | The Jane Doe booking with a service selected, whose awaited call throws. A second submit is then blocked. | Restore the caption and re-enable the button, as the success path does at js/app.js:220-221, so the user can try again as the alert says. | medium, not executed (the simulated promise never rejects, so only an exception after the await reaches the catch) | `Booking.ThrowLocksForm`, `Booking.JaneDoeLockedOut` | `Booking.SubmitRecovering`, `Booking.RetryAfterFailure` |

`Submit` models the code as written. `SubmitRecovering` agrees with it on every outcome and every checked field. So `DispatchIffValid`, `DispatchedPayloadValid`, `ResubmitAfterSuccess` and `JaneDoeBooking` hold for the corrected handler as well.
