# Form validation and BMI logic of a clinic website, in Dafny

This project models the client-side logic of a small clinic website (`script.js`):

- the e-mail and phone rules, which the source writes as regular expressions;
- the appointment and contact form validators;
- the BMI calculator's input guard, formula, category chain and result panel;
- the show-success-then-reset cycle that follows a successful form submission.

The modules follow the parts of the script:

- `text.dfy` (`Text`) holds what JavaScript itself supplies. This is the white-space class shared by `\s` and `String.prototype.trim` (the ECMAScript WhiteSpace and LineTerminator characters), plus `trim`, `indexOf` and counting.
- `pattern.dfy` (`Pattern`) gives the meaning of the anchored regular expressions the script uses. They are built from character classes, concatenation and `+`. A string matches when some split of it fits the pattern, which is what a backtracking matcher finds.
- `rules.dfy` (`Rules`) states the e-mail and phone rules as direct checks on the characters. It proves that each check accepts exactly the strings its pattern accepts.
- `validation.dfy` (`Validation`) holds `validateAppointmentForm` and `validateContactForm` as pure functions from the raw input values to `Accepted` or to the first refusal (`MissingField`, `InvalidEmail`, `InvalidPhone`, `PastDate`). Their contracts state each outcome exactly. The date check compares whole days. A function gives the day the date input denotes, and the current day is a parameter.
- `bmi.dfy` (`Bmi`) covers `calculateBMI` on already-parsed numbers. A number is NaN, plus or minus infinity, or a finite exact real. The module has the guard, the formula, the category chain, `toFixed(1)` on exact values, and a `BmiResult` class whose `Calculate` method writes the result panel.
- `panels.dfy` (`Panels`) models `submitAppointmentForm` / `submitContactForm` and their delayed reset callback. `FormPanel` is a class with one form and its success panel. Pure step functions on `PanelView` state what every sequence of events leads to.

Three behaviours of the code may surprise a reader, and the model keeps each as the code has it:

- The alert "Please enter valid weight and height values." suggests that only finite positive numbers pass. The guard rejects only NaN and values `<= 0`, so `Infinity` passes (`Bmi.InfinitePassesGuard`).
- The comment "Validate date is not in the past" (script.js:160) suggests a whole-day comparison. The code compares the UTC midnight of the chosen date with the local midnight of today. See Findings.
- The page shows the rounded BMI, but the category is decided on the unrounded value (`Bmi.DisplayedBoundaryMismatch`).

## Model

| member | source | states |
|---|---|---|
| Text.Trim | script.js:135-137 | the trimmed value is the input without its leading and trailing white space: it is a contiguous part of the input, everything cut off is white space, neither of its ends is white space, and it is empty exactly when the input is all white space |
| Text.TrimRemovesPadding | script.js:135-137 | trimming white space + s + white space, where s has no white space at either end, gives exactly s |
| Text.TrimUnpadded | script.js:135-137 | trim leaves a string with no white space at either end unchanged |
| Text.TrimIdempotent | script.js:135-137 | trimming twice gives the same result as trimming once |
| Rules.EmailRule | script.js:147-148 | the character rule the validators run in place of the e-mail regex; an accepted address has at least five characters and an `@` (it equals the regex by `Rules.EmailRuleMatchesPattern`) |
| Rules.PhoneRule | script.js:154-155 | the character rule the validators run in place of the phone regex; an accepted number holds no ASCII letter (it equals the regex by `Rules.PhoneRuleMatchesPattern`) |
| Pattern.ClassPlusIff | script.js:154 | a repeated character class `[…]+` matches exactly the non-empty strings all of whose characters are in the class |
| Rules.EmailRuleMatchesPattern | script.js:147-148 | the e-mail rule (no white space, exactly one `@`, non-empty part before it, a `.` strictly inside the part after it) accepts exactly the strings `/^[^\s@]+@[^\s@]+\.[^\s@]+$/` matches |
| Rules.EmailRuleAt | script.js:147-148 | local + "@" + domain passes exactly when the local part is non-empty, neither part holds white space or `@`, and the domain has an inner `.` |
| Rules.EmailWithoutDotRefused | script.js:147-148 | "foo@bar" (no dot after the `@`) is refused |
| Rules.EmailPlainAccepted | script.js:147-148 | "foo@bar.com" is accepted |
| Rules.EmailSeveralDots | script.js:147-148 | a domain with several dots ("a@b.c.d") is accepted, as backtracking allows |
| Rules.EmailTwoAts | script.js:147-148 | an address with a second `@` ("a@@b.c") is refused |
| Rules.EmailRejections | script.js:147-148 | an empty local part, inner white space and a trailing dot are each refused |
| Rules.PhoneRuleMatchesPattern | script.js:154-155 | the phone rule (non-empty; every character a digit, white space, `-`, `+`, `(` or `)`) accepts exactly the strings `/^[\d\s\-\+\(\)]+$/` matches |
| Rules.PhoneExamples | script.js:154-155 | "()" and "-" pass because no digit is required; "" and a string with letters are refused |
| Validation.ValidateAppointment | script.js:134-171 | accepted exactly when trimmed name, e-mail and phone are non-blank, date and time are non-empty, the trimmed e-mail matches the e-mail pattern, the trimmed phone matches the phone pattern, and the date is not before today; otherwise the refusal is the first failing check in that order, and each refusal kind is characterised by "all earlier checks pass and this one fails" |
| Validation.ValidateContact | script.js:196-215 | accepted exactly when trimmed name, e-mail and message are non-blank, the untrimmed subject is non-empty and the trimmed e-mail matches the pattern; a missing field is reported first; a phone or date refusal never occurs |
| Validation.DayNotPast | script.js:160-168 | the whole-day date check the validator applies: an Invalid Date passes, because comparing NaN is false; otherwise a day passes unless it is before today (stated by `Validation.DayNotPastIff`) |
| Validation.NotPastAsWritten | script.js:161-165 | the comparison as written, in minutes with the zone's UTC offset: for any offset within a day of UTC an earlier day is refused and a later day passes, so only today's date depends on the zone |
| Validation.DayNotPastIff | script.js:160-168 | on whole days a date is refused exactly when it is strictly before today; today and later days pass |
| Validation.BlankPhoneRefused | script.js:137-144 | a blank phone is refused as a missing field whatever the other fields hold |
| Validation.FirstFailureDecides | script.js:141-170 | once the e-mail check fails, replacing the phone with another non-blank value, the date with another non-empty value, or the day conversion and today does not change the verdict; once the phone check fails, replacing the date with another non-empty value, or the day conversion and today, does not |
| Validation.AppointmentDateNotTrimmed | script.js:138-141 | date and time are tested only for emptiness: a one-space date and time pass the presence check |
| Validation.ContactSubjectNotTrimmed | script.js:199-205 | a one-space subject passes while a one-space message is missing |
| Validation.AsWrittenAgreesEastOfUtc | script.js:161-165 | at or east of UTC, the comparison as written (UTC midnight of the chosen day against local midnight today) equals the whole-day check |
| Validation.AsWrittenRefusesTodayWestOfUtc | script.js:161-165 | west of UTC the comparison as written accepts only days strictly after today |
| Validation.TodayRefusedFiveHoursWestOfUtc | script.js:161-165 | at UTC−5, choosing today's date is refused as written and accepted by the whole-day check |
| Bmi.InputsRejected | script.js:85-88 | the guard lets a pair through exactly when both numbers are positive, positive infinity included |
| Bmi.BmiValue | script.js:91-94 | for admitted inputs: finite inputs give a positive finite value; infinite weight over a finite height is infinite; finite weight over infinite height is 0; both infinite give NaN |
| Bmi.BmiIsWeightPerSquareMetre | script.js:91-94 | for finite inputs the BMI times the height in metres squared is the weight |
| Bmi.CategoryOf | script.js:102-118 | the if/else chain on the unrounded value: a finite BMI gets the band it lies in, and NaN falls through to Obese |
| Bmi.CategoryIsBand | script.js:102-118 | a finite BMI gets category c exactly when it lies in c's band: below 18.5, [18.5, 25), [25, 30), from 30 |
| Bmi.CategoryMonotonic | script.js:102-118 | a larger BMI never gets a lower category |
| Bmi.CategoryOfNonFinite | script.js:102-118 | NaN fails every comparison and falls through to Obese; positive infinity is Obese; negative infinity is Underweight |
| Bmi.CategoryBoundaries | script.js:102-118 | 18.5 and 24.99 are Normal, 25 and 29.99 Overweight, 30 Obese, 18.49 Underweight |
| Bmi.Classify | script.js:102-118 | the if/else chain picks the category the table gives, the band containing a finite BMI |
| Bmi.RoundToTenth | script.js:95 | `toFixed(1)` of an exact non-negative value (a BMI is never negative) is a whole number of tenths within half a tenth of it, the upper one at a tie |
| Bmi.ToFixed1 | script.js:95 | a finite BMI is shown as a whole number of tenths within half a tenth of it; NaN and the infinities are shown as they are |
| Bmi.DisplayedBoundaryMismatch | script.js:95-122 | every BMI in [18.45, 18.5) is shown as 18.5 yet labelled Underweight, while 18.5 itself is Normal |
| Bmi.WorkedExamples | script.js:91-118 | 70 kg / 175 cm shows 22.9 Normal; 45 kg / 170 cm shows 15.6 Underweight; 110 kg / 170 cm shows 38.1 Obese |
| Bmi.InfinitePassesGuard | script.js:85-118 | an infinite weight passes the guard and shows Obese; an infinite height passes and shows 0.0 Underweight |
| Bmi.BmiResult.Calculate | script.js:80-131 | raises the alert exactly when the guard rejects, writing nothing then; otherwise shows the panel with the rounded BMI, the category line, the advice and the class of the category the chain picks |
| Bmi.BmiResult.ResetClicked | script.js:42-45 | the reset button hides the result panel and leaves its texts |
| Bmi.CalculateTwice | script.js:80-131 | calculating twice with the same inputs shows what calculating once shows: all five panel fields, or an unchanged panel after the alert |
| Panels.AfterSubmit | script.js:181-188 | a submission from a consistent page with the form shown leads to a consistent page |
| Panels.AfterReset | script.js:188-192 | the callback shows the form with its default values and hides the success panel, whatever state it finds, and keeps the page consistent |
| Panels.Step | script.js:52-57 | one event (typing, an accepted or refused submission, a callback) keeps the page consistent; typing and submission reach only a shown form |
| Panels.RunKeepsConsistent | script.js:181-191 | after any sequence of typing, submissions and callbacks, exactly one of form and success panel is shown, a reset is scheduled exactly while the success panel is shown, and never more than one |
| Panels.CallbackNeverStale | script.js:181-191 | from the page as loaded, a scheduled callback always finds the success panel shown and the form hidden, and at most one is scheduled |
| Panels.TypingAfterResetSurvives | script.js:181-191 | a second submission while the success panel is shown is ignored, so what the user types after the callback survives a further callback event |
| Panels.SubmitShowsSuccess | script.js:181-182 | submission hides the form, shows the success panel and leaves a reset scheduled |
| Panels.ResetForgetsState | script.js:188-192 | the display the callback leaves (form shown with defaults, success hidden) does not depend on the state it finds, and a second callback would show what the first showed |
| Panels.QuietKeepsSettled | script.js:188-192 | once reset, further callbacks and refused submissions keep the display reset |
| Panels.QuietRunSettles | script.js:188-192 | with a reset scheduled, any run of callbacks and refused submissions that includes a callback ends reset |
| Panels.SettlesAfterSubmit | script.js:181-192 | from a consistent page, after a successful submission, once a callback has run and nothing else was submitted or typed, the form is back as loaded |
| Panels.FormPanel.Submit | script.js:181-182 | the new state is the old one with form hidden, success shown and one more reset scheduled (the same for the contact form, lines 225-226) |
| Panels.FormPanel.TimerFires | script.js:188-192 | the new state has the inputs at their defaults, form shown, success hidden and one fewer reset scheduled (the same for the contact form, lines 232-236) |
| Panels.FormPanel.HandleSubmit | script.js:52-57 | a submit event changes the page only when the form is shown and validation passed, and then exactly as a submission does (the same for the contact form, lines 63-68) |
| Panels.FormPanel.AppointmentSubmitted | script.js:52-57 | the appointment form is submitted exactly when `validateAppointmentForm` accepts its current name, e-mail, phone, date and time; otherwise the page is unchanged |
| Panels.FormPanel.ContactSubmitted | script.js:63-68 | the contact form is submitted exactly when `validateContactForm` accepts its current name, e-mail, subject and message; otherwise the page is unchanged |
| Panels.SubmitCycle | script.js:174-193 | a fresh form that is filled in, submitted and then reset by its callback is back as loaded, with nothing scheduled |

## Findings

| source | as written | input that shows it | evidently intended | confidence | as-written member | corrected member |
|---|---|---|---|---|---|---|
| script.js:161-165 | `new Date(date)` on a `YYYY-MM-DD` value is midnight UTC of that day, but `today` is midnight of the local day; the two are compared as instants | a user at UTC−5 selects today's date: 00:00 UTC today is 19:00 yesterday local, which is before local midnight, so "Please select a future date." is shown | the date is refused only when its calendar day is before today, as the comment at script.js:160 says | not executed; high for zones west of UTC | Validation.AsWrittenRefusesTodayWestOfUtc | Validation.DayNotPastIff |

`Validation.NotPastAsWritten` models the comparison as written, in minutes with the zone's UTC offset. `Validation.TodayRefusedFiveHoursWestOfUtc` is the concrete case. The validators use the whole-day check `Validation.DayNotPast`.

## Left out

- `parseFloat` and the decimal text that `toFixed(1)` produces are not modelled. Weights, heights and the BMI are exact reals, so IEEE-754 rounding, overflow and underflow do not appear. `Bmi.RoundToTenth` rounds the exact value, where JavaScript rounds the nearest double.
- `new Date(date)` and time zones are not modelled in the validators. The day conversion is the parameter `dayOf`, where `None` stands for an Invalid Date. The current day is the parameter `today`. Time zones appear only in the finding above, with a fixed offset and no daylight-saving changes.
- Setting the date input's `min` attribute (script.js:71-76) is left out. The browser then limits the date picker, and its constraint validation also blocks a submission with an earlier date before the submit listener runs. That filter is not modelled: the validators are given every date. The `min` value is today's UTC date (`toISOString`), so west of UTC in the evening the browser already refuses the local date of today.
- `Bmi.RoundToTenth` and `Bmi.ToFixed1` are defined only for non-negative values, the only ones a BMI takes. For a negative value, `toFixed` rounds the magnitude, so a tie goes away from zero (`(-0.25).toFixed(1)` is "-0.3"). That case does not arise at script.js:95 and is not modelled.
- Dafny strings are sequences of Unicode scalar values, while JavaScript strings are sequences of UTF-16 code units. The two agree on well-formed text for `trim` and both patterns, but a lone surrogate, which JavaScript allows in an input value, cannot be represented in the model.
- `alert` and `scrollIntoView` are left out. An alert becomes a `Refused` verdict or the `alerted` result.
- The 5000 ms delay of `setTimeout` is left out. Only the effect of the callback is modelled, and `pendingResets` counts the callbacks that are scheduled and have not run.
- The listener wiring on `DOMContentLoaded` is left out, except the bodies of the submit listeners, "submit only if valid" (`Panels.FormPanel.HandleSubmit`, `AppointmentSubmitted`, `ContactSubmitted`), and the body of the BMI reset button's listener (`Bmi.BmiResult.ResetClicked`).
- The navigation toggle (script.js:7-9) is left out: it is a single class toggle with no logic of its own.
- The reveal-on-scroll observer (script.js:18-30) is left out: the browser decides when an element intersects the viewport, and the script only adds a class.
- The smooth scrolling of in-page links (script.js:240-251) is left out: it is browser scrolling.
- The initial visibility of the result panel, the forms and the success panels comes from the page's HTML and CSS, which are not part of this model. The constructors assume form shown, success panel hidden and result panel hidden.
- The BMI reset button also clears the weight and height inputs. Those inputs are parameters of `Calculate` here, so only the hiding of the panel is modelled.
- `Panels.FormPanel.Type` stands for the user editing the inputs. It is not code in the script.
