# GravityLabs contact form, modelled in Dafny

This project models the client-side logic behind the contact form of the
GravityLabs landing page. It has three parts.

- **Field validators and the whole-form check** (`form_validation.dfy`,
  module `FormValidation`). `validateRequired`, `validateEmail`,
  `validatePhone`, `validateMinLength` and `validateMaxLength` are pure
  functions from a string to `Option<string>`: `None` where the source returns
  `null`, `Some(message)` otherwise. The two regular expressions are written as
  predicates over characters. The email pattern is a scan: it finds the first
  `@`, requires a non-empty part before it, rejects any white space or second
  `@`, and requires at least one `.` strictly inside the part after the `@`
  with something on each side of it. The scan is proved equal to a split
  `L "@" A "." B`. `validateContactForm` is the concatenation of the per-field
  segments that the source pushes in order. It is proved equal to an
  independent reference list, `ErrorsFrom`, built from a per-field verdict
  `FieldError`. From this it follows that the errors come in the fixed field
  order, that a field has at most one error, and that a field has an entry
  exactly when it fails.
- **JavaScript string semantics** (`js_string.dfy`, module `JsString`). One
  white-space set serves both `\s` and `trim()`. `trim` itself is modelled.
  `length` counts UTF-16 code units: a character outside the Basic
  Multilingual Plane counts 2, as in JavaScript. A Dafny `char` is a Unicode scalar
  value, so an unpaired surrogate cannot occur in the model. The decimal rendering of a
  bound inside a template literal is modelled too.
- **The contact form controller** (`contact_form.dfy`, class
  `ContactFormComponent.ContactForm`). Its fields are the seven form values,
  the honeypot, an error map keyed by a `Field` enumeration, `isSubmitting` and
  `showToast`. Each handler is a method. The `setTimeout` callback is a
  separate step, `CompleteSubmission`, with no clock. A counter of pending
  completions stands for the scheduled timers. The ghost counter
  `successCalls` records the calls to `onSuccess`. The class invariant is
  stronger than "keys are field names". Every error on display is the current
  verdict on that field's current value. This is why a valid submit never
  leaves stale errors behind.
- **The custom select** (`custom_select.dfy`, class `CustomSelect.Select`).
  Its state is `isOpen` and `highlightedIndex` over a fixed option list. The
  open-reset effect is applied together with the transition that opens the
  list. A commit is returned as `Some(value)`, the value `onChange` would
  receive. Clamped arrow movement is proved to equal `min`/`max` arithmetic
  for any number of presses.
- **Test cases as lemmas** (`validation_examples.dfy`). The concrete cases of
  the validators' unit tests are restated as lemmas about the model. This
  includes the all-empty form and the filled sample form. The module `ContactFormJourney`
  (`contact_form_journey.dfy`) runs the component's submit journey on that
  sample form.

Behaviour of the code worth noting:

- The email pattern forbids white space anywhere in the address, not only
  around `@`.
- A phone value made only of white space is rejected by the blank check,
  although the pattern alone would accept it.
- The honeypot path also clears the error map.
- No submission-failure path exists in the code, and none is modelled.

## Model

| member | source | states |
|---|---|---|
| `JsString.TrimStart` | src/utils/formValidation.ts:31 | the result is the suffix left after a prefix of white space, and it does not start with white space |
| `JsString.TrimEnd` | src/utils/formValidation.ts:31 | the result is the prefix left before a suffix of white space, and it does not end with white space |
| `JsString.IsSpace` | src/utils/formValidation.ts:47 | the `\s` class and the set `trim()` strips: no digit, `@`, `.`, `-`, `(`, `)` or `+` is white space |
| `JsString.Trim` | src/utils/formValidation.ts:31 | `trim()` never lengthens a string; `value.trim() === ''` holds exactly when every character is white space; a non-empty result starts and ends with a non-space character |
| `JsString.Utf16Length` | src/utils/formValidation.ts:79 | `length` is between the character count and twice the character count |
| `JsString.Utf16LengthOfBmp` | src/utils/formValidation.ts:90 | on text without astral characters, `length` is the character count |
| `JsString.NatToString` | src/utils/formValidation.ts:80 | a bound is rendered as decimal digits with no leading zero |
| `JsString.NatToStringRoundTrip` | src/utils/formValidation.ts:91 | the numeral in a length message reads back as the bound |
| `FormValidation.ValidateRequired` | src/utils/formValidation.ts:30-35 | a rejection always carries "Este campo es obligatorio" |
| `FormValidation.ValidateRequiredIff` | src/utils/formValidation.ts:30-35 | the value is rejected exactly when it is empty or made only of white space |
| `FormValidation.FirstIndexOf` | src/utils/formValidation.ts:47 | returns the position of the first `@`, or None when there is none |
| `FormValidation.EmailPatternTest` | src/utils/formValidation.ts:47-48 | an accepted address has at least five characters, no white space, and neither starts nor ends with `@` |
| `FormValidation.EmailPatternTestSound` | src/utils/formValidation.ts:47 | every string the scan accepts has the shape L@A.B, with L, A and B non-empty runs without white space or `@` |
| `FormValidation.EmailPatternTestComplete` | src/utils/formValidation.ts:47 | every split L@A.B of that kind is accepted by the scan |
| `FormValidation.EmailPatternTestIff` | src/utils/formValidation.ts:47-48 | the scan accepts exactly the strings of the shape L@A.B (the pattern `^[^\s@]+@[^\s@]+\.[^\s@]+$`) |
| `FormValidation.ValidateEmail` | src/utils/formValidation.ts:41-53 | every rejection carries the one email message |
| `FormValidation.ValidateEmailIff` | src/utils/formValidation.ts:41-53 | `null` is returned exactly for the strings of the shape L@A.B |
| `FormValidation.BlankIsNoEmail` | src/utils/formValidation.ts:42-44 | a blank value never has the address shape, so the blank check rejects nothing the pattern accepts |
| `FormValidation.ValidatePhone` | src/utils/formValidation.ts:60-72 | every rejection carries the one phone message |
| `FormValidation.PhonePatternTest` | src/utils/formValidation.ts:66-67 | a non-empty value of white space matches the pattern; a matching value contains no letter and no `@` |
| `FormValidation.ValidatePhoneIff` | src/utils/formValidation.ts:60-72 | `null` is returned exactly when every character is a digit, white space, `-`, `(`, `)` or `+`, and at least one character is not white space |
| `FormValidation.BlankPhoneRejected` | src/utils/formValidation.ts:61-67 | a value made only of white space matches the phone pattern but is still rejected |
| `FormValidation.ValidateMinLength` | src/utils/formValidation.ts:78-83 | `null` exactly when `length >= min`, otherwise the message with the field name and the bound |
| `FormValidation.ValidateMaxLength` | src/utils/formValidation.ts:89-94 | `null` exactly when `length <= max`, otherwise the message with the field name and the bound |
| `FormValidation.MinLengthMessage` | src/utils/formValidation.ts:80 | for a non-negative bound, the message is "El campo ", the field name, " debe tener al menos ", the bound in decimal, " caracteres" |
| `FormValidation.MaxLengthMessage` | src/utils/formValidation.ts:91 | for a non-negative bound, the message is "El campo ", the field name, " no puede exceder ", the bound in decimal, " caracteres" |
| `FormValidation.NumeralDeterminesBound` | src/utils/formValidation.ts:80 | two length messages with the same text around the numeral carry the same bound |
| `FormValidation.LengthMessagesDetermineBound` | src/utils/formValidation.ts:80-91 | for a given field name, two min-length (or two max-length) messages are equal exactly when their bounds are equal |
| `FormValidation.Rank` | src/utils/formValidation.ts:103-170 | each field has a position in the fixed check order |
| `FormValidation.FieldKeyInjective` | src/utils/formValidation.ts:16-24 | distinct fields have distinct property names, so a map keyed by field equals the source's record keyed by name |
| `FormValidation.With` | src/components/ContactForm/ContactForm.tsx:82 | `{ ...prev, [name]: value }` changes that field and no other |
| `FormValidation.BoundedErrorIsOk` | src/utils/formValidation.ts:104-116 | a bounded field passes exactly when it is not blank and its length is within the bounds |
| `FormValidation.ErrorsOf` | src/utils/formValidation.ts:119-155 | a validator's result adds at most one entry, none exactly when it returns `null`, and that entry carries the field and the returned message |
| `FormValidation.BoundedErrors` | src/utils/formValidation.ts:104-116 | the required, min and max checks push only non-empty messages for their field, push nothing exactly when the field is non-blank and within the bounds, and push at most one entry when min < max |
| `FormValidation.BoundedErrorsSegment` | src/utils/formValidation.ts:104-116 | with min < max, the required check, then the min and max checks, yield at most one error, the field's verdict |
| `FormValidation.BoundedSegmentsAgree` | src/utils/formValidation.ts:131-143 | the nombre (2..100), empresa (2..150) and mensaje (20..1000) segments equal their fields' verdicts |
| `FormValidation.SingleSegmentsAgree` | src/utils/formValidation.ts:118-155 | the telefono, correo, servicio and presupuesto segments equal their fields' verdicts |
| `FormValidation.PhoneValidatorAgrees` | src/utils/formValidation.ts:119-122 | the phone validator's result is the telefono verdict |
| `FormValidation.EmailValidatorAgrees` | src/utils/formValidation.ts:125-128 | the email validator's result is the correo verdict |
| `FormValidation.RequiredValidatorAgrees` | src/utils/formValidation.ts:146-155 | the required check's result is the servicio and presupuesto verdict |
| `FormValidation.FieldErrorNonEmpty` | src/components/ContactForm/ContactForm.tsx:85 | every error message is non-empty, so `if (errors[name])` is exactly "the field has an error" |
| `FormValidation.ValidateContactForm` | src/utils/formValidation.ts:100-176 | `isValid` holds exactly when no error was pushed; at most seven errors are pushed, each with a non-empty message |
| `FormValidation.ValidateContactFormIsErrorsFrom` | src/utils/formValidation.ts:100-176 | the pushed error list equals the reference list built field by field in the fixed order |
| `FormValidation.ErrorsFromOrdered` | src/utils/formValidation.ts:103-170 | visiting fields in increasing order yields errors in increasing field order |
| `FormValidation.ErrorsFromSound` | src/utils/formValidation.ts:103-170 | each entry carries its field's verdict message |
| `FormValidation.ErrorsFromComplete` | src/utils/formValidation.ts:103-170 | each visited failing field has an entry |
| `FormValidation.ValidateContactFormValidity` | src/utils/formValidation.ts:172-175 | `isValid` holds exactly when the error list is empty, and exactly when every field passes |
| `FormValidation.ValidateContactFormErrors` | src/utils/formValidation.ts:103-170 | errors come in the order nombre, telefono, correo, empresa, servicio, presupuesto, mensaje; a field has an entry exactly when it fails, and the entry carries its message |
| `FormValidation.OrderedErrorsDistinct` | src/utils/formValidation.ts:103-170 | no field appears twice in the error list |
| `ValidationExamples.RequiredRejectsEmpty` | src/utils/formValidation.test.ts:13-15 | "" is rejected with the required message |
| `ValidationExamples.RequiredAcceptsName` | src/utils/formValidation.test.ts:17-18 | "Carlos" is accepted |
| `ValidationExamples.EmailRejections` | src/utils/formValidation.test.ts:21-26 | "", "invalid", "invalid@" and "@domain.com" are rejected with the email message |
| `ValidationExamples.EmailAcceptsPlainAddress` | src/utils/formValidation.test.ts:29 | "test@example.com" is accepted |
| `ValidationExamples.EmailAcceptsDottedLocalPart` | src/utils/formValidation.test.ts:30 | "user.name@domain.co" is accepted |
| `ValidationExamples.EmailAcceptsPlusTag` | src/utils/formValidation.test.ts:31 | "user+tag@example.org" is accepted |
| `ValidationExamples.Accepts` | src/utils/formValidation.ts:47 | any L@A.B made of lower-case letters, dots and plus signs is accepted |
| `ValidationExamples.PhoneAccepts` | src/utils/formValidation.ts:66-67 | a non-empty value that starts with a digit, `(` or `+` and uses only digits, spaces, `-`, `(`, `)` and `+` is accepted |
| `ValidationExamples.PhoneAcceptsDigits` | src/utils/formValidation.test.ts:36 | "12345678" is accepted |
| `ValidationExamples.PhoneAcceptsGrouped` | src/utils/formValidation.test.ts:37 | "1234 5678" is accepted |
| `ValidationExamples.PhoneAcceptsAreaCode` | src/utils/formValidation.test.ts:38 | "(502) 1234-5678" is accepted |
| `ValidationExamples.PhoneAcceptsCountryCode` | src/utils/formValidation.test.ts:39 | "+502 1234-5678" is accepted |
| `ValidationExamples.PhoneAcceptsDashed` | src/utils/formValidation.test.ts:40 | "123-456-7890" is accepted |
| `ValidationExamples.PhoneRejects` | src/utils/formValidation.ts:66-69 | a value with any character outside the phone alphabet is rejected with the phone message |
| `ValidationExamples.PhoneRejections` | src/utils/formValidation.test.ts:42-45 | "", "abc123" and "phone: 123" are rejected with the phone message |
| `ValidationExamples.MinLengthExamples` | src/utils/formValidation.test.ts:49-54 | "A" is too short for 2; "AB" and "ABC" pass |
| `ValidationExamples.MaxLengthExamples` | src/utils/formValidation.test.ts:56-61 | 101 characters exceed 100; 100 and 50 characters pass |
| `ValidationExamples.MinLengthMessageExample` | src/utils/formValidation.test.ts:50-52 | the message reads "El campo Nombre debe tener al menos 2 caracteres" |
| `ValidationExamples.MaxLengthMessageExample` | src/utils/formValidation.test.ts:57-59 | the message reads "El campo Nombre no puede exceder 100 caracteres" |
| `ValidationExamples.EmptyFormErrors` | src/utils/formValidation.test.ts:64-83 | the all-empty form is invalid, with exactly one error per field in the fixed order |
| `ValidationExamples.SampleFormValid` | src/utils/formValidation.test.ts:85-98 | the filled sample form is valid, with no errors |
| `ContactFormComponent.CatalogueValuesPass` | src/components/ContactForm/ContactForm.tsx:18-31 | every option value of both dropdowns passes the required check |
| `ContactFormComponent.ErrorMapFrom` | src/components/ContactForm/ContactForm.tsx:133-136 | the `forEach` gives a map whose keys are exactly the listed fields, each holding the last message listed for it |
| `ContactFormComponent.ErrorMapAgrees` | src/components/ContactForm/ContactForm.tsx:133-137 | for an ordered list of verdicts, the map holds exactly the failing fields, each with its message |
| `ContactFormComponent.ErrorMapOfForm` | src/components/ContactForm/ContactForm.tsx:129-137 | the map built from the validation result holds exactly the failing fields with their messages, and is empty exactly when the form is valid |
| `ContactFormComponent.NoErrorsOnValidForm` | src/components/ContactForm/ContactForm.tsx:141-142 | an error map that agrees with the verdicts is empty when the form is valid |
| `ContactFormComponent.LiveRegionText` | src/components/ContactForm/ContactForm.tsx:378-385 | nothing is announced without errors; otherwise "Hay 1 error en el formulario" or "Hay n errores en el formulario" |
| `ContactFormComponent.ErrorMapSize` | src/components/ContactForm/ContactForm.tsx:74 | an error map never has more than seven keys |
| `ContactFormComponent.ContactForm.constructor` | src/components/ContactForm/ContactForm.tsx:72-76 | the form starts empty, with no honeypot, no errors, no toast and nothing submitting |
| `ContactFormComponent.ContactForm.HandleInputChange` | src/components/ContactForm/ContactForm.tsx:78-92 | sets only that field's value and removes only that field's error; nothing is re-validated |
| `ContactFormComponent.ContactForm.HandleSelectChange` | src/components/ContactForm/ContactForm.tsx:94-105 | a dropdown choice has the same effect as typing into that field |
| `ContactFormComponent.ContactForm.HandleHoneypotChange` | src/components/ContactForm/ContactForm.tsx:107-109 | only the honeypot changes |
| `ContactFormComponent.ContactForm.ResetForm` | src/components/ContactForm/ContactForm.tsx:111-115 | restores `initialFormData`, an empty honeypot and an empty error map |
| `ContactFormComponent.ContactForm.ShowValidationErrors` | src/components/ContactForm/ContactForm.tsx:131-138 | the error map becomes exactly the result's fields with their messages; data and honeypot are kept |
| `ContactFormComponent.ContactForm.HandleSubmit` | src/components/ContactForm/ContactForm.tsx:117-152 | the bot path resets everything and shows the toast without validating; the invalid path replaces the errors and keeps the data; the valid path starts submitting and keeps the data; none calls `onSuccess`; the submit button (`disabled={isSubmitting}`, line 362) becomes disabled on a valid submission and is otherwise left as it was |
| `ContactFormComponent.ContactForm.SubmitAsBot` | src/components/ContactForm/ContactForm.tsx:121-126 | resets the fields, the honeypot and the errors, shows the toast, and leaves `isSubmitting` alone |
| `ContactFormComponent.ContactForm.SubmitAsPerson` | src/components/ContactForm/ContactForm.tsx:128-143 | invalid data fills the error map; valid data starts a submission; the data is kept either way |
| `ContactFormComponent.ContactForm.StartSubmission` | src/components/ContactForm/ContactForm.tsx:142-145 | sets `isSubmitting` and schedules one completion |
| `ContactFormComponent.ContactForm.CompleteSubmission` | src/components/ContactForm/ContactForm.tsx:145-151 | clears `isSubmitting`, so the submit button (line 362) is enabled again; shows the toast, resets the form, and calls `onSuccess` once when it was supplied |
| `ContactFormComponent.ContactForm.CloseToast` | src/components/ContactForm/ContactForm.tsx:393 | hides the toast and changes nothing else |
| `ContactFormComponent.ContactForm.ErrorAnnouncement` | src/components/ContactForm/ContactForm.tsx:378-385 | the live region counts the error-map keys and speaks only when there is at least one |
| `ContactFormComponent.FillIn` | src/components/ContactForm/ContactForm.tsx:78-105 | typing each value into its field yields exactly that form data, with no errors |
| `ContactFormComponent.SubmitAndComplete` | src/components/ContactForm/ContactForm.tsx:141-151 | a valid submit followed by its completion leaves the form empty, shows the toast, and calls `onSuccess` once |
| `ContactFormComponent.SubmitJourney` | src/components/ContactForm/ContactForm.test.tsx:142-176 | after valid data is typed and submitted and the timer fires, the form is empty, the toast is shown and nothing is submitting |
| `ContactFormJourney.SubmitSampleForm` | src/utils/formValidation.test.ts:85-98 | the journey of ContactForm.test.tsx:142-176 run on the sample data of the validator test (whose message differs from the text the component test types): the form ends empty, the toast is shown and nothing is submitting |
| `CustomSelect.FindIndex` | src/components/CustomSelect/CustomSelect.tsx:82 | the first position holding the value, or -1 exactly when no option holds it |
| `CustomSelect.Find` | src/components/CustomSelect/CustomSelect.tsx:60 | the first option holding the value, or None exactly when no option holds it |
| `CustomSelect.OpenHighlight` | src/components/CustomSelect/CustomSelect.tsx:80-85 | on opening, the highlight is the first position of the current value, or 0 when there is none |
| `CustomSelect.MoveDown` | src/components/CustomSelect/CustomSelect.tsx:116 | ArrowDown moves one step down and stays within the list |
| `CustomSelect.MoveUp` | src/components/CustomSelect/CustomSelect.tsx:122 | ArrowUp moves one step up, stopping at the first option |
| `CustomSelect.DownTimesClamp` | src/components/CustomSelect/CustomSelect.tsx:111-118 | n presses of ArrowDown give min(start + n, last index); further presses at the end change nothing |
| `CustomSelect.UpTimesClamp` | src/components/CustomSelect/CustomSelect.tsx:119-124 | n presses of ArrowUp give max(start - n, 0) |
| `CustomSelect.TriggerLabel` | src/components/CustomSelect/CustomSelect.tsx:164-166 | the trigger shows the label of the first option holding the value, otherwise the placeholder |
| `CustomSelect.AriaSelected` | src/components/CustomSelect/CustomSelect.tsx:183-190 | an option marked selected means the value is found, at or before that option |
| `CustomSelect.OpenHighlightIsSelected` | src/components/CustomSelect/CustomSelect.tsx:183 | when an option is marked `aria-selected`, opening highlights the first such option |
| `CustomSelect.Select.constructor` | src/components/CustomSelect/CustomSelect.tsx:54-55 | the widget starts closed with highlight -1 |
| `CustomSelect.Select.SetIsOpen` | src/components/CustomSelect/CustomSelect.tsx:79-85 | changing from closed to open resets the highlight to the current value's position |
| `CustomSelect.Select.HandleToggle` | src/components/CustomSelect/CustomSelect.tsx:87-89 | a click flips the open state; opening resets the highlight |
| `CustomSelect.Select.HandleSelect` | src/components/CustomSelect/CustomSelect.tsx:91-98 | reports the value through `onChange` and closes |
| `CustomSelect.Select.HandleKeyDown` | src/components/CustomSelect/CustomSelect.tsx:100-133 | Enter or Space commits the highlighted option of an open list, otherwise opens it; ArrowDown opens or steps down, clamped; ArrowUp steps up only when open; Escape and Tab close without a commit; other keys do nothing |
| `CustomSelect.Select.HandleOptionClick` | src/components/CustomSelect/CustomSelect.tsx:191 | clicking an option commits that option's value whatever the highlight is, then closes |
| `CustomSelect.Select.HandleOptionHover` | src/components/CustomSelect/CustomSelect.tsx:192 | hovering highlights that option |
| `CustomSelect.Select.HandleClickOutside` | src/components/CustomSelect/CustomSelect.tsx:63-68 | a mousedown outside closes the list without a commit |
| `CustomSelect.Select.SetValue` | src/components/CustomSelect/CustomSelect.tsx:79-85 | a new value while open re-runs the open-reset effect |

## Left out

- Timers: the 500 ms delay of the simulated submission has no clock. It is a pending completion that `CompleteSubmission` consumes. The toast's auto-dismiss and fade, and the modal's delayed focus and close, are not part of this model.
- `console.log` calls (the honeypot marker and the submitted payload) are diagnostics and are left out.
- DOM effects are left out: `preventDefault`, listener registration, `focus()` after a commit, scroll locking and focus traps.
- Styling strings (`getInputClasses`, `baseStyles` and the like) are left out.
- The presentational components (header, footer, sections, modal and toast markup) are left out.
- The email and phone regular expressions are hand-written predicates over characters, not a regex engine.
- `JsString.Utf16Length`: strings are sequences of Unicode scalar values, so an unpaired surrogate, which a JavaScript string can hold, cannot be represented; on every representable string `length` is exact.
- `FormValidation.MinLengthMessage` and `FormValidation.MaxLengthMessage`: the bounds are integers, while in the source they are JavaScript numbers. JavaScript prints numbers of 10^21 and above in exponent notation, and a non-integer bound would be both compared and printed as a fraction; neither is modelled. The form passes only the integer literals 2 to 1000.
- `\s` and `trim()` share one white-space set, `JsString.IsSpace`. `\d` is ASCII 0-9.
- `handleInputChange` reads the field name from the DOM event. The model takes a `Field`, so a name outside the seven fields cannot occur.
- The effect that resets the highlight is applied in the same step as the transition that opens the list. React's render between the two steps is not modelled.
- `CustomSelect.Select.constructor`: requires a non-empty option list. With no options, the source indexes `options[0]` on Enter and fails. Both catalogues of the form are non-empty.
- `CustomSelect.Select.HandleSelect`: the parent's new `value` is not written back by the widget itself. That is a separate step, `SetValue`, because in the source the value is a prop the parent owns.
- The submit button's `disabled` attribute does not stop `HandleSubmit` in the model: a second submit while submitting schedules a second completion.
