# Sign-up form password policy

This project models the validation logic of a React sign-up form, all of it in
`src/App.tsx`. The form has an email field, a password field with a show/hide
toggle, a confirmation field, and a checklist of six password rules. The rules
are re-evaluated on every keystroke in the password field. A "password match"
indicator is recomputed when the confirmation field changes. The sign-up button
is disabled until every rule holds, the email is not blank and the two password
fields agree. Submitting clears the form and shows a notice for three seconds.

Files:

- `js_trim.dfy` (module `JsTrim`): ECMAScript `String.prototype.trim`, used for
  the blank-email test.
- `password_policy.dfy` (module `PasswordPolicy`): the rule record, the six
  labels, the character classes and length bounds, `validatePassword` as a
  function over the checklist, and the reset done by a submit.
- `submit_gate.dfy` (module `SubmitGate`): the `isSubmitDisabled` expression.
- `form_model.dfy` (module `SignUpForm`): class `FormModel` holds the
  component's state and has one method per handler, plus three client scenarios.

The source record `PasswordValidationCriteria { label, isValid }` is the
datatype `Rule(caption, isValid)`. The field is renamed because `label` is a
Dafny keyword. The rule is still selected by matching this display text.

`FormModel.Valid()` is the invariant that every handler keeps: the checklist
equals the catalogue evaluated on the current password. It holds at mount,
because the empty password fails all six rules. A password edit re-evaluates
the checklist, and because every catalogue label is recognised, the old
verdicts do not matter. A submit resets the password to empty and every
verdict to false, which is the empty password's checklist again.

`FormModel.IsSubmitDisabled()` is the component's `isSubmitDisabled` value. It
is `SubmitGate.SubmitDisabled` applied to the current fields.

## Model

| member | source | states |
|---|---|---|
| `JsTrim.TrimStart` | src/App.tsx:106 | the result is a suffix of the input; it is empty or starts with a non-whitespace character; every dropped character is whitespace |
| `JsTrim.TrimEnd` | src/App.tsx:106 | the result is a prefix of the input; it is empty or ends with a non-whitespace character; every dropped character is whitespace |
| `JsTrim.Trim` | src/App.tsx:106 | `email.trim()` is no longer than the email; if non-empty, neither end is whitespace (what it keeps is stated by `TrimIsInfix`) |
| `JsTrim.TrimIsInfix` | src/App.tsx:106 | `email.trim()` is the infix `s[a..b]` of the email, where everything before `a` and from `b` on is whitespace |
| `JsTrim.TrimEmptyIff` | src/App.tsx:106 | an email trims to `''` exactly when every character of it is whitespace |
| `PasswordPolicy.Check` | src/App.tsx:77-93 | the test each of the six labels selects: `[0-9]`, `[A-Z]`, `[a-z]`, `[!@#$%^&*]`, `[a-zA-Z]` as "some character in the class", and length 14 to 50 |
| `PasswordPolicy.Reevaluate` | src/App.tsx:76-98 | one pass of the label `switch` keeps the label; an unrecognised label (the `default` branch) leaves the rule unchanged; a recognised one gets `Check`'s verdict |
| `PasswordPolicy.Evaluate` | src/App.tsx:25-32 | the catalogue of six labels, all false at mount (the constant `InitialRules`), passed through `validatePassword`; its content is stated by `EvaluateSpec` |
| `PasswordPolicy.Validated` | src/App.tsx:74-102 | `validatePassword` keeps the number of rules and the label of each rule, in order |
| `PasswordPolicy.ValidatedAt` | src/App.tsx:75-99 | rule i of the new checklist is rule i of the old one, passed through the label `switch` |
| `PasswordPolicy.ValidatedSpec` | src/App.tsx:76-97 | the label never changes; a recognised label gets its test's verdict on the new password; an unrecognised label (the `default` branch) keeps the rule unchanged |
| `PasswordPolicy.ValidatedIdempotent` | src/App.tsx:74-102 | validating twice against the same password gives the same checklist as validating once |
| `PasswordPolicy.ValidatedForgetsVerdicts` | src/App.tsx:76-97 | if every label is recognised, the old verdicts do not affect the result: checklists with equal labels validate to the same checklist |
| `PasswordPolicy.EvaluateSpec` | src/App.tsx:25-32 | the catalogue evaluated on a password has the six labels in display order; each rule is valid exactly when its character-class test or the 14-50 length test holds (tests at lines 77-93) |
| `PasswordPolicy.LatinIffUpperOrLower` | src/App.tsx:80-91 | "One Latin letter" is valid exactly when "One uppercase letter" or "One lowercase letter" is valid, for the same password |
| `PasswordPolicy.LengthRuleIff` | src/App.tsx:92-93 | "Use 14-50 characters" is valid exactly when the password length is between 14 and 50 inclusive |
| `PasswordPolicy.EvaluateEmpty` | src/App.tsx:25-32 | the initial all-false checklist is exactly the empty password's evaluation |
| `PasswordPolicy.Cleared` | src/App.tsx:119-121 | the submit reset keeps the length and every label, and makes every verdict false |
| `PasswordPolicy.ClearedCatalogue` | src/App.tsx:119-121 | resetting a checklist that has the catalogue's labels gives back the initial checklist, which is the empty password's |
| `PasswordPolicy.CatalogueLabelsKnown` | src/App.tsx:25-32 | a checklist with the catalogue's labels has six rules, and the `switch` recognises every label |
| `PasswordPolicy.StrongPasswordExample` | src/App.tsx:77-93 | "Abcdef1!ghijkl" (14 characters) satisfies all six rules |
| `PasswordPolicy.ShortPasswordExample` | src/App.tsx:77-93 | "short1A!" (8 characters) satisfies every rule except the length rule |
| `SubmitGate.SomeInvalid` | src/App.tsx:105 | `some((criteria) => !criteria.isValid)` is true exactly when some rule's verdict is false |
| `SubmitGate.SubmitDisabled` | src/App.tsx:104-107 | the `isSubmitDisabled` expression over a checklist and the three text fields; its meaning is stated by `SubmitDisabledIff` |
| `SubmitGate.SubmitDisabledIff` | src/App.tsx:104-107 | submit is disabled exactly when some rule is invalid, or the email is all whitespace, or the password and the confirmation differ |
| `SubmitGate.GateOnEvaluated` | src/App.tsx:104-107 | on a checklist that reflects the password, submit is enabled exactly when the password meets all six rules, the email has a non-whitespace character, and the confirmation equals the password |
| `SubmitGate.OneInvalidRuleDisables` | src/App.tsx:105 | one failing rule disables submit, whatever the other fields hold |
| `SubmitGate.BlankEmailDisables` | src/App.tsx:106 | a blank email disables submit, even when the passwords agree |
| `SubmitGate.SignUpExamples` | src/App.tsx:104-107 | "a@b.com" with "Abcdef1!ghijkl" typed twice is allowed; with "short1A!" typed twice it is not |
| `SignUpForm.FormModel.Valid` | src/App.tsx:43-51 | the invariant every handler keeps: the checklist is the catalogue evaluated on the current password |
| `SignUpForm.FormModel.IsSubmitDisabled` | src/App.tsx:104-107 | the component's `isSubmitDisabled`, the gate applied to the current checklist and fields |
| `SignUpForm.FormModel.constructor` | src/App.tsx:16-32 | empty fields, password hidden, no notice, no match, the six rules all false; the invariant holds |
| `SignUpForm.FormModel.OnEmailChange` | src/App.tsx:35-41 | only the email changes, to the new text |
| `SignUpForm.FormModel.ValidatePassword` | src/App.tsx:74-102 | the loop that re-evaluates each rule in turn leaves exactly `Validated(old checklist, password)`; nothing else changes |
| `SignUpForm.FormModel.OnPasswordChange` | src/App.tsx:43-51 | the password becomes the new text; the checklist is re-evaluated on it, so it reflects the new password; the match indicator is left untouched |
| `SignUpForm.FormModel.ToggleShow` | src/App.tsx:53-55 | only the visibility flag changes, and it is negated |
| `SignUpForm.FormModel.ValidatePasswordConfirmation` | src/App.tsx:69-71 | the indicator becomes true exactly when the stored password equals the confirmation text |
| `SignUpForm.FormModel.OnConfirmChange` | src/App.tsx:58-66 | the confirmation becomes the new text; the indicator is true exactly when the current password equals it |
| `SignUpForm.FormModel.Submit` | src/App.tsx:109-122 | notice raised; email, password and confirmation empty; password hidden; every rule reset to false under its own label (the initial checklist); indicator untouched; submit is disabled right afterwards |
| `SignUpForm.FormModel.ExpireNotice` | src/App.tsx:123-125 | only the notice flag changes, and it is cleared |
| `SignUpForm.FillInScenario` | src/App.tsx:35-107 | for any email with a non-whitespace character and any password meeting all rules, typing the email, the password and the same confirmation into a fresh form enables submit, with the indicator saying "match" |
| `SignUpForm.SignUpScenario` | src/App.tsx:35-126 | for any email with a non-whitespace character and any password meeting all rules, the handlers enable submit; after submit and expiry the email, password and confirmation are empty, the password is hidden, the checklist is the initial one and the notice is gone; the match indicator ends true, unlike its initial false, because the submit never resets it |
| `SignUpForm.StaleMatchScenario` | src/App.tsx:43-70 | typing the confirmation before the password leaves the two fields equal while the indicator still says "no match" |

Behaviour of the code that one might not expect:

- The indicator is recomputed only when the confirmation field changes. A
  password edit never refreshes it, so it can show "no match" for equal fields
  (`StaleMatchScenario`) or "match" for unequal ones. One would expect the
  indicator and the gate's own comparison to agree. The code lets them
  disagree, and the model follows the code. The button is not affected,
  because the gate does its own comparison.
- A submit does not reset the indicator (`Submit` leaves `isPasswordMatch` as
  it was).
- `handleSubmit` does not check the gate itself. The gate is only the button's
  `disabled` attribute (src/App.tsx:199). `Submit` therefore requires
  `!IsSubmitDisabled()`; no other path in the component reaches the handler.

## Left out

- Rendering and JSX (src/App.tsx:128-206), including the indicator's display
  condition (lines 186-190). This is presentation only.
- React's asynchronous `useState` updates and stale closures. Each handler is
  modelled as one atomic update that reads the state from before the event.
- The 3000 ms `setTimeout`. It is modelled as the `ExpireNotice` transition
  with no clock. Overlapping timers from repeated submits are not modelled.
- The regular-expression engine. Each `/[...]/.test` is an "exists an index"
  predicate over explicit character ranges.
- `LengthInRange` counts Unicode scalar values. JavaScript `length` counts
  UTF-16 code units, so a password with characters outside the Basic
  Multilingual Plane has a different length there.
- `JsTrim.IsWhitespace` is the fixed ECMAScript WhiteSpace and LineTerminator
  set, with the Unicode "Zs" category taken as of current Unicode. Later
  Unicode versions that change "Zs" are not followed.
- The browser's own `type="email"` validation and `e.preventDefault()`. These
  are DOM behaviour.
- The `validatePassword` callback mutates the rule objects in place, and the
  previous state array shares those objects. The model uses separate values.
  The observable state is the same, because the whole array is replaced right
  afterwards.
- `handlePasswordChange` writes through the computed key `[name]`. It is
  modelled as always writing the password field, because the only input wired
  to it has `name="password"` (line 150).
