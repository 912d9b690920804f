# Sign-in / sign-up form validator — a Dafny model

This project models the logic of a tabbed login/signup page. The page has two tabs
(login and signup). It keeps the form's field values and a set of per-field error
messages. A validation pass checks the e-mail, the password and, on signup, the name
and the password confirmation. Typing into a field clears that field's error. A submit
is guarded by validation and flips an in-flight ("loading") flag on and off again,
ending with a tab-specific success toast. The page renders each field through an
input primitive that derives its type, its error/success state and its optional
elements from its props.

Files and modules:

- `wrappers.dfy` (`Wrappers`): `Option`, standing for JavaScript's value-or-`undefined`.
- `js_string.dfy` (`JsString`): the two JavaScript string facts the rules depend on.
  - the characters `\s` matches (the WhiteSpace and LineTerminator productions of ECMA-262);
  - `length`, which counts UTF-16 code units, so a supplementary character counts twice.
- `email_pattern.dfy` (`EmailPattern`): the e-mail pattern `^[^\s@]+@[^\s@]+\.[^\s@]+$`.
  - It is written as a small anchored matcher (`Matches`) over a pattern language of
    literals, the class `[^\s@]`, "once" and "any number of times".
  - It is proved equal to a structural reading (`WellFormedEmail`).
- `validation.dfy` (`Validation`): the field rules and their messages, the error set a
  validation pass builds (`Validate`), and lemmas stating each rule and the
  independence of the fields.
- `enhanced_input.dfy` (`EnhancedInput`): the input primitive as a pure function
  `Render` from props to a view descriptor.
- `auth_form.dfy` (`AuthPage`): the page itself.
  - The class `AuthForm` holds `formData`, `errors`, `activeTab`, `loading` and the two
    password-visibility flags, and has one method per handler.
  - The success flags and the props handed to each input are pure functions over that state.
  - The two scenarios of the page's intended behaviour are client methods.

Modelling decisions:

- Strings are sequences of Unicode scalar values. The pattern is run over these, which
  accepts the same strings as JavaScript's run over UTF-16 code units. The reason: the
  pattern names only `@`, `.` and `\s`, all single non-surrogate code units, and
  `[^\s@]` accepts both halves of a surrogate pair. This holds for well-formed UTF-16
  only: a JavaScript string may hold a lone surrogate, which a Dafny `char` cannot. Lengths are counted in UTF-16 code
  units (`JsString.Utf16Length`), as JavaScript does.
- The error set is a `map` from field to message. The page clears an error by storing
  `undefined` under its key. The model removes the key instead. The two are
  indistinguishable: the page only reads entries through truthiness, and a
  validation pass rebuilds the set from scratch.
- The submit handler awaits a 2-second timer. It is split at that `await`:
  - `BeginSubmit` validates and sets `loading`, and captures the tab and the form as the
    pending completion sees them (the handler's closure);
  - `FinishSubmit` issues the toast for the captured tab and clears `loading`;
  - `Submit` runs both as one step.
- Toasts are returned as values instead of being sent to the notification system.
- The page's own wording of the password rule says "6 characters", but the code compares
  `length`, i.e. UTF-16 code units. The model follows the code:
  `Validation.SupplementaryCharactersCountTwice` shows a 3-character password that passes.
- The e-mail success flag (`isEmailValid`) only checks for an `@`, so it is looser than
  the e-mail rule. `AuthPage.EmailFlagLooserThanRule` exhibits "a@", for which the flag
  is on while validation rejects the address. Right after a validation pass the two
  agree (`AuthPage.FlagsAfterValidation`).

## Model

| member | source | states |
|---|---|---|
| `JsString.Utf16Length` | src/components/PremiumAuthPage.tsx:62 | JavaScript `length`: between the number of characters and twice it, and zero exactly for the empty string |
| `JsString.Utf16LengthOfBmp` | src/components/PremiumAuthPage.tsx:62 | for text without supplementary characters, `length` is the number of characters |
| `EmailPattern.Matches` | src/components/PremiumAuthPage.tsx:52 | the anchored test `^p$` of a pattern built from literals, `[^\s@]`, "once" and "any number of times" (`EmailPattern.Email` is line 52's pattern in that form); an accepted string has at least as many characters as the pattern has mandatory terms |
| `EmailPattern.EmailMinLength` | src/components/PremiumAuthPage.tsx:52 | every address the e-mail pattern accepts has at least five characters |
| `EmailPattern.EmailPatternMeaning` | src/components/PremiumAuthPage.tsx:52 | the pattern accepts exactly the strings that have no whitespace, exactly one '@' with a non-empty part before it, and after the '@' a part with a '.' that is neither its first nor its last character |
| `Validation.EmailError` | src/components/PremiumAuthPage.tsx:52-57 | empty e-mail gives "Email is required"; non-empty and not well formed gives "Please enter a valid email"; no error exactly for a well-formed address |
| `Validation.PasswordError` | src/components/PremiumAuthPage.tsx:60-64 | empty gives "Password is required"; every message is a password message; no error exactly at 6 or more UTF-16 code units |
| `Validation.NameError` | src/components/PremiumAuthPage.tsx:68-72 | empty gives "Name is required"; every message is a name message; no error exactly at 2 or more UTF-16 code units |
| `Validation.ConfirmError` | src/components/PremiumAuthPage.tsx:74-78 | empty gives "Please confirm your password"; every message is a confirmation message; no error exactly for a non-empty confirmation equal to the password |
| `Validation.Validate` | src/components/PremiumAuthPage.tsx:48-79 | the error set of one validation pass: on login it holds at most e-mail and password entries; it has an e-mail entry exactly for an address that is not well formed and a password entry exactly below 6 code units |
| `Validation.ValidateMeaning` | src/components/PremiumAuthPage.tsx:48-83 | each field's entry in the error set is that field's own rule on the tab (so one failure never hides another); every stored message is one of that field's messages; the set is empty exactly when the e-mail is well formed, the password has 6 or more code units and, on signup, the name has 2 or more and the confirmation equals the password |
| `Validation.ValidFormHasNoErrors` | src/components/PremiumAuthPage.tsx:81-82 | a form that passes every rule yields the empty error set |
| `Validation.EmailRule` | src/components/PremiumAuthPage.tsx:53-57 | in the error set: empty → "Email is required", non-empty and not well formed → "Please enter a valid email", well formed → no e-mail entry |
| `Validation.PasswordRule` | src/components/PremiumAuthPage.tsx:60-64 | empty → "Password is required", under 6 code units → "Password must be at least 6 characters", no entry exactly at 6 or more |
| `Validation.LoginIgnoresSignupFields` | src/components/PremiumAuthPage.tsx:66-79 | on login, name and confirmation never get an entry, and changing them leaves the whole error set unchanged |
| `Validation.SignupRules` | src/components/PremiumAuthPage.tsx:67-79 | on signup: empty name → "Name is required", under 2 code units → "Name must be at least 2 characters"; empty confirmation → "Please confirm your password", different from the password → "Passwords do not match"; each field is free of error exactly when its rule holds |
| `Validation.FieldsIndependent` | src/components/PremiumAuthPage.tsx:48-79 | two forms that agree on what a field's rule reads (its own text, plus the password for the confirmation) get the same entry for that field |
| `Validation.SupplementaryCharactersCountTwice` | src/components/PremiumAuthPage.tsx:62 | a password of three supplementary characters passes the 6-character minimum |
| `Validation.InvalidSignupExample` | src/components/PremiumAuthPage.tsx:48-83 | signup with name "", e-mail "bad", password "123", confirmation "456" yields exactly four errors: invalid e-mail, short password, name required, mismatch |
| `Validation.ValidLoginExample` | src/components/PremiumAuthPage.tsx:48-83 | e-mail "a@b.com" with password "secret1" passes every login rule |
| `EnhancedInput.Render` | src/components/ui/enhanced-input.tsx:29-111 | a password input has type "text" when shown and "password" otherwise, and any other input keeps its given type; the error state holds exactly for a non-empty error; the success state holds exactly for success without error, so the two never hold together; each status icon appears with its state and the status box exactly when one does; the error line exactly with the error state, showing the error; the toggle exactly on password inputs, labelled "Hide password" with the crossed eye when shown and "Show password" with the open eye otherwise; the label exactly for a non-empty label, showing that label; left padding exactly with an icon, right padding exactly on password inputs |
| `EnhancedInput.ToggleChangesOnlyVisibility` | src/components/ui/enhanced-input.tsx:29-94 | flipping `showPassword` on a password input swaps its type between "text" and "password", changes the toggle's label, and changes nothing else in the view |
| `EnhancedInput.ErrorOverridesSuccess` | src/components/ui/enhanced-input.tsx:30-31 | with a non-empty error, the success prop makes no difference; the error icon shows and the success icon does not |
| `AuthPage.ApplyChange` | src/components/PremiumAuthPage.tsx:85-90 | a change event sets the named field (the checked flag for a checkbox, the value otherwise) and every other field keeps its value |
| `AuthPage.ClearEdited` | src/components/PremiumAuthPage.tsx:92-95 | after a text change, the edited field has no error; every other field's entry is unchanged, and no entry is added |
| `AuthPage.IsEmailValid` | src/components/PremiumAuthPage.tsx:138 | a well-formed address with no stored error lights the flag; a lit flag means no stored error and a non-empty address holding '@' |
| `AuthPage.IsPasswordValid` | src/components/PremiumAuthPage.tsx:139 | on exactly when no error is stored and the password rule passes |
| `AuthPage.IsNameValid` | src/components/PremiumAuthPage.tsx:140 | on exactly when no error is stored and the name rule passes |
| `AuthPage.IsConfirmPasswordValid` | src/components/PremiumAuthPage.tsx:141 | on exactly when no error is stored and the confirmation rule passes |
| `AuthPage.FieldProps` | src/components/PremiumAuthPage.tsx:211-362 | every input renders its label and icon; the name renders as a text input, the e-mail as an e-mail input, each password as "text" while visible and "password" otherwise, with the toggle only on the two passwords; the error icon shows exactly for a stored error, the success icon exactly for the field's flag without one |
| `AuthPage.SuccessNotification` | src/components/PremiumAuthPage.tsx:109-115 | a toast of the default variant titled "Welcome back!" exactly on login and "Account created!" exactly on signup |
| `AuthPage.SubmitControlDisabled` | src/components/ui/enhanced-button.tsx:55 | the submit button, given `disabled` and `loading` both equal to the page's `loading`, is disabled exactly while a submission is in flight |
| `AuthPage.FlagsAfterValidation` | src/components/PremiumAuthPage.tsx:138-141 | against the error set of a validation pass: the e-mail flag holds exactly for a well-formed address, the password flag exactly at 6 code units or more, and on signup the name flag exactly at 2 or more and the confirmation flag exactly for a non-empty confirmation equal to the password |
| `AuthPage.EmailFlagLooserThanRule` | src/components/PremiumAuthPage.tsx:138 | "a@" turns the e-mail flag on with no stored error although the e-mail rule rejects it |
| `AuthPage.StatusIconsAfterValidation` | src/components/PremiumAuthPage.tsx:211-362 | after a validation pass, every input shown on the tab shows the error icon and that error's message exactly when its rule fails, and the success icon exactly when it passes |
| `AuthPage.AuthForm.ErrorsAreTruthy` | src/components/PremiumAuthPage.tsx:92-95 | every stored message is non-empty, so a field has a truthy error exactly when its key is present; removing the key reads the same as storing `undefined` |
| `AuthPage.AuthForm.constructor` | src/components/PremiumAuthPage.tsx:30-41 | the page starts on login with empty fields, remember-me off, no errors, both passwords hidden and not loading |
| `AuthPage.AuthForm.SelectTab` | src/components/PremiumAuthPage.tsx:182 | switching tabs changes only the tab; entered values and errors persist |
| `AuthPage.AuthForm.TogglePassword` | src/components/PremiumAuthPage.tsx:236-237 | flips the password input's visibility, and its type follows; the confirmation input's view is unchanged |
| `AuthPage.AuthForm.ToggleConfirmPassword` | src/components/PremiumAuthPage.tsx:357-358 | flips the confirmation input's visibility; the password input's view is unchanged |
| `AuthPage.AuthForm.SetRememberMe` | src/components/PremiumAuthPage.tsx:250-252 | the checkbox sets remember-me and nothing else |
| `AuthPage.AuthForm.ValidateForm` | src/components/PremiumAuthPage.tsx:48-83 | replaces the stored errors wholesale with a validation pass, and returns true exactly when that pass found no error, i.e. when the form is valid for the tab |
| `AuthPage.AuthForm.InputChange` | src/components/PremiumAuthPage.tsx:85-96 | the form and error set become those of ApplyChange and ClearEdited, keeping every stored message one of its field's messages; after a text change the edited field has no entry at all |
| `AuthPage.AuthForm.BeginSubmit` | src/components/PremiumAuthPage.tsx:98-103 | validates; an invalid form leaves `loading` as it was and starts nothing; a valid one sets `loading`, which disables the submit button (its `disabled` is `disabled` or `loading`), and captures the tab and the form |
| `AuthPage.AuthForm.FinishSubmit` | src/components/PremiumAuthPage.tsx:106-126 | clears `loading`, re-enabling the button, and issues the success toast of the tab the submission started on |
| `AuthPage.AuthForm.Submit` | src/components/PremiumAuthPage.tsx:98-127 | when the handler runs: stores the validation pass's errors; a toast is issued exactly for a valid form; then `loading` is false again and the title is "Welcome back!" on login and "Account created!" on signup; an invalid form leaves `loading` unchanged |
| `AuthPage.ValidLoginScenario` | src/components/PremiumAuthPage.tsx:98-127 | on a fresh page, when the handler runs after typing a valid e-mail and password on login and submitting yields the "Welcome back!" toast and ends not loading |
| `AuthPage.InvalidSignupScenario` | src/components/PremiumAuthPage.tsx:48-127 | values typed on login survive the switch to signup; when the handler runs on signup with name "", "bad", "123", "456", it issues nothing, stores the four errors and never sets `loading` |

## Left out

- Layout, Tailwind class strings other than the padding and state conditions, and animations: presentation only.
- The browser's constraint validation and value sanitization. Every input is `required` and the e-mail inputs are `type="email"`, so the browser cancels a submit whose fields are empty or whose e-mail is not an HTML e-mail before the handler runs; it also trims an e-mail input's value and strips newlines from text inputs. The model starts at the submit handler: the "… is required" messages and an invalid e-mail with an empty field are what the handler computes, not what a browser submit reaches.
- The 2-second timer and the event loop. The submission is split at its `await` into two atomic steps, and nothing runs between them except what callers do.
- The `catch` branch of the submit handler and its "Something went wrong" toast. It is unreachable because the simulated delay never rejects.
- `console.log` calls, and delivery of toasts: external side channels. Toasts are returned as values.
- The dark-mode effect on mount: a global DOM mutation.
- The social-login handler: it only logs and issues a toast.
- The button primitive's variant and size lookup. Only its `disabled || loading` rule is kept, in `AuthPage.SubmitControlDisabled`.
- The decorative background components: markup without logic.
- `AuthPage.ApplyChange`: an event whose name is not one of the form's fields would add a new key in JavaScript. The model's events name only the form's fields. A checkbox event always names remember-me, and a text event always names a text field; no input of the page sends anything else.
