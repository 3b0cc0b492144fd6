# Create-user form: password rules and submit decision

A Dafny model of the registration form in `react/src/create-user-form.tsx`.
The form holds a username, a password, a stored password-error record and
the parent's "user was created" flag. On submit it checks the password
against five rules. Each rule writes a fixed message into its own slot of
the record: `length`, `number`, `uppercase`, `lowercase` and `spaces`.
If any slot is non-empty, the form stores the record and stops. Otherwise
it clears the stored record and sets the parent's flag. Below the inputs,
the form lists the non-empty messages of the stored record in slot order.

Two modules:

- `PasswordRules` (`password_rules.dfy`) holds the pure part.
  - The error record `PasswordErrors` and the six message constants.
  - The character classes the rules test: the ASCII ranges of `/\d/`,
    `/[A-Z]/` and `/[a-z]/`, and U+0020 for `includes(" ")`.
  - One function per slot, and `Validate`, which builds the whole record.
  - `AnyError`, the `some(error => error !== "")` test.
  - `Messages`, the list the form renders.
  - Lemmas about all of these.
- `CreateUserForm` (`create_user_form.dfy`) holds the component.
  - `CheckPassword` is the imperative part of the handler. It starts from
    an all-empty record and lets each failing rule overwrite its slot, in
    the source's order. Both length rules write the `length` slot.
  - The class `Form` has the component's state as fields, the two
    `onChange` setters, `HandleSubmit` and `DisplayedErrors`.

The two length rules share one slot, and the "at most 24" rule is checked
last. This could in principle hide the "at least 10" message. It never
does: no password is both shorter than 10 and longer than 24.
`CheckPassword` is proved equal to `Validate`, whose length slot is
defined short-first, and this proof shows the overwrite loses nothing.

The spaces rule tests only for the character U+0020 (`includes(" ")`),
not for whitespace in general, so a tab or a newline passes. The model
follows this (`SpacesMessage`, `TabIsAllowed`).

## Model

| member | source | states |
|---|---|---|
| PasswordRules.Contains | react/src/create-user-form.tsx:36-47 | `password.match(/\d/)`, `/[A-Z]/`, `/[a-z]/` and `includes(" ")` are true exactly when some character lies in the ASCII range, or is U+0020 |
| PasswordRules.ContainsConcat | react/src/create-user-form.tsx:36-47 | a character class is found in `s + t` exactly when it is found in `s` or in `t` |
| PasswordRules.LengthMessage | react/src/create-user-form.tsx:30-35 | the `length` slot is the "at least 10" message iff the length is below 10, the "at most 24" message iff it is above 24, and empty iff 10 ≤ length ≤ 24 |
| PasswordRules.NumberMessage | react/src/create-user-form.tsx:36-38 | the `number` slot is empty or its message, and is non-empty iff no character is in '0'..'9' |
| PasswordRules.UppercaseMessage | react/src/create-user-form.tsx:39-41 | the `uppercase` slot is empty or its message, and is non-empty iff no character is in 'A'..'Z' |
| PasswordRules.LowercaseMessage | react/src/create-user-form.tsx:42-44 | the `lowercase` slot is empty or its message, and is non-empty iff no character is in 'a'..'z' |
| PasswordRules.SpacesMessage | react/src/create-user-form.tsx:45-47 | the `spaces` slot is empty or its message, and is non-empty iff some character is U+0020 (other whitespace plays no part) |
| PasswordRules.Validate | react/src/create-user-form.tsx:22-47 | the record holds in each slot "" or that slot's own message, and it is all-empty exactly when the password meets every rule stated over its characters (`Acceptable`) |
| PasswordRules.RulesIndependent | react/src/create-user-form.tsx:22-47 | the rules do not short-circuit one another: every combination of slot values that `Validate` can have is produced by some password |
| PasswordRules.EmptyPasswordExample | react/src/create-user-form.tsx:22-47 | `""` fails the length, number, uppercase and lowercase rules, passes the spaces rule, and displays those four messages in slot order |
| PasswordRules.AcceptedExample | react/src/create-user-form.tsx:30-47 | "Abcdefg123" yields the all-empty record |
| PasswordRules.TabIsAllowed | react/src/create-user-form.tsx:45-47 | a password with a tab and no space yields the all-empty record |
| PasswordRules.SpaceIsRejected | react/src/create-user-form.tsx:45-47 | the same password with a space in place of the tab fails the spaces rule alone |
| PasswordRules.MessagesDistinct | react/src/create-user-form.tsx:31-46 | the six messages are non-empty and pairwise different |
| PasswordRules.AnyError | react/src/create-user-form.tsx:49 | `Object.values(errors).some(error => error !== "")` holds iff the record differs from the all-empty record |
| PasswordRules.Slots | react/src/create-user-form.tsx:11-17 | the record's values listed in declaration order (length, number, uppercase, lowercase, spaces), the order `Object.values` and `Object.entries` use at lines 49 and 84-86; exactly five of them |
| PasswordRules.Visible | react/src/create-user-form.tsx:86-88 | the `error ? <li>{error}</li> : null` filter: the rendered entries are no more than the slots and none of them is empty |
| PasswordRules.Messages | react/src/create-user-form.tsx:84-89 | the list is empty iff no slot is set, and its elements are exactly the non-empty slot values |
| PasswordRules.VisibleOrder | react/src/create-user-form.tsx:86-88 | the rendered entries are a subsequence of the slots, keeping order, and none is empty |
| PasswordRules.VisibleCount | react/src/create-user-form.tsx:86-88 | the number of rendered entries is the number of non-empty slots, which with VisibleOrder fixes the list uniquely |
| PasswordRules.VisibleMembers | react/src/create-user-form.tsx:86-88 | every non-empty slot value is rendered and nothing else, so the list is empty iff every slot is |
| PasswordRules.MessagesInSlotOrder | react/src/create-user-form.tsx:84-89 | the displayed list is the non-empty slots in the order length, number, uppercase, lowercase, spaces |
| PasswordRules.ShownIff | react/src/create-user-form.tsx:84-89 | for a well-formed record, each message is displayed exactly when its slot holds it |
| PasswordRules.LengthMessagesShown | react/src/create-user-form.tsx:30-35 | after validation, the "at least 10" message is shown iff the length is below 10 and the "at most 24" one iff it is above 24 |
| PasswordRules.ClassMessagesShown | react/src/create-user-form.tsx:36-47 | after validation, the number, uppercase and lowercase messages are shown iff the class is absent, and the spaces message iff a space is present |
| PasswordRules.AcceptedIff | react/src/create-user-form.tsx:49-60 | a password yields no errors, and an empty displayed list, exactly when it satisfies every rule |
| CreateUserForm.CheckPassword | react/src/create-user-form.tsx:22-47 | the record built by overwriting slots in the source's order, with `length` written twice, equals `Validate(password)` |
| CreateUserForm.Form.constructor | react/src/create-user-form.tsx:9-17 | the form starts with empty inputs, the all-empty error record and the parent's flag unchanged |
| CreateUserForm.Form.SetUsername | react/src/create-user-form.tsx:70 | the username input's change handler replaces the username and keeps the stored record well-formed |
| CreateUserForm.Form.SetPassword | react/src/create-user-form.tsx:79 | the password input's change handler replaces the password and keeps the stored record well-formed |
| CreateUserForm.Form.HandleSubmit | react/src/create-user-form.tsx:49-60 | on a failing password the record is stored and the flag is left unchanged; on a passing one the record is reset to all-empty and the flag becomes true; the flag is set exactly when it was already set or the password is `Acceptable`; the inputs are not changed, and the displayed list afterwards is `Messages(Validate(password))` |
| CreateUserForm.Form.DisplayedErrors | react/src/create-user-form.tsx:84-89 | for the stored record, which the form keeps well-formed, the `some(...)` guard around the list removes nothing: the rendered list equals `Messages` of the stored record, is empty iff the record is all-empty, and shows each of the six messages exactly when its slot holds it |

## Left out

- The styles (lines 102-146) and the JSX layout (lines 63-95) are presentation only.
- React's `useState` machinery is left out. The state is four plain fields of `Form`. `setUserWasCreated` is modelled as an assignment to the `userWasCreated` field. This field stands for the parent's state, which the form can only set.
- `e.preventDefault()` (line 20) is browser event plumbing and has no effect on the model.
- The `console.log` calls (lines 56-58) are output with no behavioural contract. They are the only place `handleSubmit` reads the username; the only other read is the controlled input's `value={username}` (line 69). The decision does not depend on the username, and the model shows this by giving `Validate` no username parameter.
- No network submission or HTTP status handling. `handleSubmit` in this file makes no request, so nothing in the model stands for a submitter.
- String length: the password is a `seq<char>` and its length is the number of `char`s. In JavaScript, `.length` counts UTF-16 code units, so a character outside the Basic Multilingual Plane counts as two. The model does not capture this.
- Re-rendering is left out. The model does not say when the list is redrawn, only what `DisplayedErrors` shows for the stored record.
