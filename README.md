# Registration form schema

This project models `userSchema`, the zod schema behind the registration
form. The form collects first name, last name, e-mail, organization name,
country, postal code, a password and its confirmation. The model states and
proves what the schema reports for each of the eight fields and when a
submission passes.

The model has five modules:

- `Wrappers` (wrappers.dfy) holds the shared `Option` type, used for a
  position that may be absent and for a message that may not be shown.
- `EmailShape` (email_shape.dfy) is the e-mail address shape that the
  `.email(...)` check accepts. It is written out as a concrete `local@host.tld`
  predicate.
- `ZodString` (zod_string.dfy) is a `z.string()` chain of `.min(n, message)` and
  `.email(message)` checks. String checks in zod are not fatal, so every check in
  a chain runs, in the order it was written, and each failing check adds its own
  message.
- `UserSchema` (user_schema.dfy) has the eight keys and their check chains, plus
  the `.refine` that compares the two passwords. `Issues` is zod's flat issue list
  for one parse. `Validate` maps every field to its ordered list of messages:
  first the field's own checks in chain order, then the refinement's message,
  which is put on the path `confirm_password`.
- `UserSchemaLemmas` (user_schema_lemmas.dfy) holds the properties, field by
  field and for the schema as a whole.

The model rests on three points that zod decides, not the schema itself:

- **The refinement always runs.** All eight inputs are registered as strings, so
  no field check produces a type error. String checks only mark the result as
  dirty, so the object-level `.refine` is evaluated even when a field check
  failed. A confirmation that is too short and also differs from the password
  therefore carries both messages: the length message first, then
  "Passwords do not match".
- **The displayed message is a resolver assumption.** The form shows one message
  per field (`errors.confirm_password?.message`). The schema states no precedence
  between a field's messages. `Validate` keeps the full ordered list.
  `UserSchema.Displayed` picks the first message of a field, and this choice
  assumes that the resolver keeps the first issue of each path. Under that
  assumption, a short confirmation that also differs from the password shows its
  length message. A resolver that kept the last issue of each path would show
  "Passwords do not match" instead.
- **Lengths are approximate.** They are counted in characters, as `|s|` over
  `seq<char>`. zod counts UTF-16 code units.

## Model

| member | source | states |
|---|---|---|
| ZodString.Passes | components/Form.jsx:8-17 | one check's pass test; a value passing an e-mail check has at least six characters, so it also passes `.min(1)` |
| ZodString.Run | components/Form.jsx:8-17 | a chain reports at most one message per check |
| ZodString.RunEmptyIff | components/Form.jsx:8-17 | a chain reports nothing if and only if the value passes every one of its checks |
| ZodString.RunAppend | components/Form.jsx:10 | the checks of a chain run independently and in order: the messages of `a + b` are those of `a` followed by those of `b` |
| ZodString.RunSingle | components/Form.jsx:14 | a one-check chain reports that check's message exactly when the check fails |
| EmailShape.IndexOf | components/Form.jsx:10 | the result is absent exactly when the character does not occur; otherwise it is the position of the first occurrence |
| EmailShape.LastIndexOf | components/Form.jsx:10 | the result is absent exactly when the character does not occur; otherwise it is the position of the last occurrence |
| EmailShape.ShapeSplit | components/Form.jsx:10 | a string written `l@h.t`, with no `@` in `l` and no dot in `t`, is e-mail shaped if and only if `l` is a local part, `h` a host and `t` a top-level domain |
| EmailShape.IsEmailShape | components/Form.jsx:10 | the `.email(...)` check's shape, split at the first `@`; every e-mail shaped string contains an `@` and has at least six characters, so in particular the empty string is never e-mail shaped (ShapeSplit gives its value on every `l@h.t` string) |
| EmailShape.AtSplit | components/Form.jsx:10 | a string `l@d` with no `@` in `l` is e-mail shaped if and only if `l` is a local part and `d` a domain |
| EmailShape.DotSplit | components/Form.jsx:10 | a string `h.t` with no dot in `t` is a domain if and only if `h` is a host and `t` a top-level domain |
| EmailShape.IsDomain | components/Form.jsx:10 | the part after the `@`, split at its last dot into host and top-level domain; a domain has at least four characters |
| EmailShape.AcceptsUserAtExampleCom | components/Form.jsx:10 | "user@example.com" is accepted by the e-mail check |
| EmailShape.RejectsTrailingApostrophe | components/Form.jsx:10 | "a'@example.com" is rejected: the local part may contain `'` but may not end in it |
| EmailShape.RejectsNotAnEmail | components/Form.jsx:10 | "not-an-email" is rejected by the e-mail check |
| UserSchema.ChecksOf | components/Form.jsx:8-17 | each key's chain has one or two checks, every chain rejects the empty value, and no key's own checks use "Passwords do not match" |
| UserSchema.RefinementIssues | components/Form.jsx:19-21 | the refinement reports at most one issue, on the path `confirm_password` with "Passwords do not match", exactly when the two passwords differ |
| UserSchema.Issues | components/Form.jsx:6-22 | zod's flat issue list for one parse; when the passwords differ its last issue is the mismatch on `confirm_password`; grouped by path it is `Validate` (ValidateGroupsIssues), and it is empty exactly when validation succeeds (IssuesEmptyIff) |
| UserSchema.Displayed | components/Form.jsx:134 | the message shown under a field, under the first-issue assumption: there is one exactly when the field's list is non-empty, and it is the list's first message |
| UserSchema.Validate | components/Form.jsx:6-22 | every one of the eight fields has an entry in the result |
| UserSchemaLemmas.GroupedIssues | components/Form.jsx:6-22 | grouping zod's flat issue list by path gives each field its own checks' messages in chain order, followed by the refinement's message |
| UserSchemaLemmas.ValidateGroupsIssues | components/Form.jsx:6-22 | a field's entry in `Validate` is exactly the messages of the flat issue list that are reported on that field, in order |
| UserSchemaLemmas.RequiredFieldIssues | components/Form.jsx:8-13 | each of first name, last name, organization name, country and postal code reports exactly its own "... is required" message when its value is empty, and nothing otherwise |
| UserSchemaLemmas.EmailIssues | components/Form.jsx:10 | an empty e-mail reports "Invalid email" then "Email is required"; a non-empty one that is not e-mail shaped reports only "Invalid email"; a shaped one reports nothing |
| UserSchemaLemmas.PasswordIssues | components/Form.jsx:14 | the password reports "Password must be at least 8 characters" exactly when it is shorter than eight characters, and nothing else, the refinement's message included |
| UserSchemaLemmas.PasswordContentUnchecked | components/Form.jsx:14 | two passwords of the same length get the same messages: case, digits and symbols are never checked |
| UserSchemaLemmas.ConfirmPasswordIssues | components/Form.jsx:15-21 | the confirmation reports its length message exactly when it is shorter than eight characters, and then, last, "Passwords do not match" exactly when it differs from the password |
| UserSchemaLemmas.MismatchOnlyOnConfirm | components/Form.jsx:19-21 | "Passwords do not match" is in a field's list if and only if the field is the confirmation and the two passwords differ |
| UserSchemaLemmas.OwnValueOnly | components/Form.jsx:8-18 | every field except the confirmation gets the same messages for any two values that agree on that field |
| UserSchemaLemmas.ConfirmDependsOnPasswords | components/Form.jsx:15-21 | the confirmation's messages depend only on the password and the confirmation |
| UserSchemaLemmas.CleanIff | components/Form.jsx:8-21 | a field has no messages if and only if its own rules hold, for all eight fields |
| UserSchemaLemmas.SucceedsIff | components/Form.jsx:6-22 | validation succeeds if and only if the five required fields are non-empty, the e-mail is non-empty and e-mail shaped, both passwords have at least eight characters, and the passwords are equal |
| UserSchemaLemmas.IssuesEmptyIff | components/Form.jsx:6-22 | zod's flat issue list is empty if and only if every field's list is empty |
| UserSchemaLemmas.EmptyingRequiredField | components/Form.jsx:8-13 | emptying one required field of a passing value makes that field report its "... is required" message and leaves every other field clean |
| UserSchemaLemmas.DisplayedConfirmPassword | components/Form.jsx:15-21 | under the first-issue assumption, a confirmation shorter than eight characters shows its length message even when it also differs from the password; otherwise it shows "Passwords do not match" when the passwords differ, and nothing when they match |
| UserSchemaLemmas.AcceptsLowerCasePassword | components/Form.jsx:14-21 | a filled-in value whose password and confirmation are both "abcdefgh" passes |

## Left out

- The form's markup, labels, placeholders and CSS classes (components/Form.jsx:37-139) are presentation only.
- `useForm`, `register`, `handleSubmit` and `zodResolver` (components/Form.jsx:25-31, 39) are form-binding library code that is not visible here. Only the schema they evaluate is modelled, and `Displayed` stands in for the resolver's choice of message.
- `onSubmit` (components/Form.jsx:33-35) only logs the submitted value, which is I/O with no logic.
- The `countries.map` option list (components/Form.jsx:93-97) renders caller data. It adds no constraint on `country` beyond the non-empty rule.
- EmailShape.IsEmailShape: zod's own e-mail regular expression is not visible here. The predicate is a `local@host.tld` approximation (local part of letters, digits and `_ ' + - .` without a leading dot, doubled dots, or a trailing dot or `'`; dot-separated host labels of letters, digits and `-`; a top-level domain of two or more letters), so addresses on which the two differ are classified by the approximation.
- ZodString.Passes: `.min(n)` compares a length counted in characters, where zod counts UTF-16 code units, so strings with characters outside the Basic Multilingual Plane are measured shorter than zod measures them.
- Password-strength indicators, resetting the form after a successful submit, and the success callback are not part of components/Form.jsx, so this model does not include them.
- zod's other issue fields (issue codes, `minimum`, `inclusive`) are not modelled. Only each issue's path and message are kept.
