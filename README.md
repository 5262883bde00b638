# Student registration: validation and registration

A Dafny model of the validation-and-registration workflow of a small PHP/JavaScript
student registration form.

The server side is `register.php`. It reads five form fields and trims name, email and
phone. It runs one rule ladder per field and collects at most one message per field,
in field order. Only when no message was produced does it look the email up in the
`students` table. It then either reports a duplicate or inserts one row holding the
hashed password and sets `$success`.

The browser side is `script.js`. It has five validators, and each shows the first
failing rule of its field in that field's error element or empties it. The submit
handler runs all five and submits only when every one passed. An input filter keeps
only the digits of the phone field.

The project has four modules:

- `Text` (`text.dfy`) holds the character classes of the two regular expression
  dialects, the two `trim` functions as parameterised slicing, and the digit filter.
  It also holds the ranking predicate used to state field order.
- `Server` (`server.dfy`) holds the rule ladders with PHP's `empty()` and PCRE's `$`
  written out. It has the error list `ServerErrors`, the storage step `Store`, and the
  whole request `Handle`. It has the `Registrar` class, whose student table is a `seq`
  field. There, `HandleRequest` builds `$errors` step by step (one method per ladder),
  and `Register` performs the check-then-insert. Both are proved equal to the functions.
- `Client` (`client.dfy`) holds the email regex as "there are split points". It has
  the browser's ladders, and the `RegistrationForm` class, whose input values and
  error texts are maps from the five fields. The five validators, `showError`,
  `clearError`, the submit handler and the phone filter are methods on it. `Edit` is
  the user typing into an input. It stands for the browser and has no counterpart in
  the script.
- `CrossCheck` (`crosscheck.dfy`) compares the two sides.
  - For name, phone, password and confirmation, the ladders agree on every value
    other than `"0"`.
  - A form the browser submits passes the server's validation, when name, email and
    phone hold no NUL or form feed and `filter_var` accepts the address. It is then
    registered when the table does not hold the address yet and storage works.
  - Conversely, when name, email and phone hold no NUL or form feed, the server's
    acceptance implies the browser's for the four fields other than email.
  - Counterexamples show where the two sides part: a typed `"0"`, a trailing form
    feed, and a trailing NUL.

Foreign calls and the environment become parameters:

- `filter_var($email, FILTER_VALIDATE_EMAIL)` is `validEmail: string -> bool`.
- `password_hash(..., PASSWORD_BCRYPT)` is `hash: string -> string`.
- `$_SERVER['REQUEST_METHOD']` is `requestMethod`.
- Whether a PDO call throws, or `execute()` returns false, is a `Fault` value.

Email equality in the lookup is exact string equality. This matches PostgreSQL's
`text` comparison (database.php sets up a PostgreSQL connection).

The model keeps two choices of the code that a stricter design would make differently:

- A PDO exception during the insert, including a uniqueness violation raised by the
  storage layer, yields the generic "An error occurred during registration" message,
  not the duplicate-email message.
- Success is the `$success` flag; no new identifier is returned.

## Model

| member | source | states |
|---|---|---|
| Text.IsRegexSpace | register.php:35 | `\s` of both regex dialects on ASCII: space, tab, line feed, vertical tab, form feed, carriage return (a definition; no contract) |
| Text.IsPhpTrimmed | register.php:22-24 | the characters PHP `trim` removes by default, NUL included and form feed not (a definition; no contract) |
| Text.IsJsTrimmed | script.js:54 | the ASCII characters JavaScript `trim` removes: the ASCII white space of `\s`, form feed included and NUL not (a definition; no contract) |
| Text.MatchesNamePattern | register.php:35 | `/^[a-zA-Z\s]+$/`: non-empty, every character a letter or white space (a definition; no contract) |
| Text.IsTenDigits | script.js:114 | `/^\d{10}$/` in JavaScript: exactly ten ASCII digits (a definition; no contract) |
| Text.PhpTrim | register.php:22-24 | PHP `trim`: `Trim` with PHP's character set; its properties are stated by `TrimIsSlice`, `TrimIgnoresPadding` and `PhpTrimIsJsTrim` (no contract of its own) |
| Text.JsTrim | script.js:54 | JavaScript `trim`: `Trim` with the ASCII white space; its properties are stated by `TrimIsSlice` and `PhpTrimIsJsTrim` (no contract of its own) |
| Text.Trim | register.php:22-24 | the trimmed value neither starts nor ends with a stripped character and is no longer than the input |
| Text.TrimIsSlice | register.php:22-24 | trimming removes a run of stripped characters at each end and keeps the contiguous middle slice unchanged |
| Text.DropLeadingIsSuffix | register.php:22-24 | cutting leading characters leaves a suffix, all of whose removed characters were stripped ones |
| Text.DropTrailingIsPrefix | register.php:22-24 | cutting trailing characters leaves a prefix, all of whose removed characters were stripped ones |
| Text.DropLeadingAgrees | script.js:54 | two strip sets that agree on the characters present cut the same leading run |
| Text.DropTrailingAgrees | script.js:54 | two strip sets that agree on the characters present cut the same trailing run |
| Text.TrimAgrees | script.js:54 | two strip sets that agree on the characters present trim to the same value |
| Text.PhpTrimIsJsTrim | script.js:54 | PHP `trim` and JavaScript `String.prototype.trim` give the same value on any ASCII string without NUL or form feed (JavaScript's `trim` also strips non-ASCII spaces such as U+00A0 and U+FEFF, which the model does not represent) |
| Text.TrimKeepsUnpadded | script.js:105 | a value with no strippable character is unchanged by trimming |
| Text.TrimIgnoresPadding | register.php:22-24 | padding a value with stripped characters on either side does not change its trim |
| Text.DropLeadingSkipsPad | register.php:22-24 | stripped characters in front are all cut away |
| Text.DropTrailingSkipsPad | register.php:22-24 | stripped characters at the end are all cut away |
| Text.DropLeadingKeepsPad | register.php:22-24 | cutting the front of `s + pad` cuts the front of `s` and keeps `pad`, unless `s` vanishes, when `pad` goes too |
| Text.DigitsOnly | script.js:207-209 | the filtered phone value holds only digits, is no longer than the input, and is the input itself when that was all digits |
| Text.DigitsOnlyKeepsDigits | script.js:208 | every digit of the input occurs in the result exactly as often as in the input, and no other character occurs; with `DigitsOnlyConcat` the result is exactly the input's digits in their order |
| Text.DigitsOnlyConcat | script.js:208 | the filter works character by character: filtering a concatenation concatenates the filtered parts, so digits keep their order |
| Text.DigitsOnlyIdempotent | script.js:208 | applying the filter twice equals applying it once |
| Text.AppendRanked | register.php:31-65 | appending at most one message of the next field keeps the messages strictly in field order |
| Server.IsEmpty | register.php:31 | PHP `empty()` on a string: `""` and `"0"` (a definition; no contract) |
| Server.PcreMatchesTenDigits | register.php:49 | PCRE `/^\d{10}$/` without the D modifier: ten digits, optionally followed by one final line feed (a definition; no contract) |
| Server.NameError | register.php:31-37 | the name ladder: the first failing rule's message or `None`; its contract is `NameRule` |
| Server.EmailError | register.php:40-44 | the email ladder; its contract is `EmailRule` |
| Server.PhoneError | register.php:47-51 | the phone ladder; its contract is `PhoneRule` and `TrimmedPhoneRule` |
| Server.PasswordError | register.php:54-58 | the password ladder; its contract is `PasswordRule` |
| Server.ConfirmError | register.php:61-65 | the confirmation ladder; its contract is `ConfirmRule` |
| Server.PostField | register.php:22-26 | `$_POST[key] ?? ''` (a definition; no contract) |
| Server.ReadCandidate | register.php:22-26 | the five values as read, name, email and phone trimmed; its contract is `PaddingIgnored` and `PasswordNotTrimmed` |
| Server.ServerErrors | register.php:31-65 | validation produces at most one message per field, so at most five |
| Server.MessageFields | register.php:31-65 | each of the eleven validation messages belongs to exactly its own field |
| Server.NameRule | register.php:31-37 | the name passes exactly when it is not `""`/`"0"`, has at least 3 characters and is all letters and white space; any message is a name message |
| Server.EmailRule | register.php:40-44 | the email passes exactly when it is not `""`/`"0"` and `filter_var` accepts it; any message is an email message |
| Server.PhoneRule | register.php:47-51 | the phone passes exactly when it is not `""`/`"0"` and PCRE `/^\d{10}$/` matches, allowing a final line feed; any message is a phone message |
| Server.TrimmedPhoneRule | register.php:47-51 | on a trimmed value the phone passes exactly when it is ten ASCII digits |
| Server.PasswordRule | register.php:54-58 | the untrimmed password passes exactly when it has at least 6 characters |
| Server.ConfirmRule | register.php:61-65 | the confirmation passes exactly when it is not `""`/`"0"` and equals the password; a non-empty different value gets "Passwords do not match" whatever the password is |
| Server.RuleExamples | register.php:31-51 | `"Al"` is too short, `"Al Ice"` passes, `"0"` is "required"; `"1234567890"` passes, while `"12345"` and `"12345678901"` are rejected |
| Server.ServerErrorsEmptyIff | register.php:31-68 | the error list is empty exactly when all five rules pass |
| Server.ServerErrorsInFieldOrder | register.php:31-65 | the messages appear strictly in the order name, email, phone, password, confirmation |
| Server.PaddingIgnored | register.php:22-24 | white space (in PHP's sense) added around the posted name, email or phone changes neither the values the rules see nor the outcome of the request |
| Server.PasswordNotTrimmed | register.php:25 | the password is taken as posted: `" 12345"` passes the length rule while `"12345"` is too short |
| Server.MissingFieldsRequired | register.php:22-65 | a field absent from the request gets its "required" message |
| Server.EmailTaken | register.php:71-76 | the lookup finds a row with exactly this email (a definition; no contract) |
| Server.EmailsUnique | database.php:47 | the UNIQUE constraint on the `email` column: no two rows share an email; it is the `Registrar` invariant, kept by `Store`, `Handle`, `Register` and `HandleRequest` (a definition; no contract) |
| Server.NewRow | register.php:80-92 | the inserted row: trimmed name, email and phone with the hash of the password (a definition; no contract) |
| Server.Store | register.php:69-106 | success exactly when no storage fault occurs and the email is not yet in the table; on success one row with the hashed password is appended and no message is added; otherwise exactly one message and the table unchanged; the message is the duplicate one exactly when the lookup ran and found the email, "Registration failed" exactly when the insert returned false, and the generic storage message exactly when the lookup or the insert threw; distinct emails stay distinct |
| Server.Handle | register.php:19-107 | a non-POST does nothing; failed validation reports its messages and leaves the table untouched; success exactly when validation passes, the email is new and storage works; success appends exactly one row, failure changes nothing and reports an error |
| Server.DuplicateEmailRejected | register.php:71-77 | a valid request whose email is already stored gets exactly the duplicate message and leaves the table unchanged |
| Server.SecondRegistrationRejected | register.php:71-96 | after a successful registration, a valid request with the same email is rejected |
| Server.StoredPasswordIsHashed | register.php:80-92 | the stored password column is the hash of the posted password, never the password itself (for a hash with no fixed points) |
| Server.CheckFullName | register.php:31-37 | the name ladder appends exactly the name's first failing message, or nothing |
| Server.CheckEmail | register.php:40-44 | the email ladder appends exactly the email's first failing message, or nothing |
| Server.CheckPhone | register.php:47-51 | the phone ladder appends exactly the phone's first failing message, or nothing |
| Server.CheckPassword | register.php:54-58 | the password ladder appends exactly the password's first failing message, or nothing |
| Server.CheckConfirmPassword | register.php:61-65 | the confirmation ladder appends exactly its first failing message, or nothing |
| Server.Registrar.constructor | register.php:71-84 | the table the handler queries and inserts into starts as any table with distinct emails |
| Server.Registrar.HandleRequest | register.php:19-107 | the imperative handler returns the messages and flag of `Handle` and leaves the table `Handle` describes; emails stay distinct |
| Server.Registrar.Register | register.php:69-106 | the imperative check-then-insert produces exactly the outcome of `Store`; emails stay distinct |
| Client.EmailSplit | script.js:90 | the email regex matches with its `@` and its final `\.` at the given positions: non-empty local part, non-empty domain, 2-6 letters after the dot, each in its character class (a definition; no contract) |
| Client.MatchesEmailPattern | script.js:90-91 | the regex matches: some choice of the two positions works; decided by `EmailPatternDecided` (no contract of its own) |
| Client.NameError | script.js:53-74 | the browser's name ladder; its contract is `NameRule` |
| Client.EmailError | script.js:80-98 | the browser's email ladder; its contract is `EmailRule` |
| Client.PhoneError | script.js:104-121 | the browser's phone ladder; its contract is `PhoneRule` |
| Client.PasswordError | script.js:127-143 | the browser's password ladder; its contract is `PasswordRule` |
| Client.ConfirmError | script.js:149-166 | the browser's confirmation ladder; its contract is `ConfirmRule` |
| Client.FieldError | script.js:54 | which ladder judges which field, on the trimmed value for name, email and phone (a definition; no contract) |
| Client.EmailSplitIsDetermined | script.js:90 | a match of the email regex splits at the first `@` and at the last `.` |
| Client.EmailPatternDecided | script.js:90-91 | the regex matches exactly when the split at the first `@` and the last `.` satisfies the character classes and the 2-6 letter top-level part |
| Client.NameRule | script.js:53-74 | the name validator passes exactly when the trimmed name has at least 3 characters, all letters and white space; any message is one of its three |
| Client.EmailRule | script.js:80-98 | the email validator passes exactly when the trimmed address matches the regex; any message is one of its two |
| Client.PhoneRule | script.js:104-121 | the phone validator passes exactly when the trimmed value is ten ASCII digits; any message is one of its two |
| Client.PasswordRule | script.js:127-143 | the password validator passes exactly when the untrimmed password has at least 6 characters; an empty one gets "Password is required"; any message is one of its two |
| Client.ConfirmRule | script.js:149-166 | the confirmation validator passes exactly when the confirmation is non-empty and equals the password; any message is one of its two |
| Client.EmailAccepted | script.js:90 | `a@b.co` matches the email regex |
| Client.DottedEmailAccepted | script.js:90 | `first.last@mail.example.org` matches the email regex |
| Client.EmailWithoutAtRejected | script.js:90 | no string without `@` matches the email regex |
| Client.EmailWithoutDotRejected | script.js:90 | no string without `.` matches the email regex |
| Client.EmailShortTopLevelRejected | script.js:90 | no string whose last `.` is followed by fewer than two characters matches |
| Client.EmailLongTopLevelRejected | script.js:90 | no string whose last `.` is followed by more than six characters matches |
| Client.EmailEmptyLocalPartRejected | script.js:90 | no string starting with `@` matches: the local part is never empty |
| Client.FilteredPhoneRule | script.js:207-209 | after the input filter the phone needs no trimming, and it passes exactly when the typed text held ten digits |
| Client.ErrorTextShowsVerdict | script.js:171-182 | a field's error element is empty exactly when its validator passed |
| Client.RegistrationForm.constructor | script.js:10-16 | the script starts on a page with the given input values; that every error element starts empty is an assumption about the page's markup, which is not part of the script |
| Client.RegistrationForm.ShowError | script.js:171-174 | `showError` sets that field's error text to the message and touches nothing else |
| Client.RegistrationForm.ClearError | script.js:179-182 | `clearError` empties that field's error text and touches nothing else |
| Client.RegistrationForm.ValidateFullName | script.js:53-74 | returns true exactly when the name rule passes; afterwards the name's error text is the first failing message or empty, and other fields' texts are unchanged |
| Client.RegistrationForm.ValidateEmail | script.js:80-98 | returns true exactly when the email rule passes; afterwards the email's error text is the first failing message or empty, and other fields' texts are unchanged |
| Client.RegistrationForm.ValidatePhone | script.js:104-121 | returns true exactly when the phone rule passes; afterwards the phone's error text is the first failing message or empty, and other fields' texts are unchanged |
| Client.RegistrationForm.ValidatePassword | script.js:127-143 | returns true exactly when the password rule passes; afterwards the password's error text is the first failing message or empty, and other fields' texts are unchanged |
| Client.RegistrationForm.ValidateConfirmPassword | script.js:149-166 | returns true exactly when the confirmation rule passes; afterwards its error text is the first failing message or empty, and other fields' texts are unchanged |
| Client.RegistrationForm.Submit | script.js:26-46 | all five validators run, so every error element shows its field's current verdict, and the form is submitted exactly when all five pass |
| Client.RegistrationForm.OnPhoneInput | script.js:207-209 | the phone input keeps only its digits; nothing else changes |
| CrossCheck.NameLaddersAgree | script.js:57-70 | the browser's and the server's name ladders give the same verdict and message on every value except `"0"` |
| CrossCheck.PhoneLaddersAgree | script.js:105-117 | the two phone ladders, each after its own trim, give the same verdict and message on every raw value without NUL or form feed whose trim is not `"0"` |
| CrossCheck.PasswordLaddersAgree | script.js:131-139 | the two password ladders agree on every value except `"0"` |
| CrossCheck.ConfirmLaddersAgree | script.js:154-162 | the two confirmation ladders agree whenever the confirmation is not `"0"` |
| CrossCheck.ZeroDiverges | register.php:31-65 | a typed `"0"` gets the "required" message from the server but a later rule's message from the browser, for name, phone, password and confirmation |
| CrossCheck.PostOf | script.js:42 | the submitted request carries each form value under its field's name; that the controls are named `fullName`, `email`, `phone`, `password` and `confirmPassword` and that the form posts to register.php by POST is an assumption about the page's markup, which is not part of the script |
| CrossCheck.ClientAcceptedIsServerValid | script.js:40-42 | a form the browser submits passes all five server rules, when its text fields hold no NUL or form feed and `filter_var` accepts the trimmed address |
| CrossCheck.ServerValidIsClientAcceptedBesidesEmail | register.php:31-65 | a request the server accepts passes the browser's name, phone, password and confirmation validators, when its name and phone hold no NUL or form feed |
| CrossCheck.ClientSubmissionRegisters | register.php:68-96 | a form the browser submits, whose name, email and phone hold no NUL or form feed, whose address `filter_var` accepts and is not yet in the table, is registered with exactly one new row when storage works |
| CrossCheck.FormFeedPhoneDiverges | script.js:105 | `"1234567890"` followed by a form feed passes the browser's phone check and fails the server's |
| CrossCheck.NulPhoneDiverges | register.php:24 | `"1234567890"` followed by NUL passes the server's phone check and fails the browser's |

## Left out

- database.php is not part of this model. It covers reading the environment, the PDO
  connection, `die` on failure and the `CREATE TABLE IF NOT EXISTS` schema. The table
  is a `seq` of rows.
- The `id` and `created_at` columns are not modelled. The storage layer generates
  both, and nothing in the core reads them.
- `filter_var(FILTER_VALIDATE_EMAIL)` is left abstract. It is a library call, modelled
  as the `validEmail` parameter, and its rules are not reproduced.
- Bcrypt `password_hash` is left abstract. It is a salted, nondeterministic library
  call, modelled as the `hash` parameter. `StoredPasswordIsHashed` takes "no password
  hashes to itself" as a precondition.
- The lookup's `execute()` result is ignored at register.php:74, and `Fault` has no
  "lookup returns false" case. Such a lookup would report no rows, so the email would
  be read as "not found". Under `ERRMODE_EXCEPTION` (database.php:25) a failed lookup
  throws instead, which `LookupThrows` covers.
- PDO exceptions are a `Fault` parameter: the lookup throws, the insert throws, or
  `execute()` returns false. PDO runs in exception mode, so the last case hardly
  arises. It is kept because the code handles it.
- Storage-level failures are not told apart. A `VARCHAR` length limit or a uniqueness
  violation at insert time appears only as "the insert throws".
- POST values are modelled as strings only. A value sent as an array (`fullName[]=x`)
  makes PHP 8's `trim()` at register.php:22 throw a `TypeError`, which the
  `catch (PDOException ...)` at register.php:102 does not catch, so the request fails
  with an uncaught error. The model has no such outcome.
- `error_log` of the exception text is left out, because it is output only.
- The check-then-insert race between concurrent requests is left out. Requests are
  handled one at a time.
- HTML rendering, `htmlspecialchars` and CSS are left out (register.php:111-209).
  So are the message box (`showMessage`, `clearMessageBox`, `scrollIntoView`), the
  `error-input` class that `showError`/`clearError` toggle, and `e.preventDefault()`.
  They are presentation only.
- The blur listeners (script.js:19-23) are left out. They call the same validator
  methods one at a time, and the model lets any validator method be called at any time.
- Strings are ASCII character sequences. There is no Unicode: PHP `strlen` counts bytes
  and JavaScript `.length` counts UTF-16 units, and JavaScript's `trim` and `\s` also
  cover non-ASCII spaces. Both `\s` sets are the ASCII white space
  ` \t\n\v\f\r`.
- Client.RegistrationForm.Edit has no row: it is the browser changing an input's value,
  not code of the script.
