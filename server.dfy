/**
  The server-side registration handler (register.php): read and trim the
  posted fields, run the five per-field rule ladders, and, when no rule
  failed, check the email against the `students` table and insert one row
  holding the hashed password.

  `filter_var($email, FILTER_VALIDATE_EMAIL)` and `password_hash($p, PASSWORD_BCRYPT)`
  are library calls whose internals are not modelled: they enter as the
  parameters `validEmail` and `hash`. The database is the `students` field of
  a `Registrar`; a failing PDO call enters as the parameter `fault`.
*/
module Server {
  import opened Text

  const NAME_REQUIRED := "Full name is required"
  const NAME_TOO_SHORT := "Full name must be at least 3 characters"
  const NAME_NOT_LETTERS := "Full name should contain only letters and spaces"
  const EMAIL_REQUIRED := "Email is required"
  const EMAIL_INVALID := "Invalid email format"
  const PHONE_REQUIRED := "Phone number is required"
  const PHONE_NOT_TEN_DIGITS := "Phone number must be exactly 10 digits"
  const PASSWORD_REQUIRED := "Password is required"
  const PASSWORD_TOO_SHORT := "Password must be at least 6 characters"
  const CONFIRM_REQUIRED := "Please confirm your password"
  const PASSWORDS_DIFFER := "Passwords do not match"
  const EMAIL_TAKEN := "Email already registered. Please use a different email."
  const INSERT_FAILED := "Registration failed. Please try again."
  const STORAGE_ERROR := "An error occurred during registration. Please try again later."

  /** PHP `empty()` on a string: the empty string and the string "0". */
  predicate IsEmpty(s: string) {
    s == "" || s == "0"
  }

  /** PCRE `/^\d{10}$/`: without the D modifier, `$` also matches just before
      a final line feed. */
  predicate PcreMatchesTenDigits(s: string) {
    IsTenDigits(s) || (|s| == 11 && s[10] == '\n' && IsTenDigits(s[..10]))
  }

  // The rule ladders. Each yields the message of its first failing rule.
  // For `/^[a-zA-Z\s]+$/` the final-line-feed reading of `$` adds nothing,
  // since `\s` already matches a line feed.

  function NameError(fullName: string): Option<string> {
    if IsEmpty(fullName) then Some(NAME_REQUIRED)
    else if |fullName| < 3 then Some(NAME_TOO_SHORT)
    else if !MatchesNamePattern(fullName) then Some(NAME_NOT_LETTERS)
    else None
  }

  function EmailError(email: string, validEmail: string -> bool): Option<string> {
    if IsEmpty(email) then Some(EMAIL_REQUIRED)
    else if !validEmail(email) then Some(EMAIL_INVALID)
    else None
  }

  function PhoneError(phone: string): Option<string> {
    if IsEmpty(phone) then Some(PHONE_REQUIRED)
    else if !PcreMatchesTenDigits(phone) then Some(PHONE_NOT_TEN_DIGITS)
    else None
  }

  function PasswordError(password: string): Option<string> {
    if IsEmpty(password) then Some(PASSWORD_REQUIRED)
    else if |password| < 6 then Some(PASSWORD_TOO_SHORT)
    else None
  }

  function ConfirmError(password: string, confirmPassword: string): Option<string> {
    if IsEmpty(confirmPassword) then Some(CONFIRM_REQUIRED)
    else if password != confirmPassword then Some(PASSWORDS_DIFFER)
    else None
  }

  /** The five submitted values after reading and trimming. */
  datatype Candidate = Candidate(
    fullName: string, email: string, phone: string, password: string, confirmPassword: string)

  /** `$_POST[key] ?? ''`. */
  function PostField(post: map<string, string>, key: string): string {
    if key in post then post[key] else ""
  }

  /** Name, email and phone are trimmed; the two passwords are taken as posted. */
  function ReadCandidate(post: map<string, string>): Candidate {
    Candidate(
      PhpTrim(PostField(post, "fullName")),
      PhpTrim(PostField(post, "email")),
      PhpTrim(PostField(post, "phone")),
      PostField(post, "password"),
      PostField(post, "confirmPassword"))
  }

  /** `$errors` after the five ladders: the messages of the failing fields in
      the order name, email, phone, password, confirmation. */
  function ServerErrors(c: Candidate, validEmail: string -> bool): (errors: seq<string>)
    ensures |errors| <= 5
  {
    AsList(NameError(c.fullName))
      + AsList(EmailError(c.email, validEmail))
      + AsList(PhoneError(c.phone))
      + AsList(PasswordError(c.password))
      + AsList(ConfirmError(c.password, c.confirmPassword))
  }

  /** The position (0 for the name .. 4 for the confirmation) of the field a
      validation message belongs to, or -1 for any other text. */
  function MessageField(message: string): int {
    if message == NAME_REQUIRED || message == NAME_TOO_SHORT || message == NAME_NOT_LETTERS then 0
    else if message == EMAIL_REQUIRED || message == EMAIL_INVALID then 1
    else if message == PHONE_REQUIRED || message == PHONE_NOT_TEN_DIGITS then 2
    else if message == PASSWORD_REQUIRED || message == PASSWORD_TOO_SHORT then 3
    else if message == CONFIRM_REQUIRED || message == PASSWORDS_DIFFER then 4
    else -1
  }

  /** Which field each validation message belongs to. */
  lemma MessageFields()
    ensures MessageField(NAME_REQUIRED) == 0 && MessageField(NAME_TOO_SHORT) == 0
    ensures MessageField(NAME_NOT_LETTERS) == 0
    ensures MessageField(EMAIL_REQUIRED) == 1 && MessageField(EMAIL_INVALID) == 1
    ensures MessageField(PHONE_REQUIRED) == 2 && MessageField(PHONE_NOT_TEN_DIGITS) == 2
    ensures MessageField(PASSWORD_REQUIRED) == 3 && MessageField(PASSWORD_TOO_SHORT) == 3
    ensures MessageField(CONFIRM_REQUIRED) == 4 && MessageField(PASSWORDS_DIFFER) == 4
    ensures MessageField(EMAIL_TAKEN) == -1 && MessageField(INSERT_FAILED) == -1
    ensures MessageField(STORAGE_ERROR) == -1
  {
  }

  lemma NameRule(fullName: string)
    ensures NameError(fullName) == None <==>
      !IsEmpty(fullName) && |fullName| >= 3 && MatchesNamePattern(fullName)
    ensures NameError(fullName).Some? ==> MessageField(NameError(fullName).value) == 0
  {
    MessageFields();
  }

  lemma EmailRule(email: string, validEmail: string -> bool)
    ensures EmailError(email, validEmail) == None <==> !IsEmpty(email) && validEmail(email)
    ensures EmailError(email, validEmail).Some? ==> MessageField(EmailError(email, validEmail).value) == 1
  {
    MessageFields();
  }

  lemma PhoneRule(phone: string)
    ensures PhoneError(phone) == None <==> !IsEmpty(phone) && PcreMatchesTenDigits(phone)
    ensures PhoneError(phone).Some? ==> MessageField(PhoneError(phone).value) == 2
  {
    MessageFields();
  }

  /** On a trimmed value the PCRE reading of `$` makes no difference: the
      phone passes exactly when it is ten digits. */
  lemma TrimmedPhoneRule(rawPhone: string)
    ensures PhoneError(PhpTrim(rawPhone)) == None <==> IsTenDigits(PhpTrim(rawPhone))
  {
    var t := PhpTrim(rawPhone);
    if |t| == 11 {
      assert !IsPhpTrimmed(t[|t| - 1]);
    }
  }

  /** The "0" case of `empty()` only changes which message a password gets,
      not whether it is accepted. */
  lemma PasswordRule(password: string)
    ensures PasswordError(password) == None <==> |password| >= 6
    ensures PasswordError(password).Some? ==> MessageField(PasswordError(password).value) == 3
  {
    MessageFields();
  }

  /** A non-empty confirmation that differs from the password is reported as a
      mismatch, whatever the password's own verdict. */
  lemma ConfirmRule(password: string, confirmPassword: string)
    ensures ConfirmError(password, confirmPassword) == None <==>
      !IsEmpty(confirmPassword) && confirmPassword == password
    ensures !IsEmpty(confirmPassword) && confirmPassword != password ==>
      ConfirmError(password, confirmPassword) == Some(PASSWORDS_DIFFER)
    ensures ConfirmError(password, confirmPassword).Some? ==>
      MessageField(ConfirmError(password, confirmPassword).value) == 4
  {
    MessageFields();
  }

  /** The representative inputs: "Al" is too short, "Al Ice" and a ten-digit
      phone pass, five or eleven digits do not, and "0" counts as missing. */
  lemma RuleExamples()
    ensures NameError("Al") == Some(NAME_TOO_SHORT)
    ensures NameError("Al Ice") == None
    ensures NameError("0") == Some(NAME_REQUIRED)
    ensures PhoneError("1234567890") == None
    ensures PhoneError("12345") == Some(PHONE_NOT_TEN_DIGITS)
    ensures PhoneError("12345678901") == Some(PHONE_NOT_TEN_DIGITS)
    ensures PasswordError("12345") == Some(PASSWORD_TOO_SHORT)
    ensures PasswordError("123456") == None
    ensures ConfirmError("123456", "654321") == Some(PASSWORDS_DIFFER)
  {
    assert MatchesNamePattern("Al Ice");
    assert IsTenDigits("1234567890");
  }

  /** The error list is empty exactly when every field passes every rule. */
  lemma ServerErrorsEmptyIff(c: Candidate, validEmail: string -> bool)
    ensures ServerErrors(c, validEmail) == [] <==>
      && !IsEmpty(c.fullName) && |c.fullName| >= 3 && MatchesNamePattern(c.fullName)
      && !IsEmpty(c.email) && validEmail(c.email)
      && !IsEmpty(c.phone) && PcreMatchesTenDigits(c.phone)
      && |c.password| >= 6
      && !IsEmpty(c.confirmPassword) && c.confirmPassword == c.password
  {
    PasswordRule(c.password);
  }

  /** Each field contributes at most one message, and the messages come in
      field order: the fields they belong to strictly increase. */
  lemma ServerErrorsInFieldOrder(c: Candidate, validEmail: string -> bool)
    ensures RankedBelow(ServerErrors(c, validEmail), MessageField, 5)
  {
    var e0 := AsList(NameError(c.fullName));
    assert RankedBelow(e0, MessageField, 1) by {
      NameRule(c.fullName);
    }
    var e1 := e0 + AsList(EmailError(c.email, validEmail));
    assert RankedBelow(e1, MessageField, 2) by {
      EmailRule(c.email, validEmail);
      AppendRanked(e0, EmailError(c.email, validEmail), MessageField, 1);
    }
    var e2 := e1 + AsList(PhoneError(c.phone));
    assert RankedBelow(e2, MessageField, 3) by {
      PhoneRule(c.phone);
      AppendRanked(e1, PhoneError(c.phone), MessageField, 2);
    }
    var e3 := e2 + AsList(PasswordError(c.password));
    assert RankedBelow(e3, MessageField, 4) by {
      PasswordRule(c.password);
      AppendRanked(e2, PasswordError(c.password), MessageField, 3);
    }
    ConfirmRule(c.password, c.confirmPassword);
    AppendRanked(e3, ConfirmError(c.password, c.confirmPassword), MessageField, 4);
  }

  /** Name, email and phone are trimmed before any rule sees them: white space
      (in PHP's sense) added around one of them in the POST data changes
      neither the candidate nor the outcome of the request. */
  lemma PaddingIgnored(
    students: seq<Row>, post: map<string, string>, key: string, lead: string, trail: string,
    validEmail: string -> bool, hash: string -> string, fault: Fault)
    requires key == "fullName" || key == "email" || key == "phone"
    requires forall i :: 0 <= i < |lead| ==> IsPhpTrimmed(lead[i])
    requires forall i :: 0 <= i < |trail| ==> IsPhpTrimmed(trail[i])
    ensures var padded := post[key := lead + PostField(post, key) + trail];
      && ReadCandidate(padded) == ReadCandidate(post)
      && ServerErrors(ReadCandidate(padded), validEmail) == ServerErrors(ReadCandidate(post), validEmail)
      && Handle(students, "POST", padded, validEmail, hash, fault) ==
         Handle(students, "POST", post, validEmail, hash, fault)
  {
    var padded := post[key := lead + PostField(post, key) + trail];
    TrimIgnoresPadding(lead, PostField(post, key), trail, IsPhpTrimmed);
    assert PostField(padded, key) == lead + PostField(post, key) + trail;
    assert ReadCandidate(padded) == ReadCandidate(post);
  }

  /** The password is not trimmed: a leading space counts towards its length. */
  lemma PasswordNotTrimmed()
    ensures ReadCandidate(map["password" := " 12345"]).password == " 12345"
    ensures PasswordError(" 12345") == None
    ensures PasswordError("12345") == Some(PASSWORD_TOO_SHORT)
  {
  }

  /** A field missing from the POST data is reported as required. */
  lemma MissingFieldsRequired(post: map<string, string>, validEmail: string -> bool)
    ensures var errors := ServerErrors(ReadCandidate(post), validEmail);
      && ("fullName" !in post ==> NAME_REQUIRED in errors)
      && ("email" !in post ==> EMAIL_REQUIRED in errors)
      && ("phone" !in post ==> PHONE_REQUIRED in errors)
      && ("password" !in post ==> PASSWORD_REQUIRED in errors)
      && ("confirmPassword" !in post ==> CONFIRM_REQUIRED in errors)
  {
    var c := ReadCandidate(post);
    assert PhpTrim("") == "";
    var n, e, p := AsList(NameError(c.fullName)), AsList(EmailError(c.email, validEmail)), AsList(PhoneError(c.phone));
    var w, k := AsList(PasswordError(c.password)), AsList(ConfirmError(c.password, c.confirmPassword));
    assert ServerErrors(c, validEmail) == n + e + p + w + k;
    if "fullName" !in post {
      assert n == [NAME_REQUIRED];
    }
    if "email" !in post {
      assert e == [EMAIL_REQUIRED];
    }
    if "phone" !in post {
      assert p == [PHONE_REQUIRED];
    }
    if "password" !in post {
      assert w == [PASSWORD_REQUIRED];
    }
    if "confirmPassword" !in post {
      assert k == [CONFIRM_REQUIRED];
    }
  }

  /** A row of the `students` table: id and creation time are assigned by the
      database and are not modelled. */
  datatype Row = Row(fullName: string, email: string, phone: string, passwordHash: string)

  /** How the two PDO statements behave: both succeed; the lookup throws; the
      insert's `execute()` returns false; or the insert throws. */
  datatype Fault = NoFault | LookupThrows | InsertReturnsFalse | InsertThrows

  /** What one request produces: `$errors`, `$success` and the table afterwards. */
  datatype Response = Response(errors: seq<string>, success: bool, students: seq<Row>)

  /** `SELECT id FROM students WHERE email = :email` returns a row
      (PostgreSQL compares text exactly). */
  predicate EmailTaken(students: seq<Row>, email: string) {
    exists i :: 0 <= i < |students| && students[i].email == email
  }

  /** The UNIQUE constraint of the `email` column. */
  predicate EmailsUnique(students: seq<Row>) {
    forall i, j :: 0 <= i < j < |students| ==> students[i].email != students[j].email
  }

  /** The row a successful request inserts. */
  function NewRow(c: Candidate, hash: string -> string): Row {
    Row(c.fullName, c.email, c.phone, hash(c.password))
  }

  /** The lookup and the conditional insert, run once validation passed. */
  function Store(students: seq<Row>, c: Candidate, hash: string -> string, fault: Fault): (r: Response)
    ensures r.success <==> fault == NoFault && !EmailTaken(students, c.email)
    ensures r.success ==> r.errors == [] && r.students == students + [NewRow(c, hash)]
    ensures !r.success ==> |r.errors| == 1 && r.students == students
    // Which single message a failure reports: the duplicate message when the
    // lookup ran and found the email, otherwise one of the two fixed storage
    // messages, never the exception's own text.
    ensures r.errors == [EMAIL_TAKEN] <==> !fault.LookupThrows? && EmailTaken(students, c.email)
    ensures r.errors == [INSERT_FAILED] <==> fault == InsertReturnsFalse && !EmailTaken(students, c.email)
    ensures r.errors == [STORAGE_ERROR] <==>
      fault == LookupThrows || (fault == InsertThrows && !EmailTaken(students, c.email))
    ensures EmailsUnique(students) ==> EmailsUnique(r.students)
  {
    if fault.LookupThrows? then Response([STORAGE_ERROR], false, students)
    else if EmailTaken(students, c.email) then Response([EMAIL_TAKEN], false, students)
    else match fault
      case InsertThrows => Response([STORAGE_ERROR], false, students)
      case InsertReturnsFalse => Response([INSERT_FAILED], false, students)
      case NoFault =>
        var after := students + [NewRow(c, hash)];
        assert forall i :: 0 <= i < |students| ==> after[i] == students[i];
        Response([], true, after)
  }

  /** One request to register.php, as a function of the table before it. */
  function Handle(
    students: seq<Row>, requestMethod: string, post: map<string, string>,
    validEmail: string -> bool, hash: string -> string, fault: Fault): (r: Response)
    // Anything but a POST does nothing.
    ensures requestMethod != "POST" ==> r == Response([], false, students)
    // A failed validation is reported as such and the table is neither read nor written.
    ensures var errors := ServerErrors(ReadCandidate(post), validEmail);
      requestMethod == "POST" && errors != [] ==> r == Response(errors, false, students)
    // Success exactly when validation passed, the email is new and storage worked.
    ensures r.success <==>
      && requestMethod == "POST"
      && ServerErrors(ReadCandidate(post), validEmail) == []
      && !EmailTaken(students, ReadCandidate(post).email)
      && fault == NoFault
    // On success exactly one row is appended and no error is reported; otherwise
    // the table is unchanged and a POST reports at least one error.
    ensures r.success ==> r.errors == [] && r.students == students + [NewRow(ReadCandidate(post), hash)]
    ensures !r.success ==> r.students == students
    ensures requestMethod == "POST" && !r.success ==> r.errors != []
    ensures EmailsUnique(students) ==> EmailsUnique(r.students)
  {
    if requestMethod != "POST" then Response([], false, students)
    else
      var c := ReadCandidate(post);
      var errors := ServerErrors(c, validEmail);
      if errors != [] then Response(errors, false, students)
      else Store(students, c, hash, fault)
  }

  /** A valid request whose email is already in the table gets exactly the
      duplicate message and leaves the table unchanged. */
  lemma DuplicateEmailRejected(
    students: seq<Row>, post: map<string, string>,
    validEmail: string -> bool, hash: string -> string, fault: Fault)
    requires ServerErrors(ReadCandidate(post), validEmail) == []
    requires EmailTaken(students, ReadCandidate(post).email)
    requires fault != LookupThrows
    ensures Handle(students, "POST", post, validEmail, hash, fault) == Response([EMAIL_TAKEN], false, students)
  {
  }

  /** Registering the same email twice: the first request inserts a row, the
      second (valid, and reaching the lookup) is rejected as a duplicate and
      creates no second row. */
  lemma SecondRegistrationRejected(
    students: seq<Row>, first: map<string, string>, second: map<string, string>,
    validEmail: string -> bool, hash1: string -> string, hash2: string -> string, fault: Fault)
    requires Handle(students, "POST", first, validEmail, hash1, NoFault).success
    requires ReadCandidate(second).email == ReadCandidate(first).email
    requires ServerErrors(ReadCandidate(second), validEmail) == []
    requires fault != LookupThrows
    ensures var after := Handle(students, "POST", first, validEmail, hash1, NoFault).students;
      Handle(after, "POST", second, validEmail, hash2, fault) == Response([EMAIL_TAKEN], false, after)
  {
    var after := Handle(students, "POST", first, validEmail, hash1, NoFault).students;
    assert after[|students|] == NewRow(ReadCandidate(first), hash1);
    assert EmailTaken(after, ReadCandidate(second).email);
  }

  /** When the hash function never returns its argument, no stored row holds the
      submitted password in plain text. */
  lemma StoredPasswordIsHashed(
    students: seq<Row>, post: map<string, string>,
    validEmail: string -> bool, hash: string -> string)
    requires forall p :: hash(p) != p
    requires Handle(students, "POST", post, validEmail, hash, NoFault).success
    ensures var after := Handle(students, "POST", post, validEmail, hash, NoFault).students;
      |after| == |students| + 1
      && after[|students|].passwordHash == hash(ReadCandidate(post).password)
      && after[|students|].passwordHash != ReadCandidate(post).password
  {
  }

  // The five ladders as register.php runs them, each appending at most one
  // message to `$errors`.

  method CheckFullName(errors: seq<string>, fullName: string) returns (errors': seq<string>)
    ensures errors' == errors + AsList(NameError(fullName))
  {
    errors' := errors;
    if IsEmpty(fullName) {
      errors' := errors' + [NAME_REQUIRED];
    } else if |fullName| < 3 {
      errors' := errors' + [NAME_TOO_SHORT];
    } else if !MatchesNamePattern(fullName) {
      errors' := errors' + [NAME_NOT_LETTERS];
    }
  }

  method CheckEmail(errors: seq<string>, email: string, validEmail: string -> bool)
    returns (errors': seq<string>)
    ensures errors' == errors + AsList(EmailError(email, validEmail))
  {
    errors' := errors;
    if IsEmpty(email) {
      errors' := errors' + [EMAIL_REQUIRED];
    } else if !validEmail(email) {
      errors' := errors' + [EMAIL_INVALID];
    }
  }

  method CheckPhone(errors: seq<string>, phone: string) returns (errors': seq<string>)
    ensures errors' == errors + AsList(PhoneError(phone))
  {
    errors' := errors;
    if IsEmpty(phone) {
      errors' := errors' + [PHONE_REQUIRED];
    } else if !PcreMatchesTenDigits(phone) {
      errors' := errors' + [PHONE_NOT_TEN_DIGITS];
    }
  }

  method CheckPassword(errors: seq<string>, password: string) returns (errors': seq<string>)
    ensures errors' == errors + AsList(PasswordError(password))
  {
    errors' := errors;
    if IsEmpty(password) {
      errors' := errors' + [PASSWORD_REQUIRED];
    } else if |password| < 6 {
      errors' := errors' + [PASSWORD_TOO_SHORT];
    }
  }

  method CheckConfirmPassword(errors: seq<string>, password: string, confirmPassword: string)
    returns (errors': seq<string>)
    ensures errors' == errors + AsList(ConfirmError(password, confirmPassword))
  {
    errors' := errors;
    if IsEmpty(confirmPassword) {
      errors' := errors' + [CONFIRM_REQUIRED];
    } else if password != confirmPassword {
      errors' := errors' + [PASSWORDS_DIFFER];
    }
  }

  /** The `students` table together with the handler that registers into it. */
  class Registrar {
    var students: seq<Row>

    ghost predicate Valid()
      reads this
    {
      EmailsUnique(students)
    }

    constructor (initial: seq<Row>)
      requires EmailsUnique(initial)
      ensures Valid() && students == initial
    {
      students := initial;
    }

    /** register.php lines 19-107: builds `$errors` by appending, sets
        `$success`, and inserts at most one row. */
    method HandleRequest(
      requestMethod: string, post: map<string, string>,
      validEmail: string -> bool, hash: string -> string, fault: Fault)
      returns (errors: seq<string>, success: bool)
      requires Valid()
      modifies this
      ensures Valid()
      ensures Response(errors, success, students) ==
              Handle(old(students), requestMethod, post, validEmail, hash, fault)
    {
      errors := [];
      success := false;
      if requestMethod == "POST" {
        var fullName := PhpTrim(PostField(post, "fullName"));
        var email := PhpTrim(PostField(post, "email"));
        var phone := PhpTrim(PostField(post, "phone"));
        var password := PostField(post, "password");
        var confirmPassword := PostField(post, "confirmPassword");

        errors := CheckFullName(errors, fullName);
        errors := CheckEmail(errors, email, validEmail);
        errors := CheckPhone(errors, phone);
        errors := CheckPassword(errors, password);
        errors := CheckConfirmPassword(errors, password, confirmPassword);

        var candidate := Candidate(fullName, email, phone, password, confirmPassword);
        assert candidate == ReadCandidate(post);
        assert errors == ServerErrors(candidate, validEmail) by {
          assert [] + AsList(NameError(fullName)) == AsList(NameError(fullName));
        }
        if errors == [] {
          errors, success := Register(candidate, hash, fault);
        }
      }
    }

    /** register.php lines 69-106: the duplicate check and the insert, run
        once `$errors` is empty. */
    method Register(c: Candidate, hash: string -> string, fault: Fault)
      returns (errors: seq<string>, success: bool)
      requires Valid()
      modifies this
      ensures Valid()
      ensures Response(errors, success, students) == Store(old(students), c, hash, fault)
    {
      errors := [];
      success := false;
      if fault == LookupThrows {
        errors := errors + [STORAGE_ERROR];
      } else if EmailTaken(students, c.email) {
        errors := errors + [EMAIL_TAKEN];
      } else {
        var hashedPassword := hash(c.password);
        if fault == InsertThrows {
          errors := errors + [STORAGE_ERROR];
        } else if fault == InsertReturnsFalse {
          errors := errors + [INSERT_FAILED];
        } else {
          students := students + [Row(c.fullName, c.email, c.phone, hashedPassword)];
          success := true;
        }
      }
    }
  }
}
