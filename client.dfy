/**
  The browser-side validation of the registration form (script.js): five
  validators, each reporting the first failing rule of its field in that
  field's error element; the submit handler that runs all five and submits
  only when every one passed; and the filter that keeps only digits in the
  phone input.
*/
module Client {
  import opened Text

  const NAME_REQUIRED := "Full name is required"
  const NAME_TOO_SHORT := "Full name must be at least 3 characters"
  const NAME_NOT_LETTERS := "Full name should contain only letters and spaces"
  const EMAIL_REQUIRED := "Email is required"
  const EMAIL_INVALID := "Please enter a valid email address"
  const PHONE_REQUIRED := "Phone number is required"
  const PHONE_NOT_TEN_DIGITS := "Phone number must be exactly 10 digits"
  const PASSWORD_REQUIRED := "Password is required"
  const PASSWORD_TOO_SHORT := "Password must be at least 6 characters"
  const CONFIRM_REQUIRED := "Please confirm your password"
  const PASSWORDS_DIFFER := "Passwords do not match"

  /** `[a-zA-Z0-9._-]`, the characters of the local part. */
  predicate IsLocalChar(c: char) {
    IsAsciiLetter(c) || IsAsciiDigit(c) || c == '.' || c == '_' || c == '-'
  }

  /** `[a-zA-Z0-9.-]`, the characters of the domain. */
  predicate IsDomainChar(c: char) {
    IsAsciiLetter(c) || IsAsciiDigit(c) || c == '.' || c == '-'
  }

  /** `/^[a-zA-Z0-9._-]+@[a-zA-Z0-9.-]+\.[a-zA-Z]{2,6}$/` matches `s` with its
      `@` at position `at` and its `\.` at position `dot`. */
  predicate EmailSplit(s: string, at: int, dot: int) {
    && 1 <= at && at + 2 <= dot && dot + 3 <= |s| <= dot + 7
    && s[at] == '@' && s[dot] == '.'
    && (forall i :: 0 <= i < at ==> IsLocalChar(s[i]))
    && (forall i :: at < i < dot ==> IsDomainChar(s[i]))
    && (forall i :: dot < i < |s| ==> IsAsciiLetter(s[i]))
  }

  /** The email regex matches `s`: some choice of the two split points works. */
  predicate MatchesEmailPattern(s: string) {
    exists at, dot :: 0 <= at < dot < |s| && EmailSplit(s, at, dot)
  }

  /** The first position of `c` in `s`, or -1. */
  function IndexOf(s: string, c: char): (i: int)
    ensures -1 <= i < |s|
    ensures 0 <= i ==> s[i] == c
    ensures forall j :: 0 <= j < |s| && (i == -1 || j < i) ==> s[j] != c
  {
    if s == [] then -1
    else if s[0] == c then 0
    else var k := IndexOf(s[1..], c); if k == -1 then -1 else k + 1
  }

  /** The last position of `c` in `s`, or -1. */
  function LastIndexOf(s: string, c: char): (i: int)
    ensures -1 <= i < |s|
    ensures 0 <= i ==> s[i] == c
    ensures forall j :: i < j < |s| ==> s[j] != c
  {
    if s == [] then -1
    else if s[|s| - 1] == c then |s| - 1
    else LastIndexOf(s[..|s| - 1], c)
  }

  /** The regex can match in one way only: `@` occurs in none of the three
      character classes, so the split is at the first `@`; a letter is never
      a `.`, so the final `\.` is the last `.` of the string. */
  lemma EmailSplitIsDetermined(s: string, at: int, dot: int)
    requires EmailSplit(s, at, dot)
    ensures at == IndexOf(s, '@') && dot == LastIndexOf(s, '.')
  {

  }

  /** The regex test decided by the split it must use. */
  lemma EmailPatternDecided(s: string)
    ensures MatchesEmailPattern(s) <==>
      var at, dot := IndexOf(s, '@'), LastIndexOf(s, '.');
      0 <= at < dot && EmailSplit(s, at, dot)
  {
    if MatchesEmailPattern(s) {
      var at, dot :| 0 <= at < dot < |s| && EmailSplit(s, at, dot);
      EmailSplitIsDetermined(s, at, dot);
    }
  }

  // The rule ladders of the five validators, on the value each validator
  // reads (trimmed for name, email and phone).

  function NameError(fullName: string): Option<string> {
    if fullName == "" then Some(NAME_REQUIRED)
    else if |fullName| < 3 then Some(NAME_TOO_SHORT)
    else if !MatchesNamePattern(fullName) then Some(NAME_NOT_LETTERS)
    else None
  }

  function EmailError(email: string): Option<string> {
    if email == "" then Some(EMAIL_REQUIRED)
    else if !MatchesEmailPattern(email) then Some(EMAIL_INVALID)
    else None
  }

  function PhoneError(phone: string): Option<string> {
    if phone == "" then Some(PHONE_REQUIRED)
    else if !IsTenDigits(phone) then Some(PHONE_NOT_TEN_DIGITS)
    else None
  }

  function PasswordError(password: string): Option<string> {
    if password == "" then Some(PASSWORD_REQUIRED)
    else if |password| < 6 then Some(PASSWORD_TOO_SHORT)
    else None
  }

  function ConfirmError(password: string, confirmPassword: string): Option<string> {
    if confirmPassword == "" then Some(CONFIRM_REQUIRED)
    else if password != confirmPassword then Some(PASSWORDS_DIFFER)
    else None
  }

  /** The five inputs of the form, and of the error elements beside them. */
  datatype Field = FullName | Email | Phone | Password | ConfirmPassword

  /** A value for each of the five fields. */
  ghost predicate Complete(m: map<Field, string>) {
    forall f: Field :: f in m
  }

  /** The verdict of field `f`'s validator on the current input values. */
  function FieldError(f: Field, values: map<Field, string>): Option<string>
    requires Complete(values)
  {
    match f
    case FullName => NameError(JsTrim(values[FullName]))
    case Email => EmailError(JsTrim(values[Email]))
    case Phone => PhoneError(JsTrim(values[Phone]))
    case Password => PasswordError(values[Password])
    case ConfirmPassword => ConfirmError(values[Password], values[ConfirmPassword])
  }

  /** What an error element shows for a verdict: the message, or nothing. */
  function ErrorText(verdict: Option<string>): string {
    if verdict.Some? then verdict.value else ""
  }

  /** The form passes when all five validators pass. */
  ghost predicate Accepts(values: map<Field, string>)
    requires Complete(values)
  {
    forall f: Field :: FieldError(f, values) == None
  }

  /** `validateFullName` passes exactly when the trimmed name is non-empty, at
      least 3 long and all letters and white space. */
  lemma NameRule(fullName: string)
    ensures NameError(fullName) == None <==> |fullName| >= 3 && MatchesNamePattern(fullName)
    ensures NameError(fullName).Some? ==>
      NameError(fullName).value in {NAME_REQUIRED, NAME_TOO_SHORT, NAME_NOT_LETTERS}
  {
  }

  lemma EmailRule(email: string)
    ensures EmailError(email) == None <==> MatchesEmailPattern(email)
    ensures EmailError(email).Some? ==> EmailError(email).value in {EMAIL_REQUIRED, EMAIL_INVALID}
  {
  }

  lemma PhoneRule(phone: string)
    ensures PhoneError(phone) == None <==> IsTenDigits(phone)
    ensures PhoneError(phone).Some? ==> PhoneError(phone).value in {PHONE_REQUIRED, PHONE_NOT_TEN_DIGITS}
  {
  }

  /** `validatePassword` looks at the untrimmed password: it passes exactly when
      it has at least 6 characters. */
  lemma PasswordRule(password: string)
    ensures PasswordError(password) == None <==> |password| >= 6
    ensures password == "" ==> PasswordError(password) == Some(PASSWORD_REQUIRED)
    ensures PasswordError(password).Some? ==>
      PasswordError(password).value in {PASSWORD_REQUIRED, PASSWORD_TOO_SHORT}
  {
  }

  lemma ConfirmRule(password: string, confirmPassword: string)
    ensures ConfirmError(password, confirmPassword) == None <==>
      confirmPassword != "" && confirmPassword == password
    ensures ConfirmError(password, confirmPassword).Some? ==>
      ConfirmError(password, confirmPassword).value in {CONFIRM_REQUIRED, PASSWORDS_DIFFER}
  {
  }

  /** A short address the pattern accepts. */
  lemma EmailAccepted()
    ensures MatchesEmailPattern("a@b.co")
  {
    assert EmailSplit("a@b.co", 1, 3);
  }

  /** Dots in the local part and in the domain are allowed. */
  lemma DottedEmailAccepted()
    ensures MatchesEmailPattern("first.last@mail.example.org")
  {
    var s := "first.last@mail.example.org";
    assert forall i :: 0 <= i < 10 ==> IsLocalChar(s[i]);
    assert forall i :: 10 < i < 23 ==> IsDomainChar(s[i]);
    assert forall i :: 23 < i < |s| ==> IsAsciiLetter(s[i]);
    assert EmailSplit(s, 10, 23);
  }

  /** An address without `@` never matches. */
  lemma EmailWithoutAtRejected(s: string)
    requires '@' !in s
    ensures !MatchesEmailPattern(s)
  {
    forall at, dot | 0 <= at < dot < |s| ensures !EmailSplit(s, at, dot) {
      assert s[at] in s;
    }
  }

  /** An address without `.` never matches. */
  lemma EmailWithoutDotRejected(s: string)
    requires '.' !in s
    ensures !MatchesEmailPattern(s)
  {
    forall at, dot | 0 <= at < dot < |s| ensures !EmailSplit(s, at, dot) {
      assert s[dot] in s;
    }
  }

  /** An address whose last `.` is followed by fewer than two characters never
      matches: the top-level part has at least two letters. */
  lemma EmailShortTopLevelRejected(s: string)
    requires 0 <= LastIndexOf(s, '.') && |s| - 1 - LastIndexOf(s, '.') < 2
    ensures !MatchesEmailPattern(s)
  {
    forall at, dot | 0 <= at < dot < |s| ensures !EmailSplit(s, at, dot) {
      if EmailSplit(s, at, dot) {
        EmailSplitIsDetermined(s, at, dot);
      }
    }
  }

  /** An address whose last `.` is followed by more than six characters never
      matches: the top-level part has at most six letters. */
  lemma EmailLongTopLevelRejected(s: string)
    requires 0 <= LastIndexOf(s, '.') && |s| - 1 - LastIndexOf(s, '.') > 6
    ensures !MatchesEmailPattern(s)
  {
    forall at, dot | 0 <= at < dot < |s| ensures !EmailSplit(s, at, dot) {
      if EmailSplit(s, at, dot) {
        EmailSplitIsDetermined(s, at, dot);
      }
    }
  }

  /** An address that starts with `@` never matches: the local part is not empty. */
  lemma EmailEmptyLocalPartRejected(s: string)
    requires s != [] && s[0] == '@'
    ensures !MatchesEmailPattern(s)
  {
    forall at, dot | 0 <= at < dot < |s| ensures !EmailSplit(s, at, dot) {
      assert !IsLocalChar(s[0]);
    }
  }

  /** After the input filter the phone needs no trimming, and it passes
      exactly when the typed text held ten digits. */
  lemma FilteredPhoneRule(typed: string)
    ensures JsTrim(DigitsOnly(typed)) == DigitsOnly(typed)
    ensures PhoneError(JsTrim(DigitsOnly(typed))) == None <==> |DigitsOnly(typed)| == 10
  {
    var d := DigitsOnly(typed);
    forall i | 0 <= i < |d| ensures !IsJsTrimmed(d[i]) {
      assert IsAsciiDigit(d[i]);
    }
    TrimKeepsUnpadded(d, IsJsTrimmed);
  }

  /** An error element is empty exactly when its validator passed. */
  lemma ErrorTextShowsVerdict(f: Field, values: map<Field, string>)
    requires Complete(values)
    ensures ErrorText(FieldError(f, values)) == "" <==> FieldError(f, values) == None
  {
    match f
    case FullName => NameRule(JsTrim(values[FullName]));
    case Email => EmailRule(JsTrim(values[Email]));
    case Phone => PhoneRule(JsTrim(values[Phone]));
    case Password => PasswordRule(values[Password]);
    case ConfirmPassword => ConfirmRule(values[Password], values[ConfirmPassword]);
  }

  /** The form as the script sees it: the inputs' values and the text of the
      five error elements. */
  class RegistrationForm {
    var values: map<Field, string>
    var errorText: map<Field, string>

    ghost predicate Valid()
      reads this
    {
      Complete(values) && Complete(errorText)
    }

    /** The page as loaded: given input values, error elements empty. */
    constructor (initial: map<Field, string>)
      requires Complete(initial)
      ensures Valid() && values == initial
      ensures forall f: Field :: errorText[f] == ""
    {
      values := initial;
      errorText := map[FullName := "", Email := "", Phone := "", Password := "", ConfirmPassword := ""];
      new;
      forall f: Field ensures f in errorText && errorText[f] == "" {
        match f
        case FullName =>
        case Email =>
        case Phone =>
        case Password =>
        case ConfirmPassword =>
      }
    }

    /** The user changes the value of input `f` (the browser's part). */
    method Edit(f: Field, text: string)
      requires Valid()
      modifies this
      ensures Valid() && values == old(values)[f := text] && errorText == old(errorText)
    {
      values := values[f := text];
    }

    /** `showError`: the field's error element shows `message`. */
    method ShowError(f: Field, message: string)
      requires Valid()
      modifies this
      ensures Valid() && values == old(values)
      ensures errorText == old(errorText)[f := message]
    {
      errorText := errorText[f := message];
    }

    /** `clearError`: the field's error element is emptied. */
    method ClearError(f: Field)
      requires Valid()
      modifies this
      ensures Valid() && values == old(values)
      ensures errorText == old(errorText)[f := ""]
    {
      errorText := errorText[f := ""];
    }

    method ValidateFullName() returns (ok: bool)
      requires Valid()
      modifies this
      ensures Valid() && values == old(values)
      ensures ok <==> FieldError(FullName, values) == None
      ensures errorText == old(errorText)[FullName := ErrorText(FieldError(FullName, values))]
    {
      var fullName := JsTrim(values[FullName]);
      if fullName == "" {
        ShowError(FullName, NAME_REQUIRED);
        return false;
      }
      if |fullName| < 3 {
        ShowError(FullName, NAME_TOO_SHORT);
        return false;
      }
      if !MatchesNamePattern(fullName) {
        ShowError(FullName, NAME_NOT_LETTERS);
        return false;
      }
      ClearError(FullName);
      return true;
    }

    method ValidateEmail() returns (ok: bool)
      requires Valid()
      modifies this
      ensures Valid() && values == old(values)
      ensures ok <==> FieldError(Email, values) == None
      ensures errorText == old(errorText)[Email := ErrorText(FieldError(Email, values))]
    {
      var email := JsTrim(values[Email]);
      if email == "" {
        ShowError(Email, EMAIL_REQUIRED);
        return false;
      }
      if !MatchesEmailPattern(email) {
        ShowError(Email, EMAIL_INVALID);
        return false;
      }
      ClearError(Email);
      return true;
    }

    method ValidatePhone() returns (ok: bool)
      requires Valid()
      modifies this
      ensures Valid() && values == old(values)
      ensures ok <==> FieldError(Phone, values) == None
      ensures errorText == old(errorText)[Phone := ErrorText(FieldError(Phone, values))]
    {
      var phone := JsTrim(values[Phone]);
      if phone == "" {
        ShowError(Phone, PHONE_REQUIRED);
        return false;
      }
      if !IsTenDigits(phone) {
        ShowError(Phone, PHONE_NOT_TEN_DIGITS);
        return false;
      }
      ClearError(Phone);
      return true;
    }

    method ValidatePassword() returns (ok: bool)
      requires Valid()
      modifies this
      ensures Valid() && values == old(values)
      ensures ok <==> FieldError(Password, values) == None
      ensures errorText == old(errorText)[Password := ErrorText(FieldError(Password, values))]
    {
      var password := values[Password];
      if password == "" {
        ShowError(Password, PASSWORD_REQUIRED);
        return false;
      }
      if |password| < 6 {
        ShowError(Password, PASSWORD_TOO_SHORT);
        return false;
      }
      ClearError(Password);
      return true;
    }

    method ValidateConfirmPassword() returns (ok: bool)
      requires Valid()
      modifies this
      ensures Valid() && values == old(values)
      ensures ok <==> FieldError(ConfirmPassword, values) == None
      ensures errorText == old(errorText)[ConfirmPassword := ErrorText(FieldError(ConfirmPassword, values))]
    {
      var password := values[Password];
      var confirmPassword := values[ConfirmPassword];
      if confirmPassword == "" {
        ShowError(ConfirmPassword, CONFIRM_REQUIRED);
        return false;
      }
      if password != confirmPassword {
        ShowError(ConfirmPassword, PASSWORDS_DIFFER);
        return false;
      }
      ClearError(ConfirmPassword);
      return true;
    }

    /** The submit handler: every validator runs, so every error element is
        refreshed, and the form is submitted exactly when all five passed. */
    method Submit() returns (submitted: bool)
      requires Valid()
      modifies this
      ensures Valid() && values == old(values)
      ensures forall f: Field :: errorText[f] == ErrorText(FieldError(f, values))
      ensures submitted <==> Accepts(values)
    {
      var isFullNameValid := ValidateFullName();
      var isEmailValid := ValidateEmail();
      var isPhoneValid := ValidatePhone();
      var isPasswordValid := ValidatePassword();
      var isConfirmPasswordValid := ValidateConfirmPassword();
      submitted := isFullNameValid && isEmailValid && isPhoneValid && isPasswordValid && isConfirmPasswordValid;
      forall f: Field
        ensures errorText[f] == ErrorText(FieldError(f, values))
        ensures submitted ==> FieldError(f, values) == None
      {
        match f
        case FullName =>
        case Email =>
        case Phone =>
        case Password =>
        case ConfirmPassword =>
      }
    }

    /** The phone input's `input` handler: the value keeps only its digits. */
    method OnPhoneInput()
      requires Valid()
      modifies this
      ensures Valid() && errorText == old(errorText)
      ensures values == old(values)[Phone := DigitsOnly(old(values)[Phone])]
    {
      values := values[Phone := DigitsOnly(values[Phone])];
    }
  }
}
