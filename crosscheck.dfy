/**
  The browser's checks (script.js) against the server's (register.php). For
  name, phone, password and confirmation the two ladders have the same rules
  in the same order with the same messages; they part only where PHP's
  `empty()` also counts "0" as missing, and where the two `trim`s strip
  different characters (PHP strips NUL but not form feed, JavaScript the
  other way round). The email rules differ outright and are not compared.
*/
module CrossCheck {
  import opened Text
  import Server
  import Client

  /** No character on which the two trims disagree. */
  predicate TrimsAgreeOn(s: string) {
    '\0' !in s && '\U{C}' !in s
  }

  /** The name ladders agree on every trimmed value except "0". */
  lemma NameLaddersAgree(fullName: string)
    requires fullName != "0"
    ensures Server.NameError(fullName) == Client.NameError(fullName)
  {
  }

  /** The phone ladders agree on every value either trim can produce except
      "0": such a value ends in no line feed, so PCRE's `$` reads as plain end
      of input. */
  lemma PhoneLaddersAgree(rawPhone: string)
    requires TrimsAgreeOn(rawPhone)
    requires PhpTrim(rawPhone) != "0"
    ensures Server.PhoneError(PhpTrim(rawPhone)) == Client.PhoneError(JsTrim(rawPhone))
  {
    PhpTrimIsJsTrim(rawPhone);
    Server.TrimmedPhoneRule(rawPhone);
  }

  lemma PasswordLaddersAgree(password: string)
    requires password != "0"
    ensures Server.PasswordError(password) == Client.PasswordError(password)
  {
  }

  lemma ConfirmLaddersAgree(password: string, confirmPassword: string)
    requires confirmPassword != "0"
    ensures Server.ConfirmError(password, confirmPassword) == Client.ConfirmError(password, confirmPassword)
  {
  }

  /** A typed "0" is "required" to the server but a failed later rule to the
      browser; both reject it. */
  lemma ZeroDiverges()
    ensures Server.NameError("0") == Some(Server.NAME_REQUIRED)
    ensures Client.NameError("0") == Some(Client.NAME_TOO_SHORT)
    ensures Server.PhoneError("0") == Some(Server.PHONE_REQUIRED)
    ensures Client.PhoneError("0") == Some(Client.PHONE_NOT_TEN_DIGITS)
    ensures Server.PasswordError("0") == Some(Server.PASSWORD_REQUIRED)
    ensures Client.PasswordError("0") == Some(Client.PASSWORD_TOO_SHORT)
    ensures Server.ConfirmError("secret", "0") == Some(Server.CONFIRM_REQUIRED)
    ensures Client.ConfirmError("secret", "0") == Some(Client.PASSWORDS_DIFFER)
  {
    assert !IsTenDigits("0");
  }

  /** The request body the browser posts for the form's values. */
  function PostOf(values: map<Client.Field, string>): (post: map<string, string>)
    requires Client.Complete(values)
    ensures Server.PostField(post, "fullName") == values[Client.FullName]
    ensures Server.PostField(post, "email") == values[Client.Email]
    ensures Server.PostField(post, "phone") == values[Client.Phone]
    ensures Server.PostField(post, "password") == values[Client.Password]
    ensures Server.PostField(post, "confirmPassword") == values[Client.ConfirmPassword]
  {
    map[
      "fullName" := values[Client.FullName],
      "email" := values[Client.Email],
      "phone" := values[Client.Phone],
      "password" := values[Client.Password],
      "confirmPassword" := values[Client.ConfirmPassword]]
  }

  /** The text fields hold no character on which the trims disagree. */
  predicate TrimsAgreeOnForm(values: map<Client.Field, string>)
    requires Client.Complete(values)
  {
    && TrimsAgreeOn(values[Client.FullName])
    && TrimsAgreeOn(values[Client.Email])
    && TrimsAgreeOn(values[Client.Phone])
  }

  /** A form the browser submits passes the server's validation, provided
      `filter_var` accepts the address the browser's regex accepted. */
  lemma ClientAcceptedIsServerValid(values: map<Client.Field, string>, validEmail: string -> bool)
    requires Client.Complete(values)
    requires TrimsAgreeOnForm(values)
    requires validEmail(JsTrim(values[Client.Email]))
    requires Client.Accepts(values)
    ensures Server.ServerErrors(Server.ReadCandidate(PostOf(values)), validEmail) == []
  {
    var c := Server.ReadCandidate(PostOf(values));
    assert c.fullName == JsTrim(values[Client.FullName]) by { PhpTrimIsJsTrim(values[Client.FullName]); }
    assert c.email == JsTrim(values[Client.Email]) by { PhpTrimIsJsTrim(values[Client.Email]); }
    assert c.phone == JsTrim(values[Client.Phone]) by { PhpTrimIsJsTrim(values[Client.Phone]); }
    assert Server.NameError(c.fullName) == None by {
      assert Client.FieldError(Client.FullName, values) == None;
      Client.NameRule(c.fullName);
    }
    assert Server.EmailError(c.email, validEmail) == None by {
      assert Client.FieldError(Client.Email, values) == None;
      Client.EmailRule(c.email);
      var at, dot :| 0 <= at < dot < |c.email| && Client.EmailSplit(c.email, at, dot);
    }
    assert Server.PhoneError(c.phone) == None by {
      assert Client.FieldError(Client.Phone, values) == None;
      Client.PhoneRule(c.phone);
    }
    assert Server.PasswordError(c.password) == None by {
      assert Client.FieldError(Client.Password, values) == None;
      Client.PasswordRule(c.password);
    }
    assert Server.ConfirmError(c.password, c.confirmPassword) == None by {
      assert Client.FieldError(Client.ConfirmPassword, values) == None;
      Client.PasswordRule(c.password);
      Client.ConfirmRule(c.password, c.confirmPassword);
    }
  }

  /** Conversely, a request the server accepts comes from a form whose name,
      phone, password and confirmation the browser accepts. */
  lemma ServerValidIsClientAcceptedBesidesEmail(values: map<Client.Field, string>, validEmail: string -> bool)
    requires Client.Complete(values)
    requires TrimsAgreeOn(values[Client.FullName]) && TrimsAgreeOn(values[Client.Phone])
    requires Server.ServerErrors(Server.ReadCandidate(PostOf(values)), validEmail) == []
    ensures Client.FieldError(Client.FullName, values) == None
    ensures Client.FieldError(Client.Phone, values) == None
    ensures Client.FieldError(Client.Password, values) == None
    ensures Client.FieldError(Client.ConfirmPassword, values) == None
  {
    var name, phone := values[Client.FullName], values[Client.Phone];
    PhpTrimIsJsTrim(name);
    PhpTrimIsJsTrim(phone);
    Server.ServerErrorsEmptyIff(Server.ReadCandidate(PostOf(values)), validEmail);
    Server.TrimmedPhoneRule(phone);
  }

  /** A form the browser submits, sent to a server whose table does not yet
      hold its email and whose storage works, is registered. */
  lemma ClientSubmissionRegisters(
    students: seq<Server.Row>, values: map<Client.Field, string>,
    validEmail: string -> bool, hash: string -> string)
    requires Client.Complete(values)
    requires TrimsAgreeOnForm(values)
    requires validEmail(JsTrim(values[Client.Email]))
    requires Client.Accepts(values)
    requires !Server.EmailTaken(students, JsTrim(values[Client.Email]))
    ensures var r := Server.Handle(students, "POST", PostOf(values), validEmail, hash, Server.NoFault);
      r.success && r.students == students + [Server.NewRow(Server.ReadCandidate(PostOf(values)), hash)]
  {
    ClientAcceptedIsServerValid(values, validEmail);
    PhpTrimIsJsTrim(values[Client.Email]);
  }

  /** A trailing form feed: the browser trims it away and accepts the number,
      PHP keeps it and rejects it. */
  lemma FormFeedPhoneDiverges()
    ensures Client.PhoneError(JsTrim("1234567890\U{C}")) == None
    ensures Server.PhoneError(PhpTrim("1234567890\U{C}")) == Some(Server.PHONE_NOT_TEN_DIGITS)
  {
    var s := "1234567890\U{C}";
    TrimIsSlice(s, IsJsTrimmed);
    TrimIsSlice(s, IsPhpTrimmed);
    assert !IsJsTrimmed(s[0]) && !IsPhpTrimmed(s[0]) && !IsPhpTrimmed(s[10]);
  }

  /** A trailing NUL: PHP trims it away and accepts the number, the browser
      keeps it and rejects it. */
  lemma NulPhoneDiverges()
    ensures Server.PhoneError(PhpTrim("1234567890\0")) == None
    ensures Client.PhoneError(JsTrim("1234567890\0")) == Some(Client.PHONE_NOT_TEN_DIGITS)
  {
    var s := "1234567890\0";
    TrimIsSlice(s, IsJsTrimmed);
    TrimIsSlice(s, IsPhpTrimmed);
    assert !IsJsTrimmed(s[0]) && !IsPhpTrimmed(s[0]) && !IsJsTrimmed(s[10]);
  }
}
