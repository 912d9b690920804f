/**
 * The sign-in form's validation rules: each field's rule, and the error set a
 * validation pass builds from them for the active tab.
 */
module Validation {
  import opened Wrappers
  import JsString
  import EmailPattern

  /** The two tabs of the form; signup adds the name and confirmation fields. */
  datatype Tab = Login | Signup

  /** The fields that can carry a validation error (the keys of FormErrors). */
  datatype Field = Name | Email | Password | ConfirmPassword

  /** The form record: four text fields and the remember-me checkbox. */
  datatype FormData = FormData(
    name: string,
    email: string,
    password: string,
    confirmPassword: string,
    rememberMe: bool)

  /** The error set: a message for each field that has one. */
  type Errors = map<Field, string>

  const EmptyForm: FormData := FormData("", "", "", "", false)

  const EmailRequired: string := "Email is required"
  const EmailInvalid: string := "Please enter a valid email"
  const PasswordRequired: string := "Password is required"
  const PasswordTooShort: string := "Password must be at least 6 characters"
  const NameRequired: string := "Name is required"
  const NameTooShort: string := "Name must be at least 2 characters"
  const ConfirmRequired: string := "Please confirm your password"
  const PasswordsMismatch: string := "Passwords do not match"

  const MinPasswordLength: nat := 6
  const MinNameLength: nat := 2

  /** The current value of a text field. */
  function TextOf(d: FormData, f: Field): string
  {
    match f
    case Name => d.name
    case Email => d.email
    case Password => d.password
    case ConfirmPassword => d.confirmPassword
  }

  /** The messages a validation pass can store for field `f`. */
  function MessagesFor(f: Field): set<string>
  {
    match f
    case Name => {NameRequired, NameTooShort}
    case Email => {EmailRequired, EmailInvalid}
    case Password => {PasswordRequired, PasswordTooShort}
    case ConfirmPassword => {ConfirmRequired, PasswordsMismatch}
  }

  /**
   * The e-mail rule: required, then the pattern. The address passes exactly
   * when it is well formed (see EmailPattern.WellFormedEmail).
   */
  function EmailError(email: string): (r: Option<string>)
    ensures email == [] ==> r == Some(EmailRequired)
    ensures email != [] && !EmailPattern.WellFormedEmail(email) ==> r == Some(EmailInvalid)
    ensures r == None <==> EmailPattern.WellFormedEmail(email)
  {
    EmailPattern.EmailPatternMeaning(email);
    if email == [] then Some(EmailRequired)
    else if !EmailPattern.Matches(EmailPattern.Email, email) then Some(EmailInvalid)
    else None
  }

  /** The password rule: required, then at least 6 UTF-16 code units. */
  function PasswordError(password: string): (r: Option<string>)
    ensures password == [] ==> r == Some(PasswordRequired)
    ensures r.Some? ==> r.value in MessagesFor(Password)
    ensures r == None <==> JsString.Utf16Length(password) >= MinPasswordLength
  {
    if password == [] then Some(PasswordRequired)
    else if JsString.Utf16Length(password) < MinPasswordLength then Some(PasswordTooShort)
    else None
  }

  /** The name rule (signup only): required, then at least 2 UTF-16 code units. */
  function NameError(name: string): (r: Option<string>)
    ensures name == [] ==> r == Some(NameRequired)
    ensures r.Some? ==> r.value in MessagesFor(Name)
    ensures r == None <==> JsString.Utf16Length(name) >= MinNameLength
  {
    if name == [] then Some(NameRequired)
    else if JsString.Utf16Length(name) < MinNameLength then Some(NameTooShort)
    else None
  }

  /** The confirmation rule (signup only): required, then equal to the password. */
  function ConfirmError(password: string, confirm: string): (r: Option<string>)
    ensures confirm == [] ==> r == Some(ConfirmRequired)
    ensures r.Some? ==> r.value in MessagesFor(ConfirmPassword)
    ensures r == None <==> confirm != [] && confirm == password
  {
    if confirm == [] then Some(ConfirmRequired)
    else if password != confirm then Some(PasswordsMismatch)
    else None
  }

  /** The error, if any, that a validation pass on `tab` gives field `f`. */
  function FieldError(d: FormData, tab: Tab, f: Field): Option<string>
  {
    match f
    case Email => EmailError(d.email)
    case Password => PasswordError(d.password)
    case Name => if tab == Signup then NameError(d.name) else None
    case ConfirmPassword => if tab == Signup then ConfirmError(d.password, d.confirmPassword) else None
  }

  /** Records `e` for field `f` when there is one, like `newErrors.f = …`. */
  function Put(errs: Errors, f: Field, e: Option<string>): Errors
  {
    if e.Some? then errs[f := e.value] else errs
  }

  /** The message stored for `f`, if any. */
  function Get(errs: Errors, f: Field): Option<string>
  {
    if f in errs then Some(errs[f]) else None
  }

  /** Every field passes its rule on `tab`. */
  predicate FormValid(d: FormData, tab: Tab)
  {
    && EmailPattern.WellFormedEmail(d.email)
    && JsString.Utf16Length(d.password) >= MinPasswordLength
    && (tab == Signup ==>
          && JsString.Utf16Length(d.name) >= MinNameLength
          && d.confirmPassword == d.password)
  }

  /**
   * One validation pass: the error set built field by field (e-mail, password,
   * then on signup name and confirmation), replacing whatever was stored before.
   */
  function Validate(d: FormData, tab: Tab): (r: Errors)
    ensures tab == Login ==> r.Keys <= {Email, Password}
    ensures Email in r <==> !EmailPattern.WellFormedEmail(d.email)
    ensures Password in r <==> JsString.Utf16Length(d.password) < MinPasswordLength
  {
    var withEmail := Put(map[], Email, EmailError(d.email));
    var withPassword := Put(withEmail, Password, PasswordError(d.password));
    if tab == Signup then
      var withName := Put(withPassword, Name, NameError(d.name));
      Put(withName, ConfirmPassword, ConfirmError(d.password, d.confirmPassword))
    else
      withPassword
  }

  /**
   * What a validation pass means: each field's entry is that field's own rule
   * (so one failing field never hides another's error), every stored message is
   * one of that field's messages, and the set is empty exactly when every rule on
   * the tab passes.
   */
  lemma ValidateMeaning(d: FormData, tab: Tab)
    ensures forall f :: Get(Validate(d, tab), f) == FieldError(d, tab, f)
    ensures forall f :: f in Validate(d, tab) ==> Validate(d, tab)[f] in MessagesFor(f)
    ensures |Validate(d, tab)| == 0 <==> FormValid(d, tab)
  {
    var errs := Validate(d, tab);
    forall f
      ensures Get(errs, f) == FieldError(d, tab, f)
    {
      match f
      case Email =>
      case Password =>
      case Name =>
      case ConfirmPassword =>
    }
    if FormValid(d, tab) {
      forall f
        ensures f !in errs
      {
        assert FieldError(d, tab, f) == None;
      }
      assert errs == map[];
    } else {
      if !EmailPattern.WellFormedEmail(d.email) {
        assert Email in errs;
      } else if JsString.Utf16Length(d.password) < MinPasswordLength {
        assert Password in errs;
      } else if JsString.Utf16Length(d.name) < MinNameLength {
        assert Name in errs;
      } else {
        assert ConfirmPassword in errs;
      }
    }
  }

  /**
   * E-mail: empty gives "Email is required", a non-empty address the pattern
   * rejects gives "Please enter a valid email", a well-formed one no error.
   */
  lemma EmailRule(d: FormData, tab: Tab)
    ensures d.email == [] ==> Get(Validate(d, tab), Email) == Some(EmailRequired)
    ensures d.email != [] && !EmailPattern.WellFormedEmail(d.email) ==>
              Get(Validate(d, tab), Email) == Some(EmailInvalid)
    ensures EmailPattern.WellFormedEmail(d.email) ==> Email !in Validate(d, tab)
  {
    ValidateMeaning(d, tab);
    assert Get(Validate(d, tab), Email) == EmailError(d.email);
  }

  /**
   * Password: empty gives "Password is required", fewer than 6 code units gives
   * "Password must be at least 6 characters", 6 or more no error.
   */
  lemma PasswordRule(d: FormData, tab: Tab)
    ensures d.password == [] ==> Get(Validate(d, tab), Password) == Some(PasswordRequired)
    ensures d.password != [] && JsString.Utf16Length(d.password) < 6 ==>
              Get(Validate(d, tab), Password) == Some(PasswordTooShort)
    ensures Password !in Validate(d, tab) <==> JsString.Utf16Length(d.password) >= 6
  {
    ValidateMeaning(d, tab);
    assert Get(Validate(d, tab), Password) == PasswordError(d.password);
  }

  /** On the login tab the name and confirmation fields never get an error. */
  lemma LoginIgnoresSignupFields(d: FormData, name: string, confirm: string)
    ensures Name !in Validate(d, Login) && ConfirmPassword !in Validate(d, Login)
    ensures Validate(d.(name := name, confirmPassword := confirm), Login) == Validate(d, Login)
  {
    var d' := d.(name := name, confirmPassword := confirm);
    ValidateMeaning(d, Login);
    ValidateMeaning(d', Login);
    assert Get(Validate(d, Login), Name) == None;
    assert Get(Validate(d, Login), ConfirmPassword) == None;
    forall f
      ensures Get(Validate(d', Login), f) == Get(Validate(d, Login), f)
    {
      assert FieldError(d', Login, f) == FieldError(d, Login, f);
    }
    assert Validate(d', Login).Keys == Validate(d, Login).Keys;
  }

  /**
   * Signup: the name is required and needs 2 code units; the confirmation is
   * required and must equal the password exactly.
   */
  lemma SignupRules(d: FormData)
    ensures d.name == [] ==> Get(Validate(d, Signup), Name) == Some(NameRequired)
    ensures d.name != [] && JsString.Utf16Length(d.name) < 2 ==>
              Get(Validate(d, Signup), Name) == Some(NameTooShort)
    ensures Name !in Validate(d, Signup) <==> JsString.Utf16Length(d.name) >= 2
    ensures d.confirmPassword == [] ==>
              Get(Validate(d, Signup), ConfirmPassword) == Some(ConfirmRequired)
    ensures d.confirmPassword != [] && d.confirmPassword != d.password ==>
              Get(Validate(d, Signup), ConfirmPassword) == Some(PasswordsMismatch)
    ensures ConfirmPassword !in Validate(d, Signup) <==>
              d.confirmPassword != [] && d.confirmPassword == d.password
  {
    ValidateMeaning(d, Signup);
    assert Get(Validate(d, Signup), Name) == NameError(d.name);
    assert Get(Validate(d, Signup), ConfirmPassword) == ConfirmError(d.password, d.confirmPassword);
  }

  /** The inputs field `f`'s rule reads: its own text, and the password for the confirmation. */
  function RuleInputs(d: FormData, f: Field): seq<string>
  {
    if f == ConfirmPassword then [d.password, d.confirmPassword] else [TextOf(d, f)]
  }

  /**
   * Field rules are independent: two forms that agree on what field `f`'s rule
   * reads get the same entry for `f`, whatever their other fields hold.
   */
  lemma FieldsIndependent(d1: FormData, d2: FormData, tab: Tab, f: Field)
    requires RuleInputs(d1, f) == RuleInputs(d2, f)
    ensures Get(Validate(d1, tab), f) == Get(Validate(d2, tab), f)
  {
    ValidateMeaning(d1, tab);
    ValidateMeaning(d2, tab);
    if f == ConfirmPassword {
      assert RuleInputs(d1, f)[0] == d1.password && RuleInputs(d2, f)[0] == d2.password;
      assert RuleInputs(d1, f)[1] == d1.confirmPassword && RuleInputs(d2, f)[1] == d2.confirmPassword;
    } else {
      assert RuleInputs(d1, f)[0] == TextOf(d1, f) && RuleInputs(d2, f)[0] == TextOf(d2, f);
    }
  }

  /**
   * A password of three supplementary characters (each two UTF-16 code units)
   * meets the 6-character minimum, since JavaScript counts code units.
   */
  lemma SupplementaryCharactersCountTwice()
    ensures var emoji := 0x1F600 as char;
            Password !in Validate(EmptyForm.(email := "a@b.co", password := [emoji, emoji, emoji]), Login)
  {
    var emoji := 0x1F600 as char;
    var pw := [emoji, emoji, emoji];
    assert JsString.Utf16Length(pw[2..]) == 2;
    assert JsString.Utf16Length(pw[1..]) == 4;
    assert JsString.Utf16Length(pw) == 6;
    PasswordRule(EmptyForm.(email := "a@b.co", password := pw), Login);
  }

  /**
   * Submitting {name: "", email: "bad", password: "123", confirmPassword: "456"}
   * on signup sets all four errors.
   */
  lemma InvalidSignupExample()
    ensures Validate(FormData("", "bad", "123", "456", false), Signup) ==
              map[Email := EmailInvalid, Password := PasswordTooShort,
                  Name := NameRequired, ConfirmPassword := PasswordsMismatch]
  {
    var bad := "bad";
    assert '@' !in bad;
    assert multiset(bad)['@'] == 0;
    assert !EmailPattern.WellFormedEmail(bad);
    JsString.Utf16LengthOfBmp("123");
    ValidateMeaning(FormData("", bad, "123", "456", false), Signup);
  }

  /** A form that passes every rule leaves the error set empty. */
  lemma ValidFormHasNoErrors(d: FormData, tab: Tab)
    requires FormValid(d, tab)
    ensures Validate(d, tab) == map[]
  {
    ValidateMeaning(d, tab);
  }

  lemma SampleAddressHasNoWhitespace()
    ensures JsString.NoWhitespace("a@b.com")
  {
    var email := "a@b.com";
    forall i | 0 <= i < |email|
      ensures !JsString.IsWhitespace(email[i])
    {
      assert 0 < email[i] as int < 0x80 && email[i] as int != 0x20;
    }
  }

  lemma SampleAddressHasOneAt()
    ensures multiset("a@b.com")['@'] == 1
  {
    var email, domain := "a@b.com", "b.com";
    assert email == "a@" + domain;
    assert '@' !in domain;
    assert multiset(email) == multiset("a@") + multiset(domain);
  }

  /** "a@b.com" is a well-formed address. */
  lemma SampleAddressWellFormed()
    ensures EmailPattern.WellFormedEmail("a@b.com")
  {
    SampleAddressHasNoWhitespace();
    SampleAddressHasOneAt();
    assert "a@b.com"[2..][1] == '.';
    assert "a@b.com"[1] == '@';
  }

  /**
   * {email: "a@b.com", password: "secret1"} passes validation on login, whatever
   * the other fields hold.
   */
  lemma ValidLoginExample(d: FormData)
    requires d.email == "a@b.com" && d.password == "secret1"
    ensures FormValid(d, Login)
  {
    SampleAddressWellFormed();
    SamplePasswordLength();
  }

  lemma SamplePasswordLength()
    ensures JsString.Utf16Length("secret1") == 7
  {
    var password := "secret1";
    forall i | 0 <= i < |password|
      ensures password[i] as int <= 0xFFFF
    {
      assert password[i] as int < 0x80;
    }
    JsString.Utf16LengthOfBmp(password);
  }
}
