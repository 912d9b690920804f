/**
 * The authentication form: its state (field values, stored errors, active tab,
 * the two password-visibility flags, the in-flight flag), the handlers that
 * change it, the success flags derived from it, and the props it hands to each
 * input.
 */
module AuthPage {
  import opened Wrappers
  import JsString
  import EmailPattern
  import opened Validation
  import EnhancedInput

  /**
   * An input's change event: a text input reports its field's new value, a
   * checkbox reports whether it is checked (the only checkbox is remember-me).
   */
  datatype ChangeEvent = TextInput(field: Field, value: string) | CheckboxInput(checked: bool)

  /** A toast: title, description and variant. */
  datatype Notification = Notification(title: string, description: string, variant: string)

  /**
   * What a submission in flight captured when it started: the tab, which picks
   * the toast, and the form, the payload the completion would hand on (the page
   * only logs it).
   */
  datatype Submission = Submission(tab: Tab, data: FormData)

  /** `errors.f` is truthy: a non-empty message is stored for `f`. */
  predicate HasError(errs: Errors, f: Field)
  {
    f in errs && errs[f] != ""
  }

  /**
   * The form after a change event: the named field takes the event's value (the
   * checked flag for a checkbox), every other field keeps its value.
   */
  function ApplyChange(d: FormData, ev: ChangeEvent): (r: FormData)
    ensures ev.TextInput? ==> TextOf(r, ev.field) == ev.value && r.rememberMe == d.rememberMe
    ensures ev.CheckboxInput? ==> r.rememberMe == ev.checked
    ensures forall g :: ev.CheckboxInput? || g != ev.field ==> TextOf(r, g) == TextOf(d, g)
  {
    match ev
    case CheckboxInput(checked) => d.(rememberMe := checked)
    case TextInput(f, value) =>
      match f
      case Name => d.(name := value)
      case Email => d.(email := value)
      case Password => d.(password := value)
      case ConfirmPassword => d.(confirmPassword := value)
  }

  /**
   * The error set after a change event: an error on the edited field is
   * cleared, every other field keeps its entry, and nothing is added.
   */
  function ClearEdited(errs: Errors, ev: ChangeEvent): (r: Errors)
    ensures ev.TextInput? ==> !HasError(r, ev.field)
    ensures forall g :: ev.CheckboxInput? || g != ev.field ==> Get(r, g) == Get(errs, g)
    ensures r.Keys <= errs.Keys
  {
    if ev.TextInput? && HasError(errs, ev.field) then errs - {ev.field} else errs
  }

  /**
   * `isEmailValid`: non-empty, no stored error, contains '@'. Every well-formed
   * address without a stored error lights it, and it implies an '@' in a
   * non-empty address; it is looser than the rule (see EmailFlagLooserThanRule).
   */
  function IsEmailValid(d: FormData, errs: Errors): (r: bool)
    ensures EmailPattern.WellFormedEmail(d.email) && !HasError(errs, Email) ==> r
    ensures r ==> !HasError(errs, Email) && d.email != [] && '@' in d.email
  {
    EmailPattern.WellFormedHasAt(d.email);
    d.email != "" && !HasError(errs, Email) && '@' in d.email
  }

  /** `isPasswordValid`: on exactly when the password rule passes and no error is stored. */
  function IsPasswordValid(d: FormData, errs: Errors): (r: bool)
    ensures r <==> !HasError(errs, Password) && PasswordError(d.password) == None
  {
    d.password != "" && !HasError(errs, Password) && JsString.Utf16Length(d.password) >= MinPasswordLength
  }

  /** `isNameValid`: on exactly when the name rule passes and no error is stored. */
  function IsNameValid(d: FormData, errs: Errors): (r: bool)
    ensures r <==> !HasError(errs, Name) && NameError(d.name) == None
  {
    d.name != "" && !HasError(errs, Name) && JsString.Utf16Length(d.name) >= MinNameLength
  }

  /** `isConfirmPasswordValid`: on exactly when the confirmation rule passes and no error is stored. */
  function IsConfirmPasswordValid(d: FormData, errs: Errors): (r: bool)
    ensures r <==> !HasError(errs, ConfirmPassword) && ConfirmError(d.password, d.confirmPassword) == None
  {
    d.confirmPassword != "" && !HasError(errs, ConfirmPassword) && d.password == d.confirmPassword
  }

  /** The success flag the page passes to field `f`'s input. */
  predicate SuccessFlag(d: FormData, errs: Errors, f: Field)
  {
    match f
    case Name => IsNameValid(d, errs)
    case Email => IsEmailValid(d, errs)
    case Password => IsPasswordValid(d, errs)
    case ConfirmPassword => IsConfirmPasswordValid(d, errs)
  }

  /** The fields rendered on each tab. */
  predicate ShownOn(tab: Tab, f: Field)
  {
    tab == Signup || f == Email || f == Password
  }

  /**
   * The props the page gives field `f`'s input; `visible` is that input's own
   * visibility flag (password and confirmation each have one). Every input shows
   * its label and icon; the name is a text input, the e-mail an e-mail input, and
   * the two passwords show their text only while visible; the error icon shows
   * exactly for a stored error, the success icon exactly for the field's flag
   * without one.
   */
  function FieldProps(d: FormData, errs: Errors, visible: bool, f: Field): (r: EnhancedInput.InputProps)
    ensures var v := EnhancedInput.Render(r);
            && v.labelText.Some? && v.iconSlot
            && v.inputType == (match f
                               case Name => Some("text")
                               case Email => Some("email")
                               case _ => Some(if visible then "text" else "password"))
            && (v.toggle.Some? <==> f == Password || f == ConfirmPassword)
            && (v.errorIcon <==> HasError(errs, f))
            && (v.successIcon <==> !HasError(errs, f) && SuccessFlag(d, errs, f))
  {
    var isPassword := f == Password || f == ConfirmPassword;
    EnhancedInput.InputProps(
      inputType := match f
                   case Name => Some("text")
                   case Email => Some("email")
                   case _ => None,
      hasIcon := true,
      isPassword := isPassword,
      showPassword := isPassword && visible,
      error := Get(errs, f),
      success := SuccessFlag(d, errs, f),
      labelText := Some(match f
                        case Name => "Full Name"
                        case Email => "Email Address"
                        case Password => "Password"
                        case ConfirmPassword => "Confirm Password"))
  }

  /** The toast issued when a submission completes: a plain toast naming what the tab did. */
  function SuccessNotification(tab: Tab): (r: Notification)
    ensures r.variant == "default"
    ensures r.title == "Welcome back!" <==> tab == Login
    ensures r.title == "Account created!" <==> tab == Signup
  {
    assert "Welcome back!"[0] != "Account created!"[0];
    match tab
    case Login => Notification("Welcome back!", "You have been successfully logged in.", "default")
    case Signup => Notification("Account created!", "Your account has been created successfully.", "default")
  }

  /**
   * The submit button's `disabled`: it is passed `disabled={loading}` and
   * `loading={loading}`, so it is disabled exactly while a submission is in flight.
   */
  function SubmitControlDisabled(loading: bool): (r: bool)
    ensures r <==> loading
  {
    var disabled := loading;
    disabled || loading
  }

  /**
   * Right after a validation pass the flags agree with the rules: the e-mail flag
   * is on exactly for a well-formed address, the password flag exactly for 6 or
   * more code units, and on signup the name and confirmation flags exactly when
   * those rules pass.
   */
  lemma FlagsAfterValidation(d: FormData, tab: Tab)
    ensures IsEmailValid(d, Validate(d, tab)) <==> EmailPattern.WellFormedEmail(d.email)
    ensures IsPasswordValid(d, Validate(d, tab)) <==> JsString.Utf16Length(d.password) >= 6
    ensures tab == Signup ==>
              (IsNameValid(d, Validate(d, tab)) <==> JsString.Utf16Length(d.name) >= 2)
    ensures tab == Signup ==>
              (IsConfirmPasswordValid(d, Validate(d, tab)) <==>
                 d.confirmPassword != [] && d.confirmPassword == d.password)
  {
    var errs := Validate(d, tab);
    ValidateMeaning(d, tab);
    assert Get(errs, Email) == EmailError(d.email);
    assert Get(errs, Password) == PasswordError(d.password);
    assert Get(errs, Name) == FieldError(d, tab, Name);
    assert Get(errs, ConfirmPassword) == FieldError(d, tab, ConfirmPassword);
  }

  /**
   * The e-mail flag is looser than the rule: once an error is cleared by typing,
   * "a@" lights the success icon although validation rejects it.
   */
  lemma EmailFlagLooserThanRule(d: FormData)
    requires d.email == "a@"
    ensures IsEmailValid(d, map[])
    ensures EmailError(d.email) == Some(EmailInvalid)
  {
    assert d.email[1] == '@';
  }

  /**
   * After a validation pass, every input shown on the tab shows exactly one status
   * icon: the error icon and message when its rule fails, the success icon when
   * it passes; the visibility flags make no difference.
   */
  lemma StatusIconsAfterValidation(d: FormData, tab: Tab, visible: bool, f: Field)
    requires ShownOn(tab, f)
    ensures var errs := Validate(d, tab);
            var v := EnhancedInput.Render(FieldProps(d, errs, visible, f));
            && (v.errorIcon <==> FieldError(d, tab, f).Some?)
            && (v.successIcon <==> FieldError(d, tab, f).None?)
            && v.errorMessage == FieldError(d, tab, f)
  {
    var errs := Validate(d, tab);
    ValidateMeaning(d, tab);
    FlagsAfterValidation(d, tab);
    assert Get(errs, f) == FieldError(d, tab, f);
    if f in errs {
      assert errs[f] in MessagesFor(f);
    }
  }

  class AuthForm {
    var activeTab: Tab
    var showPassword: bool
    var showConfirmPassword: bool
    var loading: bool
    var errors: Errors
    var formData: FormData

    /** Every stored message is one of its field's messages. */
    ghost predicate Valid()
      reads this
    {
      forall f :: f in errors ==> errors[f] in MessagesFor(f)
    }

    /** The page as first rendered: login tab, empty fields, no errors, idle. */
    constructor()
      ensures Valid()
      ensures activeTab == Login && formData == EmptyForm && errors == map[]
      ensures !showPassword && !showConfirmPassword && !loading
    {
      activeTab := Login;
      showPassword := false;
      showConfirmPassword := false;
      loading := false;
      errors := map[];
      formData := EmptyForm;
    }

    /**
     * The stored messages are all truthy, so a field has an error exactly when
     * its key is present: removing a key reads the same as storing `undefined`.
     */
    lemma ErrorsAreTruthy()
      requires Valid()
      ensures forall f :: HasError(errors, f) <==> f in errors
    {
      forall f | f in errors
        ensures errors[f] != ""
      {
        assert errors[f] in MessagesFor(f);
      }
    }

    /** The view of field `f`'s input in the current state. */
    function FieldView(f: Field): EnhancedInput.InputView
      reads this
    {
      var visible := if f == ConfirmPassword then showConfirmPassword else showPassword;
      EnhancedInput.Render(FieldProps(formData, errors, visible, f))
    }

    /** Switching tabs changes the tab only: entered values and errors stay. */
    method SelectTab(tab: Tab)
      requires Valid()
      modifies this`activeTab
      ensures Valid()
      ensures activeTab == tab
      ensures formData == old(formData) && errors == old(errors)
    {
      activeTab := tab;
    }

    /**
     * The password input's eye button: flips that input between shown and
     * hidden and leaves the confirmation input as it was.
     */
    method TogglePassword()
      modifies this`showPassword
      ensures showPassword == !old(showPassword)
      ensures FieldView(ConfirmPassword) == old(FieldView(ConfirmPassword))
      ensures FieldView(Password).inputType == Some(if showPassword then "text" else "password")
    {
      showPassword := !showPassword;
    }

    /** The confirmation input's eye button; the password input is untouched. */
    method ToggleConfirmPassword()
      modifies this`showConfirmPassword
      ensures showConfirmPassword == !old(showConfirmPassword)
      ensures FieldView(Password) == old(FieldView(Password))
      ensures FieldView(ConfirmPassword).inputType == Some(if showConfirmPassword then "text" else "password")
    {
      showConfirmPassword := !showConfirmPassword;
    }

    /** The remember-me checkbox's own handler: sets the flag, touches nothing else. */
    method SetRememberMe(checked: bool)
      modifies this`formData
      ensures formData == old(formData).(rememberMe := checked)
    {
      formData := formData.(rememberMe := checked);
    }

    /**
     * `validateForm`: replaces the stored errors wholesale with a fresh
     * validation pass and reports whether it found none.
     */
    method ValidateForm() returns (ok: bool)
      requires Valid()
      modifies this`errors
      ensures Valid()
      ensures errors == Validate(formData, activeTab)
      ensures ok <==> errors == map[]
      ensures ok <==> FormValid(formData, activeTab)
    {
      var newErrors := Validate(formData, activeTab);
      ValidateMeaning(formData, activeTab);
      errors := newErrors;
      ok := |newErrors| == 0;
    }

    /**
     * `handleInputChange`: sets the named field and clears that field's error
     * if it had one; other fields and their errors are unchanged.
     */
    method InputChange(ev: ChangeEvent)
      requires Valid()
      modifies this`formData, this`errors
      ensures Valid()
      ensures formData == ApplyChange(old(formData), ev)
      ensures errors == ClearEdited(old(errors), ev)
      ensures ev.TextInput? ==> ev.field !in errors
    {
      ErrorsAreTruthy();
      formData := ApplyChange(formData, ev);
      if ev.TextInput? && HasError(errors, ev.field) {
        errors := errors - {ev.field};
      }
    }

    /**
     * The synchronous half of `handleSubmit`: validates, and when the form is
     * valid sets the in-flight flag (which disables the submit button) and
     * captures the tab and form the pending completion will use.
     */
    method BeginSubmit() returns (pending: Option<Submission>)
      requires Valid()
      modifies this`errors, this`loading
      ensures Valid()
      ensures errors == Validate(formData, activeTab)
      ensures pending.Some? <==> FormValid(formData, activeTab)
      ensures pending.Some? ==>
                loading && SubmitControlDisabled(loading) && pending.value == Submission(activeTab, formData)
      ensures pending.None? ==> loading == old(loading)
    {
      var ok := ValidateForm();
      if !ok {
        return None;
      }
      loading := true;
      pending := Some(Submission(activeTab, formData));
    }

    /**
     * The completion of a submission: issues the success toast for the tab the
     * submission started on and clears the in-flight flag.
     */
    method FinishSubmit(pending: Submission) returns (note: Notification)
      modifies this`loading
      ensures !loading && !SubmitControlDisabled(loading)
      ensures note == SuccessNotification(pending.tab)
    {
      note := SuccessNotification(pending.tab);
      loading := false;
    }

    /**
     * `handleSubmit` as one step: an invalid form stores its errors and issues
     * nothing; a valid one ends idle again with "Welcome back!" on login and
     * "Account created!" on signup.
     */
    method Submit() returns (note: Option<Notification>)
      requires Valid()
      modifies this`errors, this`loading
      ensures Valid()
      ensures errors == Validate(formData, activeTab)
      ensures note.Some? <==> FormValid(formData, activeTab)
      ensures note.Some? ==> !loading && note.value == SuccessNotification(activeTab)
      ensures note.Some? ==> note.value.title == (if activeTab == Login then "Welcome back!" else "Account created!")
      ensures note.None? ==> loading == old(loading)
    {
      var pending := BeginSubmit();
      if pending.None? {
        return None;
      }
      var n := FinishSubmit(pending.value);
      note := Some(n);
    }
  }

  /**
   * A fresh page, an e-mail and a password that pass the rules (such as
   * "a@b.com" and "secret1", see ValidLoginExample) typed on the login tab:
   * submitting welcomes the user back and ends idle.
   */
  method ValidLoginScenario(email: string, password: string)
    returns (note: Option<Notification>, loadingAfter: bool)
    requires FormValid(EmptyForm.(email := email, password := password), Login)
    ensures note == Some(SuccessNotification(Login))
    ensures !loadingAfter
  {
    var form := new AuthForm();
    form.InputChange(TextInput(Email, email));
    form.InputChange(TextInput(Password, password));
    assert form.formData == EmptyForm.(email := email, password := password);
    note := form.Submit();
    loadingAfter := form.loading;
  }

  /**
   * Values typed on the login tab survive a switch to signup; submitting the
   * signup form with no name, "bad", "123" and "456" sets all four errors, issues
   * nothing and never starts a submission.
   */
  method InvalidSignupScenario() returns (note: Option<Notification>, errs: Errors, loadingAfter: bool)
    ensures note.None?
    ensures errs == map[Email := EmailInvalid, Password := PasswordTooShort,
                         Name := NameRequired, ConfirmPassword := PasswordsMismatch]
    ensures !loadingAfter
  {
    var form := new AuthForm();
    form.InputChange(TextInput(Email, "bad"));
    form.InputChange(TextInput(Password, "123"));
    form.SelectTab(Signup);
    assert form.formData.email == "bad" && form.formData.password == "123";
    form.InputChange(TextInput(ConfirmPassword, "456"));
    InvalidSignupExample();
    note := form.Submit();
    errs := form.errors;
    loadingAfter := form.loading;
  }
}
