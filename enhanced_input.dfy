/**
 * The text input primitive: what it renders, as a function of its props. The
 * markup and class strings are abstracted to the decisions they encode: the
 * input's type, the error and success states, and which optional elements
 * (label, icon slot, visibility toggle, status icons, error line) are present.
 */
module EnhancedInput {
  import opened Wrappers

  /** The props the input reads; an absent optional prop is `None` or `false`. */
  datatype InputProps = InputProps(
    inputType: Option<string>,
    hasIcon: bool,
    isPassword: bool,
    showPassword: bool,
    error: Option<string>,
    success: bool,
    labelText: Option<string>)

  /** The visibility toggle: its accessible name, and whether it shows the crossed eye. */
  datatype Toggle = Toggle(ariaLabel: string, eyeOff: bool)

  /** What is rendered. */
  datatype InputView = InputView(
    labelText: Option<string>,
    iconSlot: bool,
    inputType: Option<string>,
    padLeft: bool,
    padRight: bool,
    errorStyle: bool,
    successStyle: bool,
    toggle: Option<Toggle>,
    statusShown: bool,
    errorIcon: bool,
    successIcon: bool,
    errorMessage: Option<string>)

  /** JavaScript truthiness of an optional string: present and not "". */
  predicate Truthy(s: Option<string>)
  {
    s.Some? && s.value != ""
  }

  /**
   * Renders the input. A password input shows its text only while
   * `showPassword` is set; an error always wins over success, so at most one
   * status icon appears; the toggle exists exactly on password inputs.
   */
  function Render(p: InputProps): (v: InputView)
    ensures p.isPassword ==> v.inputType == Some(if p.showPassword then "text" else "password")
    ensures !p.isPassword ==> v.inputType == p.inputType
    ensures v.errorStyle <==> Truthy(p.error)
    ensures v.successStyle <==> p.success && !Truthy(p.error)
    ensures !(v.errorStyle && v.successStyle)
    ensures v.errorIcon == v.errorStyle && v.successIcon == v.successStyle
    ensures v.statusShown <==> v.errorIcon || v.successIcon
    ensures v.errorMessage.Some? <==> v.errorIcon
    ensures v.errorMessage.Some? ==> v.errorMessage == p.error
    ensures v.toggle.Some? <==> p.isPassword
    ensures v.toggle.Some? ==>
              && v.toggle.value.ariaLabel == (if p.showPassword then "Hide password" else "Show password")
              && v.toggle.value.eyeOff == p.showPassword
    ensures v.labelText.Some? <==> Truthy(p.labelText)
    ensures Truthy(p.labelText) ==> v.labelText == p.labelText
    ensures v.padLeft == v.iconSlot == p.hasIcon
    ensures v.padRight == p.isPassword
  {
    var inputType := if p.isPassword then Some(if p.showPassword then "text" else "password") else p.inputType;
    var hasError := Truthy(p.error);
    var hasSuccess := p.success && !hasError;
    InputView(
      labelText := if Truthy(p.labelText) then p.labelText else None,
      iconSlot := p.hasIcon,
      inputType := inputType,
      padLeft := p.hasIcon,
      padRight := p.isPassword,
      errorStyle := hasError,
      successStyle := hasSuccess,
      toggle := if p.isPassword
                then Some(Toggle(if p.showPassword then "Hide password" else "Show password", p.showPassword))
                else None,
      statusShown := hasError || hasSuccess,
      errorIcon := hasError,
      successIcon := hasSuccess,
      errorMessage := if Truthy(p.error) then p.error else None)
  }

  /**
   * Flipping the visibility of a password input changes only its type (between
   * "text" and "password") and the toggle; errors, success and layout stay.
   */
  lemma ToggleChangesOnlyVisibility(p: InputProps)
    requires p.isPassword
    ensures var v, w := Render(p), Render(p.(showPassword := !p.showPassword));
            && {v.inputType, w.inputType} == {Some("text"), Some("password")}
            && w == v.(inputType := w.inputType, toggle := w.toggle)
            && w.toggle.Some? && v.toggle.Some? && w.toggle.value.ariaLabel != v.toggle.value.ariaLabel
  {
  }

  /** While there is an error message, the success prop makes no difference. */
  lemma ErrorOverridesSuccess(p: InputProps)
    requires Truthy(p.error)
    ensures Render(p.(success := true)) == Render(p.(success := false))
    ensures Render(p).errorIcon && !Render(p).successIcon
  {
  }
}
