/** The state of the sign-up form component and its event handlers. Each
    handler is one atomic update that reads the state as it was before the
    event. */
module SignUpForm {
  import opened PasswordPolicy
  import opened SubmitGate

  class FormModel {
    var email: string
    var password: string
    var confirmPassword: string
    var showPassword: bool
    /** Whether the "Submitted Successfully!" notice is shown. */
    var isSubmitted: bool
    /** The match indicator, set only when the confirmation field changes. */
    var isPasswordMatch: bool
    /** The checklist, in display order. */
    var rules: seq<Rule>

    /** The checklist always shows the catalogue evaluated on the current
        password. */
    ghost predicate Valid()
      reads this
    {
      rules == Evaluate(password)
    }

    /** The state the component mounts with. */
    constructor ()
      ensures Valid()
      ensures email == "" && password == "" && confirmPassword == ""
      ensures !showPassword && !isSubmitted && !isPasswordMatch
      ensures rules == InitialRules
    {
      email, password, confirmPassword := "", "", "";
      showPassword, isSubmitted, isPasswordMatch := false, false, false;
      rules := InitialRules;
      EvaluateEmpty();
    }

    /** `isSubmitDisabled`, recomputed from the current fields. */
    function IsSubmitDisabled(): bool
      reads this
    {
      SubmitDisabled(rules, email, password, confirmPassword)
    }

    /** `handleEmailChange`: only the email changes. */
    method OnEmailChange(value: string)
      requires Valid()
      modifies this`email
      ensures Valid()
      ensures email == value
    {
      email := value;
    }

    /** `validatePassword`: every rule of the checklist is re-evaluated in
        turn against `newPassword`, then the checklist is replaced. */
    method ValidatePassword(newPassword: string)
      modifies this`rules
      ensures rules == Validated(old(rules), newPassword)
    {
      var updated := rules;
      var i := 0;
      while i < |updated|
        invariant 0 <= i <= |updated| == |rules|
        invariant forall k :: 0 <= k < i ==> updated[k] == Reevaluate(rules[k], newPassword)
        invariant updated[i..] == rules[i..]
      {
        updated := updated[i := Reevaluate(updated[i], newPassword)];
        i := i + 1;
      }
      forall k | 0 <= k < |rules| ensures updated[k] == Validated(rules, newPassword)[k] {
        ValidatedAt(rules, newPassword, k);
      }
      rules := updated;
    }

    /** `handlePasswordChange`: the password field takes the new text and the
        checklist is re-evaluated on it. The match indicator is left as it
        was, even though the password it was computed against has changed. */
    method OnPasswordChange(value: string)
      requires Valid()
      modifies this`password, this`rules
      ensures Valid()
      ensures password == value
      ensures rules == Validated(old(rules), value)
      ensures isPasswordMatch == old(isPasswordMatch)
    {
      password := value;
      ValidatePassword(value);
      CatalogueLabelsKnown(old(rules));
      ValidatedForgetsVerdicts(old(rules), InitialRules, value);
    }

    /** `handleShowPassword`: flips the visibility of the password field. */
    method ToggleShow()
      requires Valid()
      modifies this`showPassword
      ensures Valid()
      ensures showPassword == !old(showPassword)
    {
      showPassword := !showPassword;
    }

    /** `validatePasswordConfirmation`: the indicator compares the password as
        it stands with the confirmation text, exactly and case-sensitively. */
    method ValidatePasswordConfirmation(confirmation: string)
      modifies this`isPasswordMatch
      ensures isPasswordMatch <==> password == confirmation
    {
      isPasswordMatch := password == confirmation;
    }

    /** `handleConfirmPasswordChange`: the confirmation field takes the new
        text and the indicator is recomputed against the current password. */
    method OnConfirmChange(value: string)
      requires Valid()
      modifies this`confirmPassword, this`isPasswordMatch
      ensures Valid()
      ensures confirmPassword == value
      ensures isPasswordMatch <==> password == value
    {
      confirmPassword := value;
      ValidatePasswordConfirmation(value);
    }

    /** `handleSubmit`, reachable only through the enabled button: the notice
        is raised, the fields are cleared, the password is hidden again and
        every rule is reset to not valid under its own label. The match
        indicator is not touched. Right afterwards the button is disabled. */
    method Submit()
      requires Valid() && !IsSubmitDisabled()
      modifies this`isSubmitted, this`email, this`password, this`confirmPassword,
               this`showPassword, this`rules
      ensures Valid()
      ensures isSubmitted
      ensures email == "" && password == "" && confirmPassword == "" && !showPassword
      ensures rules == Cleared(old(rules)) == InitialRules
      ensures isPasswordMatch == old(isPasswordMatch)
      ensures IsSubmitDisabled()
    {
      isSubmitted := true;
      email, password, confirmPassword, showPassword := "", "", "", false;
      EvaluateSpec(old(password));
      ClearedCatalogue(rules);
      rules := Cleared(rules);
      BlankEmailDisables(rules, email, password);
    }

    /** The end of the notice's delay: the notice is hidden. */
    method ExpireNotice()
      requires Valid()
      modifies this`isSubmitted
      ensures Valid()
      ensures !isSubmitted
    {
      isSubmitted := false;
    }
  }

  /** Filling in a fresh form with an email that has a non-blank character
      and a password that meets every rule, typed twice: the checklist shows
      every rule met, the indicator says "match" and the button is enabled. */
  method FillInScenario(email: string, password: string) returns (f: FormModel)
    requires PolicySatisfied(password)
    requires exists i :: 0 <= i < |email| && !JsTrim.IsWhitespace(email[i])
    ensures fresh(f) && f.Valid() && !f.IsSubmitDisabled() && f.isPasswordMatch
    ensures f.email == email && f.password == password && f.confirmPassword == password
  {
    GateOnEvaluated(email, password, password);
    f := new FormModel();
    f.OnEmailChange(email);
    f.OnPasswordChange(password);
    f.OnConfirmChange(password);
  }

  /** A whole sign-up: the form filled in as above, submitted, and the notice
      left to expire. The form comes back with empty fields, the password
      hidden and the initial checklist. The match indicator stays true, since
      a submit never resets it. */
  method SignUpScenario(email: string, password: string) returns (f: FormModel)
    requires PolicySatisfied(password)
    requires exists i :: 0 <= i < |email| && !JsTrim.IsWhitespace(email[i])
    ensures f.Valid() && f.rules == InitialRules && !f.isSubmitted && f.isPasswordMatch
    ensures f.email == "" && f.password == "" && f.confirmPassword == "" && !f.showPassword
  {
    f := FillInScenario(email, password);
    f.Submit();
    f.ExpireNotice();
  }

  /** Typing the confirmation first and the password afterwards leaves the
      indicator saying "no match" although the two fields are equal: only the
      gate's own comparison reflects the fields. */
  method StaleMatchScenario() returns (f: FormModel)
    ensures f.Valid()
    ensures f.password == f.confirmPassword && !f.isPasswordMatch
  {
    f := new FormModel();
    f.OnConfirmChange("Abcdef1!ghijkl");
    f.OnPasswordChange("Abcdef1!ghijkl");
  }
}
