/** Whether the sign-up button is disabled, derived from the checklist and the
    three text fields on every render. */
module SubmitGate {
  import opened JsTrim
  import opened PasswordPolicy

  /** `rules.some((criteria) => !criteria.isValid)`: some rule is not valid. */
  function SomeInvalid(rules: seq<Rule>): (r: bool)
    ensures r <==> exists i :: 0 <= i < |rules| && !rules[i].isValid
  {
    if rules == [] then false
    else if !rules[0].isValid then true
    else SomeInvalid(rules[1..])
  }

  /** The button's `disabled` value: some rule fails, or the email is blank
      once trimmed, or the two password fields differ. */
  predicate SubmitDisabled(rules: seq<Rule>, email: string, password: string, confirmPassword: string) {
    SomeInvalid(rules) || Trim(email) == "" || password != confirmPassword
  }

  /** The gate spelled out: submitting is disabled exactly when one of the
      rules is invalid, or every character of the email is whitespace, or the
      confirmation is not the password. */
  lemma SubmitDisabledIff(rules: seq<Rule>, email: string, password: string, confirmPassword: string)
    ensures SubmitDisabled(rules, email, password, confirmPassword) <==>
              (exists i :: 0 <= i < |rules| && !rules[i].isValid)
              || (forall i :: 0 <= i < |email| ==> IsWhitespace(email[i]))
              || password != confirmPassword
  {
    TrimEmptyIff(email);
  }

  /** The password part of the policy: every rule of the catalogue holds. */
  predicate PolicySatisfied(password: string) {
    HasDigit(password) && HasUpper(password) && HasLower(password)
    && HasSymbol(password) && HasLatin(password) && LengthInRange(password)
  }

  /** With the checklist evaluated on the current password, the gate is open
      exactly when the password meets all six rules, the email has a
      non-whitespace character and the confirmation equals the password. */
  lemma GateOnEvaluated(email: string, password: string, confirmPassword: string)
    ensures !SubmitDisabled(Evaluate(password), email, password, confirmPassword) <==>
              PolicySatisfied(password)
              && (exists i :: 0 <= i < |email| && !IsWhitespace(email[i]))
              && password == confirmPassword
  {
    EvaluateSpec(password);
    TrimEmptyIff(email);
    var rules := Evaluate(password);
    if PolicySatisfied(password) {
      assert forall i :: 0 <= i < |rules| ==> rules[i].isValid by {
        forall i | 0 <= i < |rules| ensures rules[i].isValid {
          assert i == 0 || i == 1 || i == 2 || i == 3 || i == 4 || i == 5;
        }
      }
    } else {
      assert !rules[0].isValid || !rules[1].isValid || !rules[2].isValid
          || !rules[3].isValid || !rules[4].isValid || !rules[5].isValid;
    }
  }

  /** A single failing rule keeps the button disabled, whatever the email and
      the confirmation are. */
  lemma OneInvalidRuleDisables(rules: seq<Rule>, i: nat, email: string, password: string, confirmPassword: string)
    requires i < |rules| && !rules[i].isValid
    ensures SubmitDisabled(rules, email, password, confirmPassword)
  {
  }

  /** A blank email keeps the button disabled even when every rule holds and
      the two passwords agree. */
  lemma BlankEmailDisables(rules: seq<Rule>, email: string, password: string)
    requires forall i :: 0 <= i < |email| ==> IsWhitespace(email[i])
    ensures SubmitDisabled(rules, email, password, password)
  {
    TrimEmptyIff(email);
  }

  /** The sign-up of a well-formed email with the password "Abcdef1!ghijkl"
      typed twice is allowed; the same with "short1A!" is not. */
  lemma SignUpExamples()
    ensures !SubmitDisabled(Evaluate("Abcdef1!ghijkl"), "a@b.com", "Abcdef1!ghijkl", "Abcdef1!ghijkl")
    ensures SubmitDisabled(Evaluate("short1A!"), "a@b.com", "short1A!", "short1A!")
  {
    StrongPasswordExample();
    ShortPasswordExample();
    var email := "a@b.com";
    assert !IsWhitespace(email[0]);
    TrimEmptyIff(email);
    assert !Evaluate("short1A!")[5].isValid;
  }
}
