/** The password rules of the sign-up form: the six labelled criteria, the
    character classes and length bounds they test, and the re-evaluation of a
    whole checklist against a new password. */
module PasswordPolicy {

  /** One row of the checklist: the text shown to the user, which also serves
      as the key that selects the rule's test, and the last verdict. */
  datatype Rule = Rule(caption: string, isValid: bool)

  const NumberLabel: string := "One number"
  const UppercaseLabel: string := "One uppercase letter"
  const LowercaseLabel: string := "One lowercase letter"
  const SymbolLabel: string := "One symbol"
  const LatinLabel: string := "One Latin letter"
  const LengthLabel: string := "Use 14-50 characters"

  const MinLength: nat := 14
  const MaxLength: nat := 50

  /** The labels of the catalogue, in display order. */
  const CatalogueLabels: seq<string> :=
    [NumberLabel, UppercaseLabel, LowercaseLabel, SymbolLabel, LatinLabel, LengthLabel]

  /** The checklist as the form starts: every rule not yet satisfied. */
  const InitialRules: seq<Rule> :=
    [Rule(NumberLabel, false), Rule(UppercaseLabel, false), Rule(LowercaseLabel, false),
     Rule(SymbolLabel, false), Rule(LatinLabel, false), Rule(LengthLabel, false)]

  // Character classes of the regular expressions [0-9], [A-Z], [a-z],
  // [!@#$%^&*] and [a-zA-Z].

  predicate IsDigit(c: char) { '0' <= c <= '9' }
  predicate IsUpper(c: char) { 'A' <= c <= 'Z' }
  predicate IsLower(c: char) { 'a' <= c <= 'z' }
  predicate IsSymbol(c: char) {
    c == '!' || c == '@' || c == '#' || c == '$' || c == '%' || c == '^' || c == '&' || c == '*'
  }
  predicate IsLatin(c: char) { ('a' <= c <= 'z') || ('A' <= c <= 'Z') }

  // `/[...]/.test(password)`: some character of the password is in the class.

  predicate HasDigit(p: string) { exists i :: 0 <= i < |p| && IsDigit(p[i]) }
  predicate HasUpper(p: string) { exists i :: 0 <= i < |p| && IsUpper(p[i]) }
  predicate HasLower(p: string) { exists i :: 0 <= i < |p| && IsLower(p[i]) }
  predicate HasSymbol(p: string) { exists i :: 0 <= i < |p| && IsSymbol(p[i]) }
  predicate HasLatin(p: string) { exists i :: 0 <= i < |p| && IsLatin(p[i]) }

  predicate LengthInRange(p: string) { |p| >= MinLength && |p| <= MaxLength }

  /** The labels the evaluation recognises; any other label is skipped. */
  predicate IsKnownLabel(caption: string) {
    caption == NumberLabel || caption == UppercaseLabel || caption == LowercaseLabel
    || caption == SymbolLabel || caption == LatinLabel || caption == LengthLabel
  }

  /** The test a recognised label selects, applied to the password. */
  function Check(caption: string, password: string): bool
    requires IsKnownLabel(caption)
  {
    if caption == NumberLabel then HasDigit(password)
    else if caption == UppercaseLabel then HasUpper(password)
    else if caption == LowercaseLabel then HasLower(password)
    else if caption == SymbolLabel then HasSymbol(password)
    else if caption == LatinLabel then HasLatin(password)
    else LengthInRange(password)
  }

  /** One pass of the `switch` over a rule's label: a recognised label gets
      its verdict on the password, any other rule is kept as it is. */
  function Reevaluate(rule: Rule, password: string): (r: Rule)
    ensures r.caption == rule.caption
    ensures !IsKnownLabel(rule.caption) ==> r == rule
  {
    if IsKnownLabel(rule.caption) then rule.(isValid := Check(rule.caption, password)) else rule
  }

  function Labels(rules: seq<Rule>): seq<string> {
    seq(|rules|, i requires 0 <= i < |rules| => rules[i].caption)
  }

  /** The checklist after `validatePassword(password)`: every rule passed
      through Reevaluate, in order. It keeps the number, order and labels of
      the rules. */
  function Validated(rules: seq<Rule>, password: string): (r: seq<Rule>)
    ensures |r| == |rules|
    ensures forall i :: 0 <= i < |r| ==> r[i].caption == rules[i].caption
  {
    if rules == [] then [] else [Reevaluate(rules[0], password)] + Validated(rules[1..], password)
  }

  /** The checklist that reflects `password`: the catalogue evaluated on it. */
  function Evaluate(password: string): seq<Rule> {
    Validated(InitialRules, password)
  }

  /** Rule i of the validated checklist is rule i of the old one, re-evaluated. */
  lemma {:induction false} ValidatedAt(rules: seq<Rule>, password: string, i: nat)
    requires i < |rules|
    ensures Validated(rules, password)[i] == Reevaluate(rules[i], password)
  {
    if i > 0 {
      ValidatedAt(rules[1..], password, i - 1);
    }
  }

  /** What validatePassword does to each rule: a rule with a recognised label
      gets its test's verdict on the new password, a rule with any other label
      keeps its previous verdict; the label never changes. */
  lemma ValidatedSpec(rules: seq<Rule>, password: string, i: nat)
    requires i < |rules|
    ensures Validated(rules, password)[i].caption == rules[i].caption
    ensures IsKnownLabel(rules[i].caption) ==>
              Validated(rules, password)[i].isValid == Check(rules[i].caption, password)
    ensures !IsKnownLabel(rules[i].caption) ==> Validated(rules, password)[i] == rules[i]
  {
    ValidatedAt(rules, password, i);
  }

  /** Re-evaluating against the same password a second time changes nothing. */
  lemma ValidatedIdempotent(rules: seq<Rule>, password: string)
    ensures Validated(Validated(rules, password), password) == Validated(rules, password)
  {
    var once := Validated(rules, password);
    var twice := Validated(once, password);
    forall i | 0 <= i < |rules| ensures twice[i] == once[i] {
      ValidatedAt(rules, password, i);
      ValidatedAt(once, password, i);
    }
  }

  /** When every label is recognised, the previous verdicts do not matter:
      two checklists with the same labels validate to the same checklist. */
  lemma ValidatedForgetsVerdicts(a: seq<Rule>, b: seq<Rule>, password: string)
    requires Labels(a) == Labels(b)
    requires forall i :: 0 <= i < |a| ==> IsKnownLabel(a[i].caption)
    ensures Validated(a, password) == Validated(b, password)
  {
    assert |a| == |Labels(a)| == |Labels(b)| == |b|;
    forall i | 0 <= i < |a| ensures Validated(a, password)[i] == Validated(b, password)[i] {
      assert a[i].caption == Labels(a)[i] == Labels(b)[i] == b[i].caption;
      ValidatedAt(a, password, i);
      ValidatedAt(b, password, i);
    }
  }

  /** The catalogue evaluated on a password: six rules in display order, each
      valid exactly when its test holds of the password. */
  lemma EvaluateSpec(password: string)
    ensures Labels(Evaluate(password)) == CatalogueLabels
    ensures |Evaluate(password)| == 6
    ensures Evaluate(password)[0] == Rule(NumberLabel, HasDigit(password))
    ensures Evaluate(password)[1] == Rule(UppercaseLabel, HasUpper(password))
    ensures Evaluate(password)[2] == Rule(LowercaseLabel, HasLower(password))
    ensures Evaluate(password)[3] == Rule(SymbolLabel, HasSymbol(password))
    ensures Evaluate(password)[4] == Rule(LatinLabel, HasLatin(password))
    ensures Evaluate(password)[5] == Rule(LengthLabel, LengthInRange(password))
  {
    assert Labels(InitialRules) == CatalogueLabels;
    ValidatedAt(InitialRules, password, 0);
    ValidatedAt(InitialRules, password, 1);
    ValidatedAt(InitialRules, password, 2);
    ValidatedAt(InitialRules, password, 3);
    ValidatedAt(InitialRules, password, 4);
    ValidatedAt(InitialRules, password, 5);
  }

  /** The Latin-letter class is the union of the upper- and lower-case ones. */
  lemma LatinIffUpperOrLower(password: string)
    ensures HasLatin(password) <==> HasUpper(password) || HasLower(password)
    ensures Evaluate(password)[4].isValid <==>
              Evaluate(password)[1].isValid || Evaluate(password)[2].isValid
  {
    EvaluateSpec(password);
    if HasLatin(password) {
      var i :| 0 <= i < |password| && IsLatin(password[i]);
      assert IsUpper(password[i]) || IsLower(password[i]);
    }
  }

  /** The length rule holds exactly for 14 to 50 characters: 13 and 51 fail,
      14 and 50 pass. */
  lemma LengthRuleIff(password: string)
    ensures Evaluate(password)[5].isValid <==> 14 <= |password| <= 50
  {
    EvaluateSpec(password);
  }

  /** The empty password fails every rule, so the catalogue as the form starts
      (and as a submit leaves it) is what the empty password evaluates to. */
  lemma EvaluateEmpty()
    ensures Evaluate("") == InitialRules
  {
    EvaluateSpec("");
  }

  /** The checklist after a submit, `rules.map((criteria) => ({ ...criteria,
      isValid: false }))`: the same labels, in the same order, none valid. */
  function Cleared(rules: seq<Rule>): (r: seq<Rule>)
    ensures |r| == |rules|
    ensures forall i :: 0 <= i < |r| ==> r[i] == Rule(rules[i].caption, false)
  {
    seq(|rules|, i requires 0 <= i < |rules| => rules[i].(isValid := false))
  }

  /** Clearing a checklist with the catalogue's labels gives back the
      checklist the form starts with, which is the empty password's. */
  lemma ClearedCatalogue(rules: seq<Rule>)
    requires Labels(rules) == CatalogueLabels
    ensures Cleared(rules) == InitialRules == Evaluate("")
  {
    assert |rules| == |Labels(rules)|;
    forall i | 0 <= i < 6 ensures Cleared(rules)[i] == InitialRules[i] {
      assert rules[i].caption == CatalogueLabels[i];
    }
    EvaluateEmpty();
  }

  /** Every rule of a checklist with the catalogue's labels is recognised. */
  lemma CatalogueLabelsKnown(rules: seq<Rule>)
    requires Labels(rules) == CatalogueLabels
    ensures |rules| == 6
    ensures forall i :: 0 <= i < |rules| ==> IsKnownLabel(rules[i].caption)
  {
    assert |rules| == |Labels(rules)|;
    forall i | 0 <= i < |rules| ensures IsKnownLabel(rules[i].caption) {
      assert rules[i].caption == CatalogueLabels[i];
    }
  }

  /** A password with an upper- and a lower-case letter, a digit and a symbol,
      14 characters long, satisfies every rule. */
  lemma StrongPasswordExample()
    ensures forall i :: 0 <= i < |Evaluate("Abcdef1!ghijkl")| ==> Evaluate("Abcdef1!ghijkl")[i].isValid
  {
    var p := "Abcdef1!ghijkl";
    EvaluateSpec(p);
    assert IsUpper(p[0]) && IsLower(p[1]) && IsDigit(p[6]) && IsSymbol(p[7]) && IsLatin(p[0]);
  }

  /** An 8-character password with every character class fails only the
      length rule. */
  lemma ShortPasswordExample()
    ensures Evaluate("short1A!") == [Rule(NumberLabel, true), Rule(UppercaseLabel, true),
                                     Rule(LowercaseLabel, true), Rule(SymbolLabel, true),
                                     Rule(LatinLabel, true), Rule(LengthLabel, false)]
  {
    var p := "short1A!";
    EvaluateSpec(p);
    assert IsDigit(p[5]) && IsUpper(p[6]) && IsLower(p[0]) && IsSymbol(p[7]) && IsLatin(p[0]);
  }
}
