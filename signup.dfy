/** The sign-up form: the e-mail check, the three field errors, clearing an error when
    its field is typed into, and the gate in front of submission. */
module Signup {
  import opened Text

  // ---------------------------------------------------------------------------
  // The e-mail check

  /** A run of the regular expression's class `[^\s@]+`. */
  predicate Atom(x: string) {
    x != [] && forall k | 0 <= k < |x| :: !IsSpace(x[k]) && x[k] != '@'
  }

  /** `/^[^\s@]+@[^\s@]+\.[^\s@]+$/` matches `s` with its `@` at `i` and the dot it
      needs at `j`. */
  predicate MatchesAt(s: string, i: int, j: int) {
    && 0 <= i < j < |s|
    && s[i] == '@' && s[j] == '.'
    && Atom(s[..i]) && Atom(s[i + 1..j]) && Atom(s[j + 1..])
  }

  predicate NoBlank(s: string) {
    forall k | 0 <= k < |s| :: !IsSpace(s[k])
  }

  /** The domain: no blank, and a dot with a character on each side. */
  predicate DomainOk(d: string) {
    NoBlank(d) && |d| >= 3 && '.' in d[1..|d| - 1]
  }

  /** One `@`, a non-blank name before it and a dotted domain after. */
  predicate OneAtDotted(email: string) {
    var parts := Split(email, '@');
    |parts| == 2 && parts[0] != [] && NoBlank(parts[0]) && DomainOk(parts[1])
  }

  /** `validateEmail`: the check accepts exactly the addresses the pattern matches. */
  function ValidateEmail(email: string): (b: bool)
    ensures b <==> exists i, j :: MatchesAt(email, i, j)
  {
    OneAtDottedMatchesPattern(email);
    OneAtDotted(email)
  }

  lemma SplitAtOnlyAt(s: string, i: nat)
    requires i < |s| && s[i] == '@' && '@' !in s[..i] && '@' !in s[i + 1..]
    ensures Split(s, '@') == [s[..i], s[i + 1..]]
  {
    assert s == s[..i] + ['@'] + s[i + 1..];
    SplitAtSeparator(s[..i], '@', s[i + 1..]);
    SplitNoSeparator(s[i + 1..], '@');
  }

  lemma ValidHasMatch(s: string)
    requires OneAtDotted(s)
    ensures exists i, j :: MatchesAt(s, i, j)
  {
    var parts := Split(s, '@');
    var i := |parts[0]|;
    var d := parts[1];
    assert s == parts[0] + "@" + d by {
      JoinSplit(s, '@');
      assert Join(parts, "@") == parts[0] + "@" + parts[1];
    }
    var k :| 0 <= k < |d[1..|d| - 1]| && d[1..|d| - 1][k] == '.';
    var j := i + 2 + k;
    assert s[..i] == parts[0] && s[i + 1..] == d;
    assert s[i + 1..j] == d[..k + 1] && s[j + 1..] == d[k + 2..];
    assert MatchesAt(s, i, j);
  }

  lemma MatchIsValid(s: string, i: int, j: int)
    requires MatchesAt(s, i, j)
    ensures OneAtDotted(s)
  {
    var d := s[i + 1..];
    assert d == s[i + 1..j] + ['.'] + s[j + 1..];
    assert '@' !in s[..i];
    assert '@' !in d;
    SplitAtOnlyAt(s, i);
    var k := j - i - 2;
    assert d[1..|d| - 1][k] == '.';
  }

  /** One `@` with a non-blank name before it and a dotted domain after it is exactly what
      the pattern matches. */
  lemma OneAtDottedMatchesPattern(s: string)
    ensures OneAtDotted(s) <==> exists i, j :: MatchesAt(s, i, j)
  {
    if OneAtDotted(s) {
      ValidHasMatch(s);
    }
    if exists i, j :: MatchesAt(s, i, j) {
      var i, j :| MatchesAt(s, i, j);
      MatchIsValid(s, i, j);
    }
  }

  /** An accepted address has exactly one `@` and no blank anywhere. */
  lemma ValidEmailShape(s: string)
    requires ValidateEmail(s)
    ensures CountChar(s, '@') == 1
    ensures NoBlank(s)
  {
    var i, j :| MatchesAt(s, i, j);
    assert forall k | 0 <= k < i :: s[k] == s[..i][k];
    assert forall k | i < k < j :: s[k] == s[i + 1..j][k - i - 1];
    assert forall k | j < k < |s| :: s[k] == s[j + 1..][k - j - 1];
  }

  // ---------------------------------------------------------------------------
  // Field errors

  datatype FormData = FormData(name: string, email: string, password: string)

  datatype Errors = Errors(name: string, email: string, password: string)

  datatype Field = Name | Email | Password

  function NameError(name: string): string {
    if Trim(name) == "" then "Name is required" else ""
  }

  function EmailError(email: string): string {
    if email == "" then "Email is required"
    else if !ValidateEmail(email) then "Please enter a valid email"
    else ""
  }

  function PasswordError(password: string): string {
    if |password| < 6 then "Password must be at least 6 characters" else ""
  }

  /** `newErrors`: a name is refused exactly when it is blank; an address when it does
      not have the shape the pattern asks for, the empty one with its own message; a
      password when it is shorter than six characters. */
  function Validate(form: FormData): (r: Errors)
    ensures r.name != "" <==> AllSpace(form.name)
    ensures form.email == "" ==> r.email == "Email is required"
    ensures form.email != "" && !ValidateEmail(form.email) ==> r.email == "Please enter a valid email"
    ensures r.email == "" <==> exists i, j :: MatchesAt(form.email, i, j)
    ensures r.password != "" <==> |form.password| < 6
  {
    TrimSpec(form.name);
    Errors(NameError(form.name), EmailError(form.email), PasswordError(form.password))
  }

  predicate NoErrors(e: Errors) {
    e.name == "" && e.email == "" && e.password == ""
  }

  /** The form passes exactly when the name has a non-blank character, the address
      matches the pattern and the password has at least six characters. */
  lemma NoErrorsIff(form: FormData)
    ensures NoErrors(Validate(form)) <==>
      !AllSpace(form.name) && (exists i, j :: MatchesAt(form.email, i, j)) && |form.password| >= 6
  {
  }

  function SetField(form: FormData, field: Field, value: string): FormData {
    match field
    case Name => form.(name := value)
    case Email => form.(email := value)
    case Password => form.(password := value)
  }

  function ClearError(e: Errors, field: Field): Errors {
    match field
    case Name => e.(name := "")
    case Email => e.(email := "")
    case Password => e.(password := "")
  }

  function FieldOf(form: FormData, field: Field): string {
    match field
    case Name => form.name
    case Email => form.email
    case Password => form.password
  }

  function ErrorOf(e: Errors, field: Field): string {
    match field
    case Name => e.name
    case Email => e.email
    case Password => e.password
  }

  // ---------------------------------------------------------------------------
  // The form's state

  class SignupForm {
    var formData: FormData
    var errors: Errors
    var isSubmitting: bool
    var isSuccess: bool
    var userName: string

    constructor()
      ensures formData == FormData("", "", "") && errors == Errors("", "", "")
      ensures !isSubmitting && !isSuccess && userName == ""
    {
      formData := FormData("", "", "");
      errors := Errors("", "", "");
      isSubmitting := false;
      isSuccess := false;
      userName := "";
    }

    /** `handleChange`: the field takes the typed value and its error, if it had one, is
        cleared. */
    method HandleChange(field: Field, value: string)
      modifies this
      ensures formData == SetField(old(formData), field, value)
      ensures errors == ClearError(old(errors), field)
      ensures isSubmitting == old(isSubmitting) && isSuccess == old(isSuccess) && userName == old(userName)
    {
      formData := SetField(formData, field, value);
      if ErrorOf(errors, field) != "" {
        errors := ClearError(errors, field);
      }
    }

    /** `handleSubmit`: the errors are shown, and only a form without any starts the
        submission under the typed name. */
    method HandleSubmit()
      modifies this
      ensures errors == Validate(formData) && formData == old(formData)
      ensures NoErrors(errors) ==> isSubmitting && userName == formData.name
      ensures !NoErrors(errors) ==> isSubmitting == old(isSubmitting) && userName == old(userName)
      ensures isSuccess == old(isSuccess)
    {
      var newErrors := Validate(formData);
      errors := newErrors;
      if !NoErrors(newErrors) {
        return;
      }
      isSubmitting := true;
      userName := formData.name;
    }

    /** The timer after a submission: it is over and succeeded. */
    method SubmitFinished()
      modifies this
      ensures !isSubmitting && isSuccess
      ensures formData == old(formData) && errors == old(errors) && userName == old(userName)
    {
      isSubmitting := false;
      isSuccess := true;
    }
  }

  /** Typing into a field changes that field alone, and leaves it without an error while the
      other errors stay. */
  lemma ChangeTouchesOneField(form: FormData, e: Errors, field: Field, value: string, other: Field)
    requires other != field
    ensures FieldOf(SetField(form, field, value), field) == value
    ensures ErrorOf(ClearError(e, field), field) == ""
    ensures FieldOf(SetField(form, field, value), other) == FieldOf(form, other)
    ensures ErrorOf(ClearError(e, field), other) == ErrorOf(e, other)
  {
  }
}
