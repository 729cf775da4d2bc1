/**
 * The client-side form validators: e-mail, password and name predicates and the
 * error maps of the sign-up and log-in forms. Each regular expression is given
 * twice: as the check the code performs, written as a scan, and as the set of
 * strings the expression denotes, with a lemma that they agree.
 */
module Validators {
  import opened Strings
  import opened JsValues

  // ---------------------------------------------------------------------------
  // E-mail: /^[^\s@]+@[^\s@]+\.[^\s@]+$/ on the lower-cased text

  /** One `[^\s@]+` run: non-empty, no white space, no '@'. */
  predicate Part(x: string) {
    |x| > 0 && forall i :: 0 <= i < |x| ==> !IsSpace(x[i]) && x[i] != '@'
  }

  /** The strings the e-mail expression matches: `a@b.c` with three parts. */
  ghost predicate EmailPattern(s: string) {
    exists a, b, c :: Part(a) && Part(b) && Part(c) && s == a + "@" + b + "." + c
  }

  /**
   * The e-mail rule in plain terms: no white space, exactly one '@' with a
   * non-empty local part before it, and a '.' in the domain that is neither the
   * domain's first nor its last character.
   */
  predicate EmailShape(s: string) {
    (forall i :: 0 <= i < |s| ==> !IsSpace(s[i]))
    && exists at :: 0 < at < |s| && s[at] == '@'
         && (forall i :: 0 <= i < |s| && i != at ==> s[i] != '@')
         && exists k :: at + 1 < k < |s| - 1 && s[k] == '.'
  }

  lemma ShapeToPattern(s: string)
    requires EmailShape(s)
    ensures EmailPattern(s)
  {
    var at :| 0 < at < |s| && s[at] == '@'
      && (forall i :: 0 <= i < |s| && i != at ==> s[i] != '@')
      && exists k :: at + 1 < k < |s| - 1 && s[k] == '.';
    var k :| at + 1 < k < |s| - 1 && s[k] == '.';
    var a, b, c := s[..at], s[at + 1..k], s[k + 1..];
    assert forall i :: 0 <= i < |a| ==> a[i] == s[i];
    assert forall i :: 0 <= i < |b| ==> b[i] == s[at + 1 + i];
    assert forall i :: 0 <= i < |c| ==> c[i] == s[k + 1 + i];
    assert Part(a) && Part(b) && Part(c);
    assert s == a + "@" + b + "." + c;
  }

  lemma PatternToShape(s: string, a: string, b: string, c: string)
    requires Part(a) && Part(b) && Part(c) && s == a + "@" + b + "." + c
    ensures EmailShape(s)
  {
    var at, k := |a|, |a| + 1 + |b|;
    assert s[at] == '@' && s[k] == '.';
    forall i | 0 <= i < |s|
      ensures !IsSpace(s[i]) && (i != at ==> s[i] != '@')
    {
      if i < at {
        assert s[i] == a[i];
      } else if at < i < k {
        assert s[i] == b[i - at - 1];
      } else if k < i {
        assert s[i] == c[i - k - 1];
      }
    }
  }

  lemma EmailShapeIsPattern(s: string)
    ensures EmailShape(s) <==> EmailPattern(s)
  {
    if EmailShape(s) {
      ShapeToPattern(s);
    }
    if EmailPattern(s) {
      var a, b, c :| Part(a) && Part(b) && Part(c) && s == a + "@" + b + "." + c;
      PatternToShape(s, a, b, c);
    }
  }

  /** Lower-casing changes no white space, '@' or '.'. */
  lemma EmailShapeIgnoresCase(s: string)
    ensures EmailShape(ToLower(s)) <==> EmailShape(s)
  {
    var t := ToLower(s);
    assert forall i :: 0 <= i < |s| ==> (IsSpace(t[i]) <==> IsSpace(s[i]));
    assert forall i :: 0 <= i < |s| ==> (t[i] == '@' <==> s[i] == '@') && (t[i] == '.' <==> s[i] == '.');
  }

  /** `validateEmail`: the address, lower-cased, matches the expression. */
  function ValidateEmail(email: string): (ok: bool)
    ensures ok <==> EmailShape(email)
    ensures ok <==> EmailPattern(email)
  {
    EmailShapeIgnoresCase(email);
    EmailShapeIsPattern(email);
    EmailShape(ToLower(email))
  }

  // ---------------------------------------------------------------------------
  // Password: /^(?=.*[a-z])(?=.*[A-Z])(?=.*\d)(?=.*[@$!%*?&])[A-Za-z\d@$!%*?&]{8,}$/

  predicate IsSpecial(c: char) {
    c == '@' || c == '$' || c == '!' || c == '%' || c == '*' || c == '?' || c == '&'
  }

  /** The characters `[A-Za-z\d@$!%*?&]` admits. */
  predicate PasswordChar(c: char) {
    IsLower(c) || IsUpper(c) || IsDigit(c) || IsSpecial(c)
  }

  /** The password rule the expression states: length, alphabet, and the four required kinds. */
  predicate PasswordRule(p: string) {
    |p| >= 8
    && (forall i :: 0 <= i < |p| ==> PasswordChar(p[i]))
    && (exists i :: 0 <= i < |p| && IsLower(p[i]))
    && (exists i :: 0 <= i < |p| && IsUpper(p[i]))
    && (exists i :: 0 <= i < |p| && IsDigit(p[i]))
    && (exists i :: 0 <= i < |p| && IsSpecial(p[i]))
  }

  /** Which of the four required kinds a text contains. */
  datatype Kinds = Kinds(lower: bool, upper: bool, digit: bool, special: bool) {
    predicate All() {
      lower && upper && digit && special
    }
  }

  /**
   * One left-to-right pass over `p[i..]`: false at the first character outside
   * the alphabet, otherwise whether every kind has been seen by the end.
   */
  function Scan(p: string, i: nat, seen: Kinds): bool
    requires i <= |p|
    decreases |p| - i
  {
    if i == |p| then seen.All()
    else if !PasswordChar(p[i]) then false
    else
      var c := p[i];
      Scan(p, i + 1, Kinds(seen.lower || IsLower(c), seen.upper || IsUpper(c),
                           seen.digit || IsDigit(c), seen.special || IsSpecial(c)))
  }

  /** What `Scan` decides, in terms of the whole suffix. */
  lemma {:induction false} ScanMeaning(p: string, i: nat, seen: Kinds)
    requires i <= |p|
    ensures Scan(p, i, seen) <==>
      (forall j :: i <= j < |p| ==> PasswordChar(p[j]))
      && (seen.lower || exists j :: i <= j < |p| && IsLower(p[j]))
      && (seen.upper || exists j :: i <= j < |p| && IsUpper(p[j]))
      && (seen.digit || exists j :: i <= j < |p| && IsDigit(p[j]))
      && (seen.special || exists j :: i <= j < |p| && IsSpecial(p[j]))
    decreases |p| - i
  {
    if i < |p| && PasswordChar(p[i]) {
      var c := p[i];
      ScanMeaning(p, i + 1, Kinds(seen.lower || IsLower(c), seen.upper || IsUpper(c),
                                  seen.digit || IsDigit(c), seen.special || IsSpecial(c)));
    }
  }

  /** `validatePassword`. */
  function ValidatePassword(password: string): (ok: bool)
    ensures ok <==> PasswordRule(password)
  {
    ScanMeaning(password, 0, Kinds(false, false, false, false));
    |password| >= 8 && Scan(password, 0, Kinds(false, false, false, false))
  }

  // ---------------------------------------------------------------------------
  // Name

  /** `validateName`: at least two characters after trimming. */
  function ValidateName(name: string): (ok: bool)
    ensures ok <==> exists i, j :: 0 <= i < j < |name| && !IsSpace(name[i]) && !IsSpace(name[j])
  {
    NameMeaning(name);
    |Trim(name)| >= 2
  }

  lemma NameMeaning(name: string)
    ensures |Trim(name)| >= 2 <==> exists i, j :: 0 <= i < j < |name| && !IsSpace(name[i]) && !IsSpace(name[j])
  {
    var r := Trim(name);
    var a, b :| 0 <= a <= b <= |name| && r == name[a..b]
      && (forall i :: 0 <= i < a ==> IsSpace(name[i]))
      && (forall i :: b <= i < |name| ==> IsSpace(name[i]));
    if |r| >= 2 {
      assert name[a] == r[0] && name[b - 1] == r[|r| - 1];
    }
    if exists i, j :: 0 <= i < j < |name| && !IsSpace(name[i]) && !IsSpace(name[j]) {
      var i, j :| 0 <= i < j < |name| && !IsSpace(name[i]) && !IsSpace(name[j]);
      assert a <= i && j < b;
    }
  }

  // ---------------------------------------------------------------------------
  // Error maps

  /** The form fields; `None` is a field the form did not send. */
  datatype Values = Values(name: Option<string>, email: Option<string>, password: Option<string>, confirmPassword: Option<string>)

  type Errors = map<string, string>

  const NameMessage := "Please enter a valid name (at least 2 characters)"
  const EmailMessage := "Please enter a valid email address"
  const PasswordMessage := "Password must be at least 8 characters long and include uppercase, lowercase, number, and special character"
  const MismatchMessage := "Passwords do not match"
  const MissingPasswordMessage := "Please enter your password"

  predicate NameOk(v: Values) {
    Truthy(v.name) && ValidateName(v.name.value)
  }

  predicate EmailOk(v: Values) {
    Truthy(v.email) && ValidateEmail(v.email.value)
  }

  predicate PasswordOk(v: Values) {
    Truthy(v.password) && ValidatePassword(v.password.value)
  }

  /** `getSignupErrors`: one message per failed check. */
  function GetSignupErrors(v: Values): (errors: Errors)
    ensures "name" in errors <==> !NameOk(v)
    ensures "email" in errors <==> !EmailOk(v)
    ensures "password" in errors <==> !PasswordOk(v)
    ensures "confirmPassword" in errors <==> v.password != v.confirmPassword
    ensures errors.Keys <= {"name", "email", "password", "confirmPassword"}
    ensures "name" in errors ==> errors["name"] == NameMessage
    ensures "email" in errors ==> errors["email"] == EmailMessage
    ensures "password" in errors ==> errors["password"] == PasswordMessage
    ensures "confirmPassword" in errors ==> errors["confirmPassword"] == MismatchMessage
  {
    var e0: Errors := map[];
    var e1 := if !NameOk(v) then e0["name" := NameMessage] else e0;
    var e2 := if !EmailOk(v) then e1["email" := EmailMessage] else e1;
    var e3 := if !PasswordOk(v) then e2["password" := PasswordMessage] else e2;
    if v.password != v.confirmPassword then e3["confirmPassword" := MismatchMessage] else e3
  }

  /** Sign-up passes exactly when all four checks pass. */
  lemma SignupAcceptsIff(v: Values)
    ensures GetSignupErrors(v) == map[] <==>
      NameOk(v) && EmailOk(v) && PasswordOk(v) && v.password == v.confirmPassword
  {
    var e := GetSignupErrors(v);
    if NameOk(v) && EmailOk(v) && PasswordOk(v) && v.password == v.confirmPassword {
      assert e.Keys == {};
    }
  }

  /** The mismatch check depends on the two password fields only. */
  lemma MismatchIndependent(v: Values, w: Values)
    requires v.password == w.password && v.confirmPassword == w.confirmPassword
    ensures ("confirmPassword" in GetSignupErrors(v)) == ("confirmPassword" in GetSignupErrors(w))
  {
  }

  /** `getLoginErrors`: a bad e-mail and a missing password; no strength check. */
  function GetLoginErrors(v: Values): (errors: Errors)
    ensures "email" in errors <==> !EmailOk(v)
    ensures "password" in errors <==> !Truthy(v.password)
    ensures errors.Keys <= {"email", "password"}
    ensures "email" in errors ==> errors["email"] == EmailMessage
    ensures "password" in errors ==> errors["password"] == MissingPasswordMessage
  {
    var e0: Errors := map[];
    var e1 := if !EmailOk(v) then e0["email" := EmailMessage] else e0;
    if !Truthy(v.password) then e1["password" := MissingPasswordMessage] else e1
  }

  /** A weak password that sign-up rejects still passes the log-in form. */
  lemma LoginSkipsStrength(email: string)
    requires ValidateEmail(email)
    ensures var v := Values(None, Some(email), Some("weak"), None);
      "password" in GetSignupErrors(v) && GetLoginErrors(v) == map[]
  {
    var v := Values(None, Some(email), Some("weak"), None);
    assert !PasswordRule("weak");
    assert GetLoginErrors(v).Keys == {};
  }
}
