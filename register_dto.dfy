/**
  `RegisterDto`: name, email and password lengths, the email format (a
  parameter here: it is the validator library's own check), and the
  password rule of one lowercase letter, one uppercase letter and one digit.

  The password rule is written as `/^(?=.*[a-z])(?=.*[A-Z])(?=.*\d)/`. Each
  lookahead's `.*` stops at a line terminator, so as written the three
  characters must all occur before the password's first line break.
  `PasswordPatternAsWritten` is that reading; `PasswordPattern`, which the
  validator below uses, is the rule the message states.
 */
module RegisterDto {
  import opened Wrappers
  import opened JsString
  import opened FormValidation

  datatype RegisterForm = RegisterForm(name: Value, email: Value, password: Value)

  /** What the auth service receives. */
  datatype RegisterInput = RegisterInput(name: string, email: string, password: string)

  predicate IsLower(c: char) { 'a' <= c <= 'z' }
  predicate IsUpper(c: char) { 'A' <= c <= 'Z' }
  predicate IsDigit(c: char) { '0' <= c <= '9' }

  /** No line terminator: what `.*` can run over. */
  predicate OnOneLine(s: string) {
    forall k :: 0 <= k < |s| ==> !IsLineTerminator(s[k])
  }

  /** `(?=.*[class])` at the start of `s`: a character of the class preceded
      only by characters `.` matches. */
  predicate LookaheadFinds(s: string, inClass: char -> bool) {
    exists i :: 0 <= i < |s| && inClass(s[i]) && OnOneLine(s[..i])
  }

  /** The pattern as written. */
  predicate PasswordPatternAsWritten(s: string) {
    LookaheadFinds(s, IsLower) && LookaheadFinds(s, IsUpper) && LookaheadFinds(s, IsDigit)
  }

  /** A character of the class anywhere in `s`. */
  predicate Contains(s: string, inClass: char -> bool) {
    exists i :: 0 <= i < |s| && inClass(s[i])
  }

  /** The rule the error message states: each kind of character somewhere. */
  predicate PasswordPattern(s: string) {
    Contains(s, IsLower) && Contains(s, IsUpper) && Contains(s, IsDigit)
  }

  /** On a one-line password the two readings agree; in general the pattern as
      written accepts only passwords the intended rule accepts. */
  lemma PatternReadingsAgreeOnOneLine(s: string)
    ensures PasswordPatternAsWritten(s) ==> PasswordPattern(s)
    ensures OnOneLine(s) ==> (PasswordPatternAsWritten(s) <==> PasswordPattern(s))
  {
    if OnOneLine(s) {
      forall i | 0 <= i < |s| ensures OnOneLine(s[..i]) {
        assert forall k :: 0 <= k < i ==> s[..i][k] == s[k];
      }
    }
  }

  /** A two-line password with all three kinds of character, whose uppercase
      letter and digit come after the line break, is refused as written. */
  lemma LineBreakHidesUppercase()
    ensures PasswordPattern("abcdef\nA1")
    ensures !PasswordPatternAsWritten("abcdef\nA1")
  {
    var s := "abcdef\nA1";
    assert IsLower(s[0]) && IsUpper(s[7]) && IsDigit(s[8]);
    forall i | 0 <= i < |s| && IsUpper(s[i]) ensures !OnOneLine(s[..i]) {
      assert i >= 7;
      assert s[..i][6] == '\n';
    }
  }

  datatype Property = Name | Email | Password

  predicate NameOk(v: Value) { IsNotEmpty(v) && MinLength(v, 3) && MaxLength(v, 50) }
  predicate EmailOk(v: Value, isEmail: string -> bool) {
    v.Str? && isEmail(v.s) && IsNotEmpty(v) && MaxLength(v, 250)
  }
  predicate PasswordOk(v: Value) {
    IsNotEmpty(v) && MinLength(v, 6) && MaxLength(v, 100) && Matches(v, PasswordPattern)
  }

  /** The password check with the pattern as written. */
  predicate PasswordOkAsWritten(v: Value) {
    IsNotEmpty(v) && MinLength(v, 6) && MaxLength(v, 100) && Matches(v, PasswordPatternAsWritten)
  }

  /** The difference is the line break alone: the password above passes the
      intended check and fails the one as written. */
  lemma PasswordChecksDiffer()
    ensures PasswordOk(Str("abcdef\nA1")) && !PasswordOkAsWritten(Str("abcdef\nA1"))
  {
    LineBreakHidesUppercase();
  }

  predicate PropertyOk(form: RegisterForm, isEmail: string -> bool, p: Property) {
    match p
    case Name => NameOk(form.name)
    case Email => EmailOk(form.email, isEmail)
    case Password => PasswordOk(form.password)
  }

  /** The failing properties, in declaration order. */
  function Errors(form: RegisterForm, isEmail: string -> bool): (r: seq<Property>)
    ensures r == [] <==> NameOk(form.name) && EmailOk(form.email, isEmail) && PasswordOk(form.password)
    ensures Name in r <==> !NameOk(form.name)
    ensures Email in r <==> !EmailOk(form.email, isEmail)
    ensures Password in r <==> !PasswordOk(form.password)
  {
    var r := Failing([Name, Email, Password], p => PropertyOk(form, isEmail, p));
    assert forall p :: p in r ==> p == Name || p == Email || p == Password;
    r
  }

  /** Validation with the email format check `isEmail`. */
  function Validate(form: RegisterForm, isEmail: string -> bool): (r: Result<RegisterInput, seq<Property>>)
    ensures r.Ok? <==> NameOk(form.name) && EmailOk(form.email, isEmail) && PasswordOk(form.password)
    ensures r.Ok? ==> && 3 <= |r.value.name| <= 50
                      && 1 <= |r.value.email| <= 250 && isEmail(r.value.email)
                      && 6 <= |r.value.password| <= 100 && PasswordPattern(r.value.password)
                      && form == RegisterForm(Str(r.value.name), Str(r.value.email), Str(r.value.password))
    ensures r.Err? ==> r.error == Errors(form, isEmail)
  {
    var errors := Errors(form, isEmail);
    if errors != [] then Err(errors)
    else Ok(RegisterInput(form.name.s, form.email.s, form.password.s))
  }
}
