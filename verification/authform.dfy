/** The login/signup form check `validateForm`
    (src/components/AuthDialog.tsx:83-111): an ordered list of rules, the
    first failing one deciding the message shown. */
module AuthForm {
  import opened Text

  datatype Mode = Login | Signup

  datatype Form = Form(name: string, email: string, password: string, confirmPassword: string)

  /** The checks, each named after the condition it demands. */
  datatype Rule =
    | NameGiven
    | PasswordsMatch
    | PasswordLongEnough
    | CredentialsGiven
    | EmailShaped

  datatype Verdict = Accept | Reject(rule: Rule)

  const MinPasswordLength := 6

  /** The message shown when `r` fails. */
  function Message(r: Rule): string {
    match r
    case NameGiven => "Name is required"
    case PasswordsMatch => "Passwords do not match"
    case PasswordLongEnough => "Password must be at least 6 characters"
    case CredentialsGiven => "Email and password are required"
    case EmailShaped => "Please enter a valid email address"
  }

  // ------------------------------------------------------------ the email pattern

  /** `[^\s@]`: neither whitespace nor `@`. */
  predicate PlainChar(c: char) {
    !IsWhitespace(c) && c != '@'
  }

  /** `[^\s@]+`. */
  predicate PlainRun(s: string) {
    |s| > 0 && forall i :: 0 <= i < |s| ==> PlainChar(s[i])
  }

  /** The regular expression `^[^\s@]+@[^\s@]+\.[^\s@]+$`, read literally. */
  ghost predicate MatchesEmailPattern(e: string) {
    exists a: string, b: string, c: string ::
      e == a + "@" + b + "." + c && PlainRun(a) && PlainRun(b) && PlainRun(c)
  }

  /** The position of the first `@`, or |s| when there is none. */
  function AtIndex(s: string): (k: nat)
    ensures k <= |s|
    ensures forall i :: 0 <= i < k ==> s[i] != '@'
    ensures k < |s| ==> s[k] == '@'
    decreases |s|
  {
    if |s| == 0 then 0
    else if s[0] == '@' then 0
    else 1 + AtIndex(s[1..])
  }

  /** `d` holds a `.` that is neither its first nor its last character. */
  predicate InnerDot(d: string) {
    exists k :: 1 <= k < |d| - 1 && d[k] == '.'
  }

  /** The pattern as the storefront applies it: no whitespace, exactly one `@`
      with something before it, and a domain with an inner dot. */
  predicate IsEmail(e: string) {
    && (forall i :: 0 <= i < |e| ==> !IsWhitespace(e[i]))
    && var at := AtIndex(e);
    && 0 < at < |e|
    && (forall i :: at < i < |e| ==> e[i] != '@')
    && InnerDot(e[at + 1..])
  }

  /** The executable check accepts exactly the strings the regular expression matches. */
  lemma EmailCheckIsPattern(e: string)
    ensures IsEmail(e) <==> MatchesEmailPattern(e)
  {
    if IsEmail(e) {
      var at := AtIndex(e);
      var d := e[at + 1..];
      var k :| 1 <= k < |d| - 1 && d[k] == '.';
      var a, b, c := e[..at], d[..k], d[k + 1..];
      assert d == b + "." + c;
      assert e == a + "@" + b + "." + c by {
        assert e == e[..at] + [e[at]] + d;
      }
      assert PlainRun(a) && PlainRun(b) && PlainRun(c) by {
        forall i | 0 <= i < |b|
          ensures PlainChar(b[i])
        {
          assert b[i] == e[at + 1 + i];
        }
        forall i | 0 <= i < |c|
          ensures PlainChar(c[i])
        {
          assert c[i] == e[at + 1 + k + 1 + i];
        }
      }
    }
    if MatchesEmailPattern(e) {
      var a: string, b: string, c: string :|
        e == a + "@" + b + "." + c && PlainRun(a) && PlainRun(b) && PlainRun(c);
      PatternShape(e, a, b, c);
    }
  }

  lemma PatternShape(e: string, a: string, b: string, c: string)
    requires e == a + "@" + b + "." + c && PlainRun(a) && PlainRun(b) && PlainRun(c)
    ensures IsEmail(e)
  {
    var at := |a|;
    assert e[at] == '@';
    forall i | 0 <= i < at
      ensures e[i] == a[i]
    {
    }
    AtIndexFinds(e, at);
    var d := e[at + 1..];
    assert d == b + "." + c;
    assert d[|b|] == '.';
    forall i | 0 <= i < |e|
      ensures !IsWhitespace(e[i]) && (i != at ==> e[i] != '@')
    {
      if i < at {
        assert e[i] == a[i];
      } else if i == at {
      } else if i < at + 1 + |b| {
        assert e[i] == b[i - at - 1];
      } else if i == at + 1 + |b| {
        assert e[i] == '.';
      } else {
        assert e[i] == c[i - at - 2 - |b|];
      }
    }
  }

  lemma {:induction false} AtIndexFinds(s: string, k: nat)
    requires k < |s| && s[k] == '@' && forall i :: 0 <= i < k ==> s[i] != '@'
    ensures AtIndex(s) == k
    decreases k
  {
    if k > 0 {
      AtIndexFinds(s[1..], k - 1);
    }
  }

  // ------------------------------------------------------------ the rules

  /** Whether `f` satisfies rule `r`. */
  predicate Holds(r: Rule, f: Form) {
    match r
    case NameGiven => |Trim(f.name)| > 0
    case PasswordsMatch => f.password == f.confirmPassword
    case PasswordLongEnough => |f.password| >= MinPasswordLength
    case CredentialsGiven => |Trim(f.email)| > 0 && |Trim(f.password)| > 0
    case EmailShaped => IsEmail(f.email)
  }

  /** The rules checked in each mode, in the order they are checked. */
  function Rules(m: Mode): seq<Rule> {
    (if m == Signup then [NameGiven, PasswordsMatch, PasswordLongEnough] else [])
    + [CredentialsGiven, EmailShaped]
  }

  /** The first rule of `rs` that `f` breaks. */
  function FirstBroken(rs: seq<Rule>, f: Form): (v: Verdict)
    ensures v == Accept <==> forall i :: 0 <= i < |rs| ==> Holds(rs[i], f)
    ensures v.Reject? ==>
              exists i :: 0 <= i < |rs| && rs[i] == v.rule && !Holds(rs[i], f)
                && forall j :: 0 <= j < i ==> Holds(rs[j], f)
    decreases |rs|
  {
    if |rs| == 0 then Accept
    else if !Holds(rs[0], f) then Reject(rs[0])
    else
      var v := FirstBroken(rs[1..], f);
      assert forall i :: 1 <= i < |rs| ==> rs[i] == rs[1..][i - 1];
      if v.Reject? then
        var i :| 0 <= i < |rs[1..]| && rs[1..][i] == v.rule && !Holds(rs[1..][i], f)
                 && forall j :: 0 <= j < i ==> Holds(rs[1..][j], f);
        assert rs[i + 1] == v.rule;
        v
      else v
  }

  /** `validateForm`, with the rule whose message is shown. */
  function Validate(m: Mode, f: Form): (v: Verdict)
    ensures v == Accept <==> forall i :: 0 <= i < |Rules(m)| ==> Holds(Rules(m)[i], f)
  {
    FirstBroken(Rules(m), f)
  }

  /** `validateForm`'s boolean result. */
  predicate ValidateForm(m: Mode, f: Form) {
    Validate(m, f) == Accept
  }

  /** The error toast `validateForm` raises, or the empty string when it raises none. */
  function Toast(m: Mode, f: Form): (msg: string)
    ensures msg == "" <==> ValidateForm(m, f)
  {
    var v := Validate(m, f);
    if v.Reject? then Message(v.rule) else ""
  }

  /** No two rules share a message, so the toast names the rule that failed. */
  lemma ToastNamesRule(m: Mode, f: Form, r: Rule)
    ensures Toast(m, f) == Message(r) <==> Validate(m, f) == Reject(r)
  {
    var v := Validate(m, f);
    if v.Reject? && Message(v.rule) == Message(r) {
      MessagesDiffer(v.rule, r);
    }
  }

  lemma MessagesDiffer(r1: Rule, r2: Rule)
    requires Message(r1) == Message(r2)
    ensures r1 == r2
  {
    assert Message(r1)[..3] == Message(r2)[..3];
    if Message(r1)[..3] == "Pas" {
      assert Message(r1)[9] == Message(r2)[9];
    }
  }

  /** The form is accepted exactly when every check of its mode passes. */
  lemma AcceptedMeans(m: Mode, f: Form)
    ensures ValidateForm(m, f) <==>
              && (m == Signup ==> !IsBlank(f.name) && f.password == f.confirmPassword && |f.password| >= 6)
              && !IsBlank(f.email) && !IsBlank(f.password)
              && MatchesEmailPattern(f.email)
  {
    EmailCheckIsPattern(f.email);
    var rs := Rules(m);
    if m == Signup {
      assert rs == [NameGiven, PasswordsMatch, PasswordLongEnough, CredentialsGiven, EmailShaped];
      assert (forall i :: 0 <= i < |rs| ==> Holds(rs[i], f))
             <==> Holds(rs[0], f) && Holds(rs[1], f) && Holds(rs[2], f) && Holds(rs[3], f) && Holds(rs[4], f);
    } else {
      assert rs == [CredentialsGiven, EmailShaped];
      assert (forall i :: 0 <= i < |rs| ==> Holds(rs[i], f)) <==> Holds(rs[0], f) && Holds(rs[1], f);
    }
  }

  /** In signup mode a blank name is the first complaint. */
  lemma BlankNameRejected(f: Form)
    requires IsBlank(f.name)
    ensures Validate(Signup, f) == Reject(NameGiven)
  {
  }

  /** In signup mode, with a name given, a mismatched confirmation comes next,
      then a short password. */
  lemma SignupPasswordChecks(f: Form)
    requires !IsBlank(f.name)
    ensures f.password != f.confirmPassword ==> Validate(Signup, f) == Reject(PasswordsMatch)
    ensures f.password == f.confirmPassword && |f.password| < 6 ==> Validate(Signup, f) == Reject(PasswordLongEnough)
  {
    var rs := Rules(Signup);
    assert rs == [NameGiven, PasswordsMatch, PasswordLongEnough, CredentialsGiven, EmailShaped];
    assert rs[1..][0] == PasswordsMatch && rs[1..][1..][0] == PasswordLongEnough;
  }

  /** Login ignores the name and the confirmation entirely. */
  lemma LoginIgnoresSignupFields(f: Form, name: string, confirm: string)
    ensures Validate(Login, f) == Validate(Login, f.(name := name, confirmPassword := confirm))
  {
  }

  /** In either mode a blank email or password is never accepted. */
  lemma BlankCredentialsRejected(m: Mode, f: Form)
    requires IsBlank(f.email) || IsBlank(f.password)
    ensures !ValidateForm(m, f)
  {
    assert !Holds(CredentialsGiven, f);
    assert Rules(m)[|Rules(m)| - 2] == CredentialsGiven;
  }

  /** Whatever signup accepts, login accepts. */
  lemma SignupStricterThanLogin(f: Form)
    ensures ValidateForm(Signup, f) ==> ValidateForm(Login, f)
  {
    assert Rules(Signup)[3..] == Rules(Login);
    assert forall i :: 0 <= i < 2 ==> Rules(Login)[i] == Rules(Signup)[i + 3];
  }

  /** A plain address passes the check. */
  lemma EmailAccepted()
    ensures IsEmail("a@b.co")
  {
    AtIndexFinds("a@b.co", 1);
    assert "a@b.co"[2..] == "b.co" && "b.co"[1] == '.';
  }

  /** No dot in the domain, a dot right after the `@`, a space, or a second `@`:
      `a@b`, `a@.co`, `a b@c.d` and `a@b@c.d` all fail the check. */
  lemma EmailRejected()
    ensures !IsEmail("a@b") && !IsEmail("a@.co") && !IsEmail("a b@c.d") && !IsEmail("a@b@c.d")
  {
    AtIndexFinds("a@b", 1);
    assert "a@b"[2..] == "b";
    AtIndexFinds("a@.co", 1);
    assert "a@.co"[2..] == ".co";
    assert "a b@c.d"[1] == ' ';
    AtIndexFinds("a@b@c.d", 1);
    assert "a@b@c.d"[3] == '@';
  }

}
