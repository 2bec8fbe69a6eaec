/** The registration page: the email pattern, the ordered validation chains
    of the student and teacher forms, and the account each builds and hands
    to `register`. */
module Registration {
  import opened Wrappers
  import opened Text
  import opened Types
  import opened Auth

  /** A character of the class `[^\s@]`. */
  predicate EmailChar(c: char) {
    !IsSpace(c) && c != '@'
  }

  predicate AllEmailChars(s: string) {
    forall k :: 0 <= k < |s| ==> EmailChar(s[k])
  }

  /** `s` matches `^[^\s@]+@[^\s@]+\.[^\s@]+$`: it splits at an `@` at `i`
      and a `.` at `j` into three non-empty runs of `[^\s@]`. */
  predicate MatchesEmailPattern(s: string) {
    exists i, j ::
      && 0 < i && i + 1 < j && j + 1 < |s|
      && s[i] == '@' && s[j] == '.'
      && AllEmailChars(s[..i]) && AllEmailChars(s[i + 1..j]) && AllEmailChars(s[j + 1..])
  }

  /** Index of the first `c` in `s`. */
  function IndexOf(s: string, c: char): (r: nat)
    requires c in s
    ensures r < |s| && s[r] == c && c !in s[..r]
  {
    if s[0] == c then 0 else
      assert s[0] !in [c];
      var k := IndexOf(s[1..], c);
      assert s[..k + 1] == [s[0]] + s[1..][..k];
      k + 1
  }

  /** The domain has a `.` that is neither its first nor its last character. */
  predicate DotInside(d: string) {
    exists k :: 0 < k < |d| - 1 && d[k] == '.'
  }

  /** The four conditions the pattern amounts to: no whitespace, exactly one
      `@`, a non-empty part before it, and a domain with an inner `.`. */
  predicate EmailConditions(s: string) {
    && HasNoSpace(s)
    && multiset(s)['@'] == 1
    && var at := IndexOf(s, '@');
    && at > 0
    && DotInside(s[at + 1..])
  }

  /** `c` occurs once in `s`, at `i`, exactly when no other index holds it. */
  lemma SingleOccurrence(s: string, c: char, i: nat)
    requires i < |s| && s[i] == c
    ensures multiset(s)[c] == 1 <==> forall p :: 0 <= p < |s| && p != i ==> s[p] != c
  {
    assert s == s[..i] + [c] + s[i + 1..];
    assert multiset(s)[c] == multiset(s[..i])[c] + 1 + multiset(s[i + 1..])[c];
    if multiset(s)[c] == 1 {
      forall p | 0 <= p < |s| && p != i ensures s[p] != c {
        if p < i { assert s[..i][p] == s[p]; } else { assert s[i + 1..][p - i - 1] == s[p]; }
      }
    } else {
      if c in s[..i] {
        var p :| 0 <= p < i && s[..i][p] == c;
        assert s[p] == c;
      } else {
        assert c in s[i + 1..];
        var p :| 0 <= p < |s| - i - 1 && s[i + 1..][p] == c;
        assert s[p + i + 1] == c;
      }
    }
  }

  /** `validateEmail`: the regular expression test, which holds exactly when
      the four conditions do. */
  function ValidateEmail(s: string): (r: bool)
    ensures r <==> EmailConditions(s)
  {
    EmailConditionsMatchPattern(s);
    MatchesEmailPattern(s)
  }

  /** The four conditions hold exactly when the regular expression matches. */
  lemma EmailConditionsMatchPattern(s: string)
    ensures EmailConditions(s) <==> MatchesEmailPattern(s)
  {
    if EmailConditions(s) {
      ConditionsImplyPattern(s);
    }
    if MatchesEmailPattern(s) {
      PatternImpliesConditions(s);
    }
  }

  /** The conditions imply the pattern: the first `@` and an inner `.` of
      the domain are the split points. */
  lemma ConditionsImplyPattern(s: string)
    requires EmailConditions(s)
    ensures MatchesEmailPattern(s)
  {
    var i := IndexOf(s, '@');
    SingleOccurrence(s, '@', i);
    var d := s[i + 1..];
    var k :| 0 < k < |d| - 1 && d[k] == '.';
    var j := i + 1 + k;
    assert s[j] == '.';
    assert AllEmailChars(s[..i]);
    assert AllEmailChars(s[i + 1..j]);
    assert AllEmailChars(s[j + 1..]);
  }

  /** The pattern implies the conditions: its `@` is the only one, so it is
      the first, and its `.` lies strictly inside the domain. */
  lemma PatternImpliesConditions(s: string)
    requires MatchesEmailPattern(s)
    ensures EmailConditions(s)
  {
    var i, j :| && 0 < i && i + 1 < j && j + 1 < |s|
                && s[i] == '@' && s[j] == '.'
                && AllEmailChars(s[..i]) && AllEmailChars(s[i + 1..j]) && AllEmailChars(s[j + 1..]);
    forall p | 0 <= p < |s| ensures !IsSpace(s[p]) && (p != i ==> s[p] != '@') {
      if p < i { assert s[..i][p] == s[p]; }
      else if i < p < j { assert s[i + 1..j][p - i - 1] == s[p]; }
      else if j < p { assert s[j + 1..][p - j - 1] == s[p]; }
    }
    SingleOccurrence(s, '@', i);
    assert IndexOf(s, '@') == i by {
      var at := IndexOf(s, '@');
      assert s[at] == '@';
    }
    assert s[i + 1..][j - i - 1] == '.';
  }

  /** One step of a validation chain: the condition that must hold, and the
      message thrown when it does not. */
  datatype Check = Check(ok: bool, message: string)

  /** The message of the first failing check, if any. */
  function FirstFailure(checks: seq<Check>): (r: Option<string>)
    ensures r.None? <==> forall k :: 0 <= k < |checks| ==> checks[k].ok
    ensures r.Some? ==> exists k :: 0 <= k < |checks| && !checks[k].ok && r.value == checks[k].message
                          && forall j :: 0 <= j < k ==> checks[j].ok
  {
    if |checks| == 0 then None
    else if !checks[0].ok then Some(checks[0].message)
    else
      var r := FirstFailure(checks[1..]);
      assert r.Some? ==> exists k :: 0 < k < |checks| && !checks[k].ok && r.value == checks[k].message
                                  && forall j :: 0 <= j < k ==> checks[j].ok by {
        if r.Some? {
          var k :| 0 <= k < |checks| - 1 && !checks[1..][k].ok && r.value == checks[1..][k].message
                   && forall j :: 0 <= j < k ==> checks[1..][j].ok;
          assert forall j :: 0 < j < k + 1 ==> checks[j].ok by {
            forall j | 0 < j < k + 1 ensures checks[j].ok { assert checks[1..][j - 1] == checks[j]; }
          }
        }
      }
      r
  }

  datatype StudentForm = StudentForm(name: string, email: string, password: string, confirmPassword: string)

  datatype TeacherForm = TeacherForm(
    name: string, email: string, password: string, confirmPassword: string, subject: string)

  const NameMissing := "Please enter your name"
  const EmailMissing := "Please enter your email"
  const EmailInvalid := "Please enter a valid email address"
  const SubjectMissing := "Please enter your subject"
  const PasswordShort := "Password must be at least 6 characters"
  const PasswordMismatch := "Passwords do not match"

  /** The student chain, in the order the page runs it. */
  function StudentChecks(f: StudentForm): seq<Check> {
    [ Check(!IsBlank(f.name), NameMissing),
      Check(!IsBlank(f.email), EmailMissing),
      Check(ValidateEmail(f.email), EmailInvalid),
      Check(|f.password| >= 6, PasswordShort),
      Check(f.password == f.confirmPassword, PasswordMismatch) ]
  }

  /** The teacher chain: the student chain with the subject check inserted
      after the email-format check. */
  function TeacherChecks(f: TeacherForm): (checks: seq<Check>)
    ensures var sc := StudentChecks(StudentPart(f));
      checks == sc[..3] + [Check(!IsBlank(f.subject), SubjectMissing)] + sc[3..]
  {
    [ Check(!IsBlank(f.name), NameMissing),
      Check(!IsBlank(f.email), EmailMissing),
      Check(ValidateEmail(f.email), EmailInvalid),
      Check(!IsBlank(f.subject), SubjectMissing),
      Check(|f.password| >= 6, PasswordShort),
      Check(f.password == f.confirmPassword, PasswordMismatch) ]
  }

  function StudentPart(f: TeacherForm): StudentForm {
    StudentForm(f.name, f.email, f.password, f.confirmPassword)
  }

  /** The `try` block of `handleStudentRegister` up to the `register` call:
      the message of the first check that throws. */
  function StudentFormError(f: StudentForm): (r: Option<string>)
    ensures r.None? <==> && !IsBlank(f.name) && !IsBlank(f.email) && ValidateEmail(f.email)
                         && |f.password| >= 6 && f.password == f.confirmPassword
  {
    TrimEmptyIffBlank(f.name);
    TrimEmptyIffBlank(f.email);
    if Trim(f.name) == "" then Some(NameMissing)
    else if Trim(f.email) == "" then Some(EmailMissing)
    else if !ValidateEmail(f.email) then Some(EmailInvalid)
    else if |f.password| < 6 then Some(PasswordShort)
    else if f.password != f.confirmPassword then Some(PasswordMismatch)
    else None
  }

  /** The same for `handleTeacherRegister`. */
  function TeacherFormError(f: TeacherForm): (r: Option<string>)
    ensures r.None? <==> StudentFormError(StudentPart(f)).None? && !IsBlank(f.subject)
  {
    TrimEmptyIffBlank(f.name);
    TrimEmptyIffBlank(f.email);
    TrimEmptyIffBlank(f.subject);
    if Trim(f.name) == "" then Some(NameMissing)
    else if Trim(f.email) == "" then Some(EmailMissing)
    else if !ValidateEmail(f.email) then Some(EmailInvalid)
    else if Trim(f.subject) == "" then Some(SubjectMissing)
    else if |f.password| < 6 then Some(PasswordShort)
    else if f.password != f.confirmPassword then Some(PasswordMismatch)
    else None
  }

  /** `FirstFailure` unfolded over a chain of a given length. */
  lemma FirstFailureSteps(cs: seq<Check>)
    requires |cs| >= 1
    ensures FirstFailure(cs) == if !cs[0].ok then Some(cs[0].message) else FirstFailure(cs[1..])
  {
  }

  /** The nested `if`s of the student page report the first failing check
      of the chain. */
  lemma StudentChainOrder(f: StudentForm)
    ensures StudentFormError(f) == FirstFailure(StudentChecks(f))
  {
    var cs := StudentChecks(f);
    TrimEmptyIffBlank(f.name);
    TrimEmptyIffBlank(f.email);
    FirstFailureSteps(cs);
    FirstFailureSteps(cs[1..]);
    FirstFailureSteps(cs[2..]);
    FirstFailureSteps(cs[3..]);
    FirstFailureSteps(cs[4..]);
    assert cs[1..][1..] == cs[2..] && cs[2..][1..] == cs[3..] && cs[3..][1..] == cs[4..];
    assert FirstFailure(cs[4..][1..]) == None;
  }

  /** Likewise for the teacher page. */
  lemma TeacherChainOrder(f: TeacherForm)
    ensures TeacherFormError(f) == FirstFailure(TeacherChecks(f))
  {
    var cs := TeacherChecks(f);
    TrimEmptyIffBlank(f.name);
    TrimEmptyIffBlank(f.email);
    TrimEmptyIffBlank(f.subject);
    FirstFailureSteps(cs);
    FirstFailureSteps(cs[1..]);
    FirstFailureSteps(cs[2..]);
    FirstFailureSteps(cs[3..]);
    FirstFailureSteps(cs[4..]);
    FirstFailureSteps(cs[5..]);
    assert cs[1..][1..] == cs[2..] && cs[2..][1..] == cs[3..] && cs[3..][1..] == cs[4..] && cs[4..][1..] == cs[5..];
    assert FirstFailure(cs[5..][1..]) == None;
  }

  /** With a subject filled in, the teacher chain reports what the student
      chain reports for the same name, email and passwords. */
  lemma TeacherChainExtendsStudentChain(f: TeacherForm)
    ensures !IsBlank(f.subject) ==> TeacherFormError(f) == StudentFormError(StudentPart(f))
    ensures IsBlank(f.subject) && !IsBlank(f.name) && !IsBlank(f.email) && ValidateEmail(f.email) ==>
              TeacherFormError(f) == Some(SubjectMissing)
  {
    TrimEmptyIffBlank(f.name);
    TrimEmptyIffBlank(f.email);
    TrimEmptyIffBlank(f.subject);
  }

  /** What the page holds after a submit: the auth provider's state, the
      error text, the loading flag, and the route pushed on success. */
  datatype PageState = PageState(auth: AuthState, error: string, loading: bool, route: Option<string>)

  function AvatarUrl(seed: string): string {
    "https://picsum.photos/seed/" + seed + "/100/100"
  }

  /** `handleStudentRegister`. `formId` and `avatarSeed` stand for the page's
      `Date.now()` calls, `newId` for the one inside `register`. */
  function HandleStudentRegister(auth: AuthState, f: StudentForm, formId: string, avatarSeed: string, newId: string): (r: PageState)
    ensures StudentFormError(f).Some? ==> r == PageState(auth, StudentFormError(f).value, false, None)
    ensures StudentFormError(f).None? ==>
      && r.error == "" && !r.loading && r.route == Some("/dashboard")
      && r.auth.registered == auth.registered
           + [Account(User(newId, f.name, f.email, Student, AvatarUrl(avatarSeed), None), f.password)]
      && r.auth.user == Some(User(newId, f.name, f.email, Student, AvatarUrl(avatarSeed), None))
      && r.auth.loading == auth.loading
  {
    match StudentFormError(f)
    case Some(message) => PageState(auth, message, false, None)
    case None =>
      var data := Account(User(formId, f.name, f.email, Student, AvatarUrl(avatarSeed), None), f.password);
      PageState(Register(auth, data, newId), "", false, Some("/dashboard"))
  }

  /** `handleTeacherRegister`. */
  function HandleTeacherRegister(auth: AuthState, f: TeacherForm, formId: string, avatarSeed: string, newId: string): (r: PageState)
    ensures TeacherFormError(f).Some? ==> r == PageState(auth, TeacherFormError(f).value, false, None)
    ensures TeacherFormError(f).None? ==>
      && r.error == "" && !r.loading && r.route == Some("/teacher/dashboard")
      && r.auth.registered == auth.registered
           + [Account(User(newId, f.name, f.email, Teacher, AvatarUrl(avatarSeed), Some(f.subject)), f.password)]
      && r.auth.user == Some(User(newId, f.name, f.email, Teacher, AvatarUrl(avatarSeed), Some(f.subject)))
      && r.auth.loading == auth.loading
  {
    match TeacherFormError(f)
    case Some(message) => PageState(auth, message, false, None)
    case None =>
      var data := Account(User(formId, f.name, f.email, Teacher, AvatarUrl(avatarSeed), Some(f.subject)), f.password);
      PageState(Register(auth, data, newId), "", false, Some("/teacher/dashboard"))
  }
}
