/** The sign-up form (src/app/features/auth/Register.tsx): the three field
    validators, the submit gate that dispatches registration, and the rule
    for which check runs when a field loses focus. The server's uniqueness
    checks are an answer passed in, the way an awaited call returns one. */
module RegisterForm {
  import opened Strings

  /** The message under each field; "" when there is none. */
  datatype FormErrors = FormErrors(username: string, email: string, password: string, confirmPassword: string)

  datatype FormData = FormData(username: string, email: string, password: string, confirmPassword: string)

  /** What a uniqueness query comes back with: free, taken, or an exception
      (network or server failure). */
  datatype UniqueCheck = Unique | Taken | CheckFailed

  /** A validator's verdict, the error messages after its updates, and
      whether it asked the server. */
  datatype Validation = Validation(valid: bool, errors: FormErrors, queried: bool)

  const NoErrors := FormErrors("", "", "", "")

  const UsernameTooShort := "Username must be at least 3 characters"
  const UsernameTaken := "Username is already taken"
  const EmailMalformed := "Please enter a valid email address"
  const EmailTaken := "Email is already registered"
  const PasswordTooShort := "Password must be at least 8 characters"
  const PasswordsDiffer := "Passwords do not match"

  /** `validateUsername`: shorter than 3 characters fails without asking the
      server; a name the server reports taken fails; a failed query counts as
      a pass. Only the username message changes. */
  function ValidateUsername(username: string, answer: UniqueCheck, prev: FormErrors): (r: Validation)
    ensures r.valid <==> |username| >= 3 && answer != Taken
    ensures r.queried <==> |username| >= 3
    ensures r.errors == prev.(username := r.errors.username)
    ensures r.errors.username == if |username| < 3 then UsernameTooShort
                                 else if answer == Taken then UsernameTaken
                                 else ""
  {
    if |username| < 3 then Validation(false, prev.(username := UsernameTooShort), false)
    else if answer == Taken then Validation(false, prev.(username := UsernameTaken), true)
    else Validation(true, prev.(username := ""), true)
  }

  /** A character the class `[^\s@]` accepts. */
  predicate Plain(c: char) {
    !IsWhitespace(c) && c != '@'
  }

  predicate AllPlain(s: string) {
    forall i :: 0 <= i < |s| ==> Plain(s[i])
  }

  /** What `/^[^\s@]+@[^\s@]+\.[^\s@]+$/` accepts: a non-empty run of plain
      characters, `@`, a non-empty run, `.`, and a non-empty run; the `@` at
      `i` and the `.` at `j`. */
  ghost predicate EmailRegexMatches(e: string) {
    exists i, j :: 1 <= i && i + 2 <= j && j + 2 <= |e| && e[i] == '@' && e[j] == '.' &&
                   AllPlain(e[..i]) && AllPlain(e[i + 1..j]) && AllPlain(e[j + 1..])
  }

  /** The email format check read the other way: the part before the only `@`
      and the part after it are non-empty and free of whitespace and further
      `@`s, and the part after it has a `.` that is neither its first nor its
      last character. */
  function EmailFormatOk(e: string): (ok: bool)
    ensures ok <==> EmailRegexMatches(e)
  {
    var at := IndexOfChar(e, '@');
    if at < 1 then
      assert !EmailRegexMatches(e) by { NoRegexMatchWithoutLocalPart(e); }
      false
    else
      var local, domain := e[..at], e[at + 1..];
      var ok := AllPlain(local) && AllPlain(domain) && |domain| >= 3 && '.' in domain[1..|domain| - 1];
      assert ok ==> EmailRegexMatches(e) by {
        if ok {
          ShapeGivesMatch(e, at);
        }
      }
      assert EmailRegexMatches(e) ==> ok by {
        if EmailRegexMatches(e) {
          RegexMatchShape(e, at);
        }
      }
      ok
  }

  /** The positions of the `@` and of the `.` in a match. */
  lemma MatchWitness(e: string) returns (i: nat, j: nat)
    requires EmailRegexMatches(e)
    ensures 1 <= i && i + 2 <= j && j + 2 <= |e| && e[i] == '@' && e[j] == '.'
    ensures AllPlain(e[..i]) && AllPlain(e[i + 1..j]) && AllPlain(e[j + 1..])
  {
    i, j :| 1 <= i && i + 2 <= j && j + 2 <= |e| && e[i] == '@' && e[j] == '.' &&
            AllPlain(e[..i]) && AllPlain(e[i + 1..j]) && AllPlain(e[j + 1..]);
  }

  /** A match needs an `@` after at least one character. */
  lemma NoRegexMatchWithoutLocalPart(e: string)
    requires IndexOfChar(e, '@') < 1
    ensures !EmailRegexMatches(e)
  {
    if EmailRegexMatches(e) {
      var i, j := MatchWitness(e);
      FirstAt(e, i);
    }
  }

  /** In a match the `@` is the first one, and what follows it passes the
      operational check. */
  lemma RegexMatchShape(e: string, at: int)
    requires EmailRegexMatches(e) && at == IndexOfChar(e, '@')
    ensures 1 <= at
    ensures var domain := e[at + 1..];
            AllPlain(e[..at]) && AllPlain(domain) && |domain| >= 3 && '.' in domain[1..|domain| - 1]
  {
    var i, j := MatchWitness(e);
    FirstAt(e, i);
    DomainPlain(e, i, j);
    DotInside(e, i, j);
  }

  /** The operational check passing at the first `@` gives a match: the `.`
      inside the domain splits it into two plain runs. */
  lemma ShapeGivesMatch(e: string, at: nat)
    requires 1 <= at < |e| && e[at] == '@'
    requires var domain := e[at + 1..];
             AllPlain(e[..at]) && AllPlain(domain) && |domain| >= 3 && '.' in domain[1..|domain| - 1]
    ensures EmailRegexMatches(e)
  {
    var domain := e[at + 1..];
    var k :| 0 <= k < |domain| - 2 && domain[1..|domain| - 1][k] == '.';
    var j := at + 2 + k;
    assert e[j] == '.';
    assert e[at + 1..j] == domain[..k + 1];
    assert e[j + 1..] == domain[k + 2..];
    var mid, tail := e[at + 1..j], e[j + 1..];
    forall m | 0 <= m < |mid|
      ensures Plain(mid[m])
    {
      assert mid[m] == domain[m];
    }
    forall m | 0 <= m < |tail|
      ensures Plain(tail[m])
    {
      assert tail[m] == domain[k + 2 + m];
    }
  }

  /** A `.` at `j`, with a character on each side inside what follows the
      `@` at `i`, is inside the domain and not at either end. */
  lemma DotInside(e: string, i: nat, j: nat)
    requires i + 2 <= j && j + 2 <= |e| && e[j] == '.'
    ensures var domain := e[i + 1..];
            |domain| >= 3 && '.' in domain[1..|domain| - 1]
  {
    var domain := e[i + 1..];
    assert domain[1..|domain| - 1][j - i - 2] == e[j];
  }

  /** An `@` preceded only by plain characters is the first `@`. */
  lemma FirstAt(e: string, i: nat)
    requires i < |e| && e[i] == '@' && AllPlain(e[..i])
    ensures IndexOfChar(e, '@') == i
  {
    assert '@' !in e[..i] by {
      forall k | 0 <= k < i
        ensures e[..i][k] != '@'
      {
        assert Plain(e[..i][k]);
      }
    }
    IndexOfCharAt(e, '@', i);
  }

  /** Two plain runs around a `.` make a plain run. */
  lemma DomainPlain(e: string, i: nat, j: nat)
    requires i < j < |e| && e[j] == '.' && AllPlain(e[i + 1..j]) && AllPlain(e[j + 1..])
    ensures AllPlain(e[i + 1..])
  {
    var domain := e[i + 1..];
    forall k | 0 <= k < |domain|
      ensures Plain(domain[k])
    {
      if k < j - i - 1 {
        assert domain[k] == e[i + 1..j][k];
      } else if k > j - i - 1 {
        assert domain[k] == e[j + 1..][k - (j - i)];
      }
    }
  }

  /** `validateEmail`: a malformed address fails without asking the server;
      one the server reports registered fails; a failed query counts as a
      pass. Only the email message changes. */
  function ValidateEmail(email: string, answer: UniqueCheck, prev: FormErrors): (r: Validation)
    ensures r.valid <==> EmailRegexMatches(email) && answer != Taken
    ensures r.queried <==> EmailRegexMatches(email)
    ensures r.errors == prev.(email := r.errors.email)
    ensures r.errors.email == if !EmailRegexMatches(email) then EmailMalformed
                              else if answer == Taken then EmailTaken
                              else ""
  {
    if !EmailFormatOk(email) then Validation(false, prev.(email := EmailMalformed), false)
    else if answer == Taken then Validation(false, prev.(email := EmailTaken), true)
    else Validation(true, prev.(email := ""), true)
  }

  /** A malformed address is refused whatever the server would have said. */
  lemma MalformedEmailIgnoresServer(email: string, a: UniqueCheck, b: UniqueCheck, prev: FormErrors)
    requires !EmailRegexMatches(email)
    ensures ValidateEmail(email, a, prev) == ValidateEmail(email, b, prev)
    ensures !ValidateEmail(email, a, prev).valid && !ValidateEmail(email, a, prev).queried
  {
  }

  /** Two concrete addresses: a well-formed one and one whose only dot ends
      the domain. */
  lemma EmailFormatExamples()
    ensures EmailFormatOk("a@b.co")
    ensures !EmailFormatOk("a@b.")
  {
    var e := "a@b.co";
    assert e[1] == '@' && e[3] == '.';
    assert AllPlain(e[..1]) && AllPlain(e[2..3]) && AllPlain(e[4..]);
    var f := "a@b.";
    IndexOfCharAt(f, '@', 1);
    assert f[2..] == "b.";
  }

  /** `validatePassword`: the length test and the match test each set their
      own message; the flag is cleared by either failing. */
  method ValidatePassword(password: string, confirmPassword: string, prev: FormErrors)
    returns (isValid: bool, errors: FormErrors)
    ensures isValid <==> |password| >= 8 && password == confirmPassword
    ensures errors.username == prev.username && errors.email == prev.email
    ensures errors.password == if |password| < 8 then PasswordTooShort else ""
    ensures errors.confirmPassword == if password != confirmPassword then PasswordsDiffer else ""
  {
    isValid := true;
    errors := prev;
    if |password| < 8 {
      errors := errors.(password := PasswordTooShort);
      isValid := false;
    } else {
      errors := errors.(password := "");
    }
    if password != confirmPassword {
      errors := errors.(confirmPassword := PasswordsDiffer);
      isValid := false;
    } else {
      errors := errors.(confirmPassword := "");
    }
  }

  /** The registration request: the confirmation is not sent. */
  datatype RegisterPayload = RegisterPayload(username: string, email: string, password: string)

  /** `handleSubmit`: all messages cleared, then the three validators run in
      turn (each one whatever the earlier ones said), and registration is
      dispatched with the username, email and password only when all three
      pass. */
  method HandleSubmit(form: FormData, usernameAnswer: UniqueCheck, emailAnswer: UniqueCheck)
    returns (errors: FormErrors, dispatched: bool, payload: RegisterPayload)
    ensures dispatched <==> |form.username| >= 3 && usernameAnswer != Taken
                            && EmailRegexMatches(form.email) && emailAnswer != Taken
                            && |form.password| >= 8 && form.password == form.confirmPassword
    ensures payload == RegisterPayload(form.username, form.email, form.password)
    ensures errors == FormErrors(ValidateUsername(form.username, usernameAnswer, NoErrors).errors.username,
                                 ValidateEmail(form.email, emailAnswer, NoErrors).errors.email,
                                 if |form.password| < 8 then PasswordTooShort else "",
                                 if form.password != form.confirmPassword then PasswordsDiffer else "")
  {
    errors := NoErrors;
    var u := ValidateUsername(form.username, usernameAnswer, errors);
    errors := u.errors;
    var e := ValidateEmail(form.email, emailAnswer, errors);
    errors := e.errors;
    var passwordOk;
    passwordOk, errors := ValidatePassword(form.password, form.confirmPassword, errors);
    dispatched := u.valid && e.valid && passwordOk;
    payload := RegisterPayload(form.username, form.email, form.password);
  }

  /** The check `handleBlur` runs for a field that loses focus. */
  datatype BlurCheck = CheckUsername(username: string) | CheckEmail(email: string)
                     | CheckPasswords(password: string, confirmPassword: string) | NoCheck

  /** `handleBlur`: a non-empty username or email is validated on its own;
      leaving either password field checks the pair from the form data, and
      only once both are filled in. */
  function BlurAction(name: string, value: string, form: FormData): (c: BlurCheck)
    ensures c.CheckUsername? <==> name == "username" && value != ""
    ensures c.CheckEmail? <==> name == "email" && value != ""
    ensures c.CheckPasswords? <==> (name == "password" || name == "confirmPassword")
                                   && form.password != "" && form.confirmPassword != ""
    ensures c.CheckUsername? ==> c.username == value
    ensures c.CheckEmail? ==> c.email == value
    ensures c.CheckPasswords? ==> c.password == form.password && c.confirmPassword == form.confirmPassword
  {
    if name == "username" && value != "" then CheckUsername(value)
    else if name == "email" && value != "" then CheckEmail(value)
    else if name == "password" || name == "confirmPassword" then
      if form.password != "" && form.confirmPassword != "" then CheckPasswords(form.password, form.confirmPassword)
      else NoCheck
    else NoCheck
  }
}
