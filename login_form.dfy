/** The login and registration forms (`client/script.js`): guard clauses checked
    in order before any request is sent. Only the username is trimmed; the
    passwords are used as typed. Messages, redirects and `localStorage` are left
    out. */
module LoginForm {
  import opened Replies
  import opened Store
  import AuthRouter

  /** The characters JavaScript's `String.prototype.trim` removes: the white space
      and line terminator code points of ECMAScript. */
  predicate IsJsWhitespace(c: char) {
    || c == '\t' || c == '\n' || c == '\U{000B}' || c == '\U{000C}' || c == '\r' || c == ' '
    || c == '\U{00A0}' || c == '\U{1680}' || ('\U{2000}' <= c <= '\U{200A}')
    || c == '\U{2028}' || c == '\U{2029}' || c == '\U{202F}' || c == '\U{205F}'
    || c == '\U{3000}' || c == '\U{FEFF}'
  }

  /** The string without its trailing white space. */
  function TrimEnd(s: string): (r: string)
    ensures r <= s
    ensures r == [] || !IsJsWhitespace(r[|r| - 1])
    ensures forall i :: |r| <= i < |s| ==> IsJsWhitespace(s[i])
  {
    if s != [] && IsJsWhitespace(s[|s| - 1]) then TrimEnd(s[..|s| - 1]) else s
  }

  /** The string without its leading white space. */
  function TrimStart(s: string): (r: string)
    ensures |r| <= |s| && r == s[|s| - |r|..]
    ensures r == [] || !IsJsWhitespace(r[0])
    ensures forall i :: 0 <= i < |s| - |r| ==> IsJsWhitespace(s[i])
  {
    if s != [] && IsJsWhitespace(s[0]) then TrimStart(s[1..]) else s
  }

  /** `trim()`: the slice of the input between its leading and its trailing white
      space, with no white space at either end. */
  function Trim(s: string): (r: string)
    ensures var e := TrimEnd(s);
            && |r| <= |e| && r == s[|e| - |r|..|e|]
            && (forall i :: 0 <= i < |e| - |r| ==> IsJsWhitespace(s[i]))
            && (forall i :: |e| <= i < |s| ==> IsJsWhitespace(s[i]))
    ensures r != [] ==> !IsJsWhitespace(r[0]) && !IsJsWhitespace(r[|r| - 1])
  {
    var e := TrimEnd(s);
    assert e == s[..|e|];
    TrimStart(e)
  }

  /** Trimming leaves nothing exactly when the input is all white space. */
  lemma TrimEmpty(s: string)
    ensures Trim(s) == [] <==> forall i :: 0 <= i < |s| ==> IsJsWhitespace(s[i])
  {
    var e := TrimEnd(s);
    assert e == s[..|e|];
    if Trim(s) != [] && e != [] {
      assert !IsJsWhitespace(s[|e| - 1]);
    }
  }

  /** Trimming twice is trimming once. */
  lemma TrimIdempotent(s: string)
    ensures Trim(Trim(s)) == Trim(s)
  {
    var r := Trim(s);
    if r != [] {
      assert TrimEnd(r) == r;
    }
  }

  datatype FormError = FillAllFields | PasswordTooShort | PasswordsDiffer

  /** What a submitted form does: send the request with these values, or show the
      error of the first check that fails. */
  datatype Submission = Submit(username: string, password: string) | Reject(error: FormError)

  /** The login form's guard. */
  function LoginSubmission(usernameInput: string, passwordInput: string): (r: Submission)
    ensures r.Reject? <==> Trim(usernameInput) == "" || passwordInput == ""
    ensures r.Reject? ==> r.error == FillAllFields
    ensures r.Submit? ==> r.username == Trim(usernameInput) && r.password == passwordInput
  {
    var username := Trim(usernameInput);
    if username == "" || passwordInput == "" then Reject(FillAllFields)
    else Submit(username, passwordInput)
  }

  /** The registration form's guards: empty fields, then the password length,
      then the confirmation; the first that fails decides the error. */
  function RegisterSubmission(usernameInput: string, passwordInput: string, confirmInput: string): (r: Submission)
    ensures Trim(usernameInput) == "" || passwordInput == "" || confirmInput == "" ==> r == Reject(FillAllFields)
    ensures r == Reject(PasswordTooShort) <==>
              && Trim(usernameInput) != "" && passwordInput != "" && confirmInput != ""
              && JsLength(passwordInput) < AuthRouter.MinPasswordLength
    ensures r == Reject(PasswordsDiffer) <==>
              && Trim(usernameInput) != "" && passwordInput != "" && confirmInput != ""
              && JsLength(passwordInput) >= AuthRouter.MinPasswordLength && passwordInput != confirmInput
    ensures r.Submit? <==>
              && Trim(usernameInput) != "" && passwordInput != ""
              && JsLength(passwordInput) >= AuthRouter.MinPasswordLength && passwordInput == confirmInput
    ensures r.Submit? ==> r.username == Trim(usernameInput) && r.password == passwordInput
  {
    var username := Trim(usernameInput);
    if username == "" || passwordInput == "" || confirmInput == "" then Reject(FillAllFields)
    else if JsLength(passwordInput) < AuthRouter.MinPasswordLength then Reject(PasswordTooShort)
    else if passwordInput != confirmInput then Reject(PasswordsDiffer)
    else Submit(username, passwordInput)
  }

  /** The registration form is at least as strict as the server: whatever it sends
      passes the server's empty-field and length checks, so the server can refuse
      it only for a taken username or a failed write. */
  lemma RegisterFormAtLeastAsStrictAsServer(usernameInput: string, passwordInput: string, confirmInput: string,
                                           st: State, hash: string -> string, clock: nat, now: int, writeOk: bool)
    requires RegisterSubmission(usernameInput, passwordInput, confirmInput).Submit?
    ensures var sent := RegisterSubmission(usernameInput, passwordInput, confirmInput);
            var r := AuthRouter.RegisterStep(st, Some(sent.username), Some(sent.password), hash, clock, now, writeOk);
            r.out.Failed? ==> !writeOk || exists u :: u in Document(st.dbFile).users && u.username == sent.username
  {
  }

  /** The login form sends nothing the server would refuse as incomplete. */
  lemma LoginFormAtLeastAsStrictAsServer(usernameInput: string, passwordInput: string, st: State, hash: string -> string)
    requires LoginSubmission(usernameInput, passwordInput).Submit?
    ensures var sent := LoginSubmission(usernameInput, passwordInput);
            AuthRouter.Login(st, Some(sent.username), Some(sent.password), hash) != Failed(BadRequest)
  {
  }

  /** The form is strictly stricter: a blank username that the server would
      register is refused by the form. */
  lemma BlankUsernameRefusedOnlyByForm(st: State, hash: string -> string, clock: nat, now: int)
    requires Document(st.dbFile).users == []
    ensures RegisterSubmission("  ", "pass1234", "pass1234") == Reject(FillAllFields)
    ensures AuthRouter.RegisterStep(st, Some("  "), Some("pass1234"), hash, clock, now, true).out.Done?
  {
    assert Trim("  ") == [] by {
      assert "  "[..1] == " ";
      assert " "[..0] == [];
      assert TrimEnd("  ") == [];
    }
    assert AuthRouter.RegisterStep(st, Some("  "), Some("pass1234"), hash, clock, now, true).out.Done? by {
      assert Present(Some("  ")) && Present(Some("pass1234"));
      PlainPasswordLength();
    }
  }

  lemma PlainPasswordLength()
    ensures JsLength("pass1234") == 8
  {
    var pw := "pass1234";
    assert forall i :: 0 <= i < |pw| ==> pw[i] as int <= 0xFFFF;
  }

  /** Lengths are counted in UTF-16 code units: a three-character password whose
      last character lies outside the Basic Multilingual Plane has length 4, so
      both the form and the server accept it. */
  lemma SurrogatePairPasswordAccepted(st: State, hash: string -> string, clock: nat, now: int)
    requires Document(st.dbFile).users == []
    ensures |"ab\U{1F600}"| == 3
    ensures RegisterSubmission("bob", "ab\U{1F600}", "ab\U{1F600}") == Submit("bob", "ab\U{1F600}")
    ensures AuthRouter.RegisterStep(st, Some("bob"), Some("ab\U{1F600}"), hash, clock, now, true).out.Done?
  {
    SurrogatePairSubmitted();
    SurrogatePairLength();
    assert Present(Some("bob")) && Present(Some("ab\U{1F600}"));
  }

  lemma SurrogatePairSubmitted()
    ensures RegisterSubmission("bob", "ab\U{1F600}", "ab\U{1F600}") == Submit("bob", "ab\U{1F600}")
  {
    SurrogatePairLength();
    TrimPlainName();
  }

  lemma TrimPlainName()
    ensures Trim("bob") == "bob"
  {
    assert TrimEnd("bob") == "bob";
    assert TrimStart("bob") == "bob";
  }

  lemma SurrogatePairLength()
    ensures JsLength("ab\U{1F600}") == 4
  {
    var pw := "ab\U{1F600}";
    assert pw[1..] == "b\U{1F600}";
    assert pw[1..][1..] == "\U{1F600}";
    assert JsLength("\U{1F600}") == 2 by {
      assert "\U{1F600}"[1..] == [];
    }
  }

}
