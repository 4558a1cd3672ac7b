/** A registered QuickChat user: the three format validators, the ordered
    registration check, the credential match and the login greeting. */
module QuickChatUsers {
  import opened JavaStrings
  import Messages

  /* ------------------------------------------------------------------ */
  /* Validators (each regex written out as a character formula)          */

  /** Every character may be matched by the regex `.`. */
  predicate DotMatchesAll(s: string)
  {
    forall k :: 0 <= k < |s| ==> !IsLineTerminator(s[k])
  }

  /** `checkUserName`: `^(?=.*_).{1,5}$` on a non-null name, that is one to
      five characters, none a line terminator, one of them an underscore. */
  predicate CheckUserName(username: Nullable<string>)
  {
    && username.NonNull?
    && 1 <= |username.value| <= 5
    && DotMatchesAll(username.value)
    && exists k :: 0 <= k < |username.value| && username.value[k] == '_'
  }

  /** `checkPasswordComplexity`: `^(?=.*[A-Z])(?=.*\d)(?=.*[^a-zA-Z0-9]).{8,}$`
      on a non-null password, that is at least eight characters, none a line
      terminator, with a capital letter, a digit and a character that is
      neither letter nor digit, in any order. */
  predicate CheckPasswordComplexity(password: Nullable<string>)
  {
    && password.NonNull?
    && |password.value| >= 8
    && DotMatchesAll(password.value)
    && (exists k :: 0 <= k < |password.value| && IsUpper(password.value[k]))
    && (exists k :: 0 <= k < |password.value| && IsDigit(password.value[k]))
    && (exists k :: 0 <= k < |password.value| && !IsAlnum(password.value[k]))
  }

  /** `checkCellPhoneNumber`: `^\+27\d{9}$` on a non-null number. */
  predicate CheckCellPhoneNumber(cellphone: Nullable<string>)
  {
    && cellphone.NonNull?
    && |cellphone.value| == 12
    && cellphone.value[..3] == "+27"
    && AllDigits(cellphone.value[3..])
  }

  /** Every cell number accepted at registration is also accepted as a
      message recipient: it starts with '+' and its length 12 lies in [11, 13]. */
  lemma CellPhoneIsRecipient(cellphone: Nullable<string>)
    requires CheckCellPhoneNumber(cellphone)
    ensures Messages.CheckRecipientCell(cellphone.value)
  {
    assert cellphone.value[0] == cellphone.value[..3][0];
  }

  /** The converse fails: a recipient need not be a South African number. */
  lemma RecipientNeedNotBeCellPhone()
    ensures Messages.CheckRecipientCell("+4412345678")
    ensures !CheckCellPhoneNumber(NonNull("+4412345678"))
  {
    assert "+4412345678"[..3] != "+27" by {
      assert "+4412345678"[..3][1] == '4';
    }
  }

  lemma UserNameExamples()
    ensures CheckUserName(NonNull("usr_1"))
    ensures !CheckUserName(NonNull("invalidusername")) && !CheckUserName(Null)
  {
    assert "usr_1"[3] == '_';
  }

  lemma PasswordExamples()
    ensures CheckPasswordComplexity(NonNull("Secure@123"))
    ensures !CheckPasswordComplexity(NonNull("password")) && !CheckPasswordComplexity(Null)
  {
    var p := "Secure@123";
    assert IsUpper(p[0]) && !IsAlnum(p[6]) && IsDigit(p[7]);
    var q := "password";
    assert forall k :: 0 <= k < |q| ==> !IsUpper(q[k]);
  }

  lemma CellPhoneExamples()
    ensures CheckCellPhoneNumber(NonNull("+27812345678"))
    ensures !CheckCellPhoneNumber(NonNull("0812345678")) && !CheckCellPhoneNumber(Null)
  {
    assert "+27812345678"[..3] == "+27";
    assert "+27812345678"[3..] == "812345678";
  }

  /* ------------------------------------------------------------------ */
  /* The user                                                            */

  const UserNameError := "Username is not correctly formatted.\n"
    + "It must contain an underscore (_) and be no more than five characters long."
  const PasswordError := "Password is not correctly formatted.\n"
    + "It must be at least eight characters long and include:\n"
    + "- A capital letter\n- A number\n- A special character"
  const CellPhoneError := "Cell phone number is not correctly formatted.\n"
    + "It must start with +27 and be followed by exactly 9 digits."
  const Registered := "Username and password successfully captured.\n"
    + "Cell phone number successfully added."
  const LoginFailed := "Username or password incorrect, please try again."

  /** Java's `String.equals`: false for a null argument. */
  predicate StringEquals(s: string, other: Nullable<string>)
  {
    other.NonNull? && other.value == s
  }

  /** What string concatenation prints for a possibly null string. */
  function Text(s: Nullable<string>): string
  {
    if s.NonNull? then s.value else "null"
  }

  /** The fields are final and stored as given, nulls included. */
  datatype QuickChatUser = QuickChatUser(
    username: Nullable<string>, password: Nullable<string>, cellphone: Nullable<string>,
    firstName: Nullable<string>, lastName: Nullable<string>)
  {
    /** `register`: the message for the first failing check, username
        first, then password, then cell number. */
    function Register(): string
    {
      if !CheckUserName(username) then UserNameError
      else if !CheckPasswordComplexity(password) then PasswordError
      else if !CheckCellPhoneNumber(cellphone) then CellPhoneError
      else Registered
    }

    /** `login`: both inputs equal the stored credentials. The stored
        username is dereferenced, and so is the stored password once the
        usernames match. */
    predicate Login(inputUsername: Nullable<string>, inputPassword: Nullable<string>)
      requires username.NonNull?
      requires StringEquals(username.value, inputUsername) ==> password.NonNull?
    {
      StringEquals(username.value, inputUsername) && StringEquals(password.value, inputPassword)
    }

    /** `loginStatusMessage`. */
    function LoginStatusMessage(loginStatus: bool): string
    {
      if loginStatus then "Welcome " + Text(firstName) + " " + Text(lastName) + ", it is great to see you again."
      else LoginFailed
    }
  }

  /** The four registration outcomes are told apart by their text: each one
      names exactly the first check that failed, and success means all three
      passed. */
  lemma RegisterOutcome(user: QuickChatUser)
    ensures user.Register() == Registered <==>
      CheckUserName(user.username) && CheckPasswordComplexity(user.password) && CheckCellPhoneNumber(user.cellphone)
    ensures user.Register() == UserNameError <==> !CheckUserName(user.username)
    ensures user.Register() == PasswordError <==>
      CheckUserName(user.username) && !CheckPasswordComplexity(user.password)
    ensures user.Register() == CellPhoneError <==>
      CheckUserName(user.username) && CheckPasswordComplexity(user.password) && !CheckCellPhoneNumber(user.cellphone)
  {
    RegisterTextsDiffer();
  }

  lemma RegisterTextsDiffer()
    ensures UserNameError != PasswordError && UserNameError != CellPhoneError && UserNameError != Registered
    ensures PasswordError != CellPhoneError && PasswordError != Registered
    ensures CellPhoneError != Registered
  {
    assert |UserNameError| != |Registered| && |PasswordError| != |CellPhoneError|;
    assert |UserNameError| != |PasswordError| && |UserNameError| != |CellPhoneError|;
    assert |PasswordError| != |Registered| && |CellPhoneError| != |Registered|;
  }

  /** A login succeeds exactly when both inputs are non-null and equal to the
      stored username and password. */
  lemma LoginExact(user: QuickChatUser, inputUsername: Nullable<string>, inputPassword: Nullable<string>)
    requires user.username.NonNull? && user.password.NonNull?
    ensures user.Login(inputUsername, inputPassword)
            <==> inputUsername == user.username && inputPassword == user.password
  {
  }

  /** The greeting is given exactly for a successful login, and names the user. */
  lemma LoginStatusGreets(user: QuickChatUser, loginStatus: bool)
    ensures loginStatus <==> user.LoginStatusMessage(loginStatus) != LoginFailed
    ensures loginStatus ==> user.LoginStatusMessage(loginStatus)[..8] == "Welcome "
  {
    if loginStatus {
      var m := user.LoginStatusMessage(loginStatus);
      assert m[|m| - 8] == 'u' && LoginFailed[|LoginFailed| - 8] == 'y';
    }
  }

  /** The test user: registers, logs in with its own credentials only, and is
      greeted by name. */
  lemma SampleUserRegisters(user: QuickChatUser)
    requires user.username == NonNull("usr_1") && user.password == NonNull("Secure@123")
    requires user.cellphone == NonNull("+27812345678")
    ensures user.Register() == Registered
  {
    UserNameExamples();
    PasswordExamples();
    CellPhoneExamples();
  }

  lemma SampleUserLogsIn(user: QuickChatUser)
    requires user.username == NonNull("usr_1") && user.password == NonNull("Secure@123")
    ensures user.Login(NonNull("usr_1"), NonNull("Secure@123"))
    ensures !user.Login(NonNull("wronguser"), NonNull("wrongpass"))
  {
    assert "wronguser" != "usr_1" by {
      assert |"wronguser"| != |"usr_1"|;
    }
  }

  lemma SampleUserGreeted(user: QuickChatUser)
    requires user.firstName == NonNull("Test") && user.lastName == NonNull("User")
    ensures user.LoginStatusMessage(true) == "Welcome Test User, it is great to see you again."
    ensures user.LoginStatusMessage(false) == "Username or password incorrect, please try again."
  {
  }

  /** The test users that fail registration, one check at a time. */
  lemma SampleBadUserName(user: QuickChatUser)
    requires user.username == NonNull("invalidusername")
    ensures user.Register() == UserNameError
  {
    UserNameExamples();
  }

  lemma SampleBadPassword(user: QuickChatUser)
    requires user.username == NonNull("usr_1") && user.password == NonNull("weakpass")
    ensures user.Register() == PasswordError
  {
    UserNameExamples();
    var p := "weakpass";
    assert forall k :: 0 <= k < |p| ==> !IsUpper(p[k]);
  }

  lemma SampleBadCellPhone(user: QuickChatUser)
    requires user.username == NonNull("usr_1") && user.password == NonNull("Secure@123")
    requires user.cellphone == NonNull("0812345678")
    ensures user.Register() == CellPhoneError
  {
    UserNameExamples();
    PasswordExamples();
    CellPhoneExamples();
  }
}
