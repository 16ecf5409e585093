/** The stub authentication service: the credential rules it applies and the
    two-field session (`currentUser`, `authToken`) that `login` and `register`
    set and `logout` clears. Delays, browser storage, clocks and random numbers
    are outside the model: the time stamp, the random token suffix and the
    stored session come in as parameters. */
module AuthService {
  import opened Wrappers
  import opened Text

  /** A `User` record; `createdAt` and `lastLogin` are milliseconds since the epoch. */
  datatype User = User(id: string, email: string, name: string, avatar: string, createdAt: int, lastLogin: Option<int>)

  /** An `AuthResponse`; the service always fills in `message`. */
  datatype AuthResponse = AuthResponse(success: bool, user: Option<User>, token: Option<string>, message: string)

  const LoginOk := "Login successful"
  const LoginRejected := "Invalid email or password"
  const RegisterOk := "Registration successful"
  const BadEmail := "Please enter a valid email address"
  const ShortPassword := "Password must be at least 6 characters long"
  const PasswordMismatch := "Passwords do not match"
  const ShortName := "Name must be at least 2 characters long"
  const ResetSent := "Password reset instructions sent to your email"
  const AvatarBase := "https://api.dicebear.com/7.x/avataaars/svg?seed="

  // ---------------------------------------------------------------------
  // The email rule

  /** `[^\s@]+`: a non-empty run without whitespace and without `@`. */
  predicate Plain(t: string) {
    |t| > 0 && forall i :: 0 <= i < |t| ==> !IsWhitespace(t[i]) && t[i] != '@'
  }

  /** `s` splits as `[^\s@]+ @ [^\s@]+ . [^\s@]+` at the given `@` and `.`. */
  predicate EmailAt(s: string, at: int, dot: int) {
    && 0 <= at < dot < |s|
    && s[at] == '@' && s[dot] == '.'
    && Plain(s[..at]) && Plain(s[at + 1..dot]) && Plain(s[dot + 1..])
  }

  /** `validateEmail`: the email pattern matches the whole string, that is, some
      choice of the `@` and the `.` splits it into the three runs. */
  predicate ValidateEmail(email: string) {
    exists at, dot | 0 <= at < dot < |email| :: EmailAt(email, at, dot)
  }

  /** A `.` that is neither the first nor the last character. */
  predicate InnerDot(d: string) {
    exists k | 0 < k < |d| - 1 :: d[k] == '.'
  }

  /** The rule in plain terms: no whitespace, exactly one `@`, something before it,
      and after it a domain with an inner `.`. */
  predicate EmailRules(s: string) {
    && NoWhitespace(s)
    && Count(s, '@') == 1
    && forall at | 0 <= at < |s| && s[at] == '@' :: 0 < at && InnerDot(s[at + 1..])
  }

  lemma {:induction false} CountOne(s: string, c: char, i: nat)
    requires i < |s| && s[i] == c
    requires forall j | 0 <= j < |s| && j != i :: s[j] != c
    ensures Count(s, c) == 1
    decreases i
  {
    if i == 0 {
      assert c !in s[1..] by {
        forall j | 0 <= j < |s[1..]| ensures s[1..][j] != c { assert s[1..][j] == s[j + 1]; }
      }
    } else {
      forall j | 0 <= j < |s[1..]| && j != i - 1 ensures s[1..][j] != c { assert s[1..][j] == s[j + 1]; }
      CountOne(s[1..], c, i - 1);
    }
  }

  lemma {:induction false} CountTwo(s: string, c: char, i: nat, j: nat)
    requires i < j < |s| && s[i] == c && s[j] == c
    ensures Count(s, c) >= 2
    decreases i
  {
    if i == 0 {
      assert s[1..][j - 1] == c;
    } else {
      CountTwo(s[1..], c, i - 1, j - 1);
    }
  }

  /** What a match of the pattern says about every character. */
  lemma PatternFacts(s: string, at: int, dot: int)
    requires EmailAt(s, at, dot)
    ensures NoWhitespace(s)
    ensures forall j | 0 <= j < |s| && j != at :: s[j] != '@'
  {
    forall j | 0 <= j < |s|
      ensures !IsWhitespace(s[j]) && (j != at ==> s[j] != '@')
    {
      if j < at {
        assert s[..at][j] == s[j];
      } else if at < j < dot {
        assert s[at + 1..dot][j - at - 1] == s[j];
      } else if dot < j {
        assert s[dot + 1..][j - dot - 1] == s[j];
      }
    }
  }

  lemma PatternGivesRules(s: string, at: int, dot: int)
    requires EmailAt(s, at, dot)
    ensures EmailRules(s)
  {
    PatternFacts(s, at, dot);
    CountOne(s, '@', at);
    assert s[at + 1..][dot - at - 1] == s[dot];
  }

  lemma RulesGivePattern(s: string, at: nat)
    requires EmailRules(s) && at < |s| && s[at] == '@'
    ensures ValidateEmail(s)
  {
    var d := s[at + 1..];
    var k :| 0 < k < |d| - 1 && d[k] == '.';
    var dot := at + 1 + k;
    assert s[dot] == d[k];
    forall j | 0 <= j < |s| && j != at
      ensures s[j] != '@'
    {
      if s[j] == '@' {
        if j < at { CountTwo(s, '@', j, at); } else { CountTwo(s, '@', at, j); }
      }
    }
    forall i | 0 <= i < at ensures s[..at][i] == s[i] { }
    forall i | at + 1 <= i < dot ensures s[at + 1..dot][i - at - 1] == s[i] { }
    forall i | dot + 1 <= i < |s| ensures s[dot + 1..][i - dot - 1] == s[i] { }
    assert EmailAt(s, at, dot);
  }

  /** The email pattern accepts exactly the strings that follow the rule. */
  lemma EmailCharacterization(s: string)
    ensures ValidateEmail(s) <==> EmailRules(s)
  {
    if ValidateEmail(s) {
      var at, dot :| 0 <= at < dot < |s| && EmailAt(s, at, dot);
      PatternGivesRules(s, at, dot);
    }
    if EmailRules(s) {
      assert '@' in s;
      var at :| 0 <= at < |s| && s[at] == '@';
      RulesGivePattern(s, at);
    }
  }

  /** In a valid email, the text before the `@` is a plain run. */
  lemma LocalPart(s: string, at: nat)
    requires ValidateEmail(s) && at < |s| && s[at] == '@'
    ensures Plain(s[..at])
    ensures forall j | 0 <= j < at :: s[j] != '@'
  {
    var a, dot :| 0 <= a < dot < |s| && EmailAt(s, a, dot);
    PatternFacts(s, a, dot);
  }

  // ---------------------------------------------------------------------
  // What the service builds

  /** `user_${Date.now()}` */
  function UserId(stamp: string): string { "user_" + stamp }

  /** `token_${Date.now()}_${random}` */
  function IssuedToken(stamp: string, random: string): string { "token_" + stamp + "_" + random }

  function Avatar(email: string): string { AvatarBase + email }

  /** The user a successful login creates: named by `email.split('@')[0]`. The id's
      time stamp and the two `new Date()` readings are separate clock reads. */
  function LoginUser(email: string, stamp: string, created: int, lastLogin: int): User {
    User(UserId(stamp), email, Split(email, '@')[0], Avatar(email), created, Some(lastLogin))
  }

  /** The user a successful registration creates: named by the trimmed name. */
  function RegisteredUser(name: string, email: string, stamp: string, created: int): User {
    User(UserId(stamp), email, Trim(name), Avatar(email), created, None)
  }

  lemma ConsSlice<T>(s: seq<T>, i: nat)
    requires 0 < i <= |s|
    ensures [s[0]] + s[1..][..i - 1] == s[..i]
  {
  }

  lemma {:induction false} SplitHead(s: string, d: char, i: nat)
    requires i < |s| && s[i] == d
    requires forall j | 0 <= j < i :: s[j] != d
    ensures Split(s, d)[0] == s[..i]
    decreases i
  {
    if i > 0 {
      SplitHead(s[1..], d, i - 1);
      ConsSlice(s, i);
    }
  }

  /** A login user is named by the non-empty local part of the email. */
  lemma LoginNameIsLocalPart(email: string, at: nat, stamp: string, created: int, lastLogin: int)
    requires ValidateEmail(email) && at < |email| && email[at] == '@'
    ensures LoginUser(email, stamp, created, lastLogin).name == email[..at]
    ensures Plain(LoginUser(email, stamp, created, lastLogin).name)
  {
    LocalPart(email, at);
    SplitHead(email, '@', at);
  }

  /** `login` accepts a valid email with a password of at least six characters. */
  predicate LoginAccepted(email: string, password: string) {
    ValidateEmail(email) && |password| >= 6
  }

  /** The checks of `register`, in order: the first that fails names the problem. */
  function RegisterProblem(name: string, email: string, password: string, confirm: string): (r: Option<string>)
    ensures r == None <==> ValidateEmail(email) && |password| >= 6 && password == confirm && |Trim(name)| >= 2
    ensures r == Some(BadEmail) <==> !ValidateEmail(email)
    ensures r == Some(ShortPassword) <==> ValidateEmail(email) && |password| < 6
    ensures r == Some(PasswordMismatch) <==> ValidateEmail(email) && |password| >= 6 && password != confirm
    ensures r == Some(ShortName) <==>
      ValidateEmail(email) && |password| >= 6 && password == confirm && |Trim(name)| < 2
  {
    if !ValidateEmail(email) then Some(BadEmail)
    else if |password| < 6 then Some(ShortPassword)
    else if password != confirm then Some(PasswordMismatch)
    else if |Trim(name)| < 2 then Some(ShortName)
    else None
  }

  /** A name that passes the check is stored trimmed, with at least two characters. */
  lemma RegisteredNameClean(name: string, email: string, stamp: string, created: int)
    requires |Trim(name)| >= 2
    ensures var u := RegisteredUser(name, email, stamp, created);
      |u.name| >= 2 && Trim(u.name) == u.name && !IsWhitespace(u.name[0]) && !IsWhitespace(u.name[|u.name| - 1])
  {
    TrimTrimmed(Trim(name));
  }

  /** `validateToken` */
  predicate ValidateToken(token: string) {
    |token| >= 6 && token[..6] == "token_" && |token| > 20
  }

  /** An issued token passes `validateToken` exactly when its time stamp and random
      part have more than 13 characters between them: a 13-digit stamp with an empty
      random part gives a token of exactly 20 characters, which is refused. */
  lemma IssuedTokenValid(stamp: string, random: string)
    ensures ValidateToken(IssuedToken(stamp, random)) <==> |stamp| + |random| > 13
  {
    var t := IssuedToken(stamp, random);
    assert t[..6] == "token_";
  }

  /** `resetPassword`: success exactly for a valid email. */
  function ResetPassword(email: string): (r: AuthResponse)
    ensures r.success <==> EmailRules(email)
    ensures r.user == None && r.token == None
    ensures r.success ==> r.message == ResetSent
    ensures !r.success ==> r.message == BadEmail
  {
    EmailCharacterization(email);
    if !ValidateEmail(email) then AuthResponse(false, None, None, BadEmail)
    else AuthResponse(true, None, None, ResetSent)
  }

  // ---------------------------------------------------------------------
  // The session

  class AuthService {
    var currentUser: Option<User>
    var authToken: Option<string>

    /** Restores a stored session when both a user and a non-empty token were stored. */
    constructor(storedUser: Option<User>, storedToken: Option<string>)
      ensures storedUser.Some? && storedToken.Some? && storedToken.value != [] ==>
        currentUser == storedUser && authToken == storedToken
      ensures !(storedUser.Some? && storedToken.Some? && storedToken.value != []) ==>
        currentUser == None && authToken == None
    {
      if storedUser.Some? && storedToken.Some? && storedToken.value != [] {
        currentUser := storedUser;
        authToken := storedToken;
      } else {
        currentUser := None;
        authToken := None;
      }
    }

    /** `isAuthenticated` */
    predicate IsAuthenticated()
      reads this
    {
      currentUser.Some? && authToken.Some?
    }

    /** `getCurrentUser` */
    function GetCurrentUser(): Option<User>
      reads this
    {
      currentUser
    }

    /** `getAuthToken` */
    function GetAuthToken(): Option<string>
      reads this
    {
      authToken
    }

    /** `login`: on success the new user and token become the session. The clock is
        read four times: `idStamp` and `tokenStamp` are the two `Date.now()` readings,
        `created` and `lastLogin` the two `new Date()` readings. */
    method Login(email: string, password: string, idStamp: string, tokenStamp: string, random: string,
                 created: int, lastLogin: int) returns (r: AuthResponse)
      modifies this
      ensures r.success <==> LoginAccepted(email, password)
      ensures r.success ==>
        && r == AuthResponse(true, Some(LoginUser(email, idStamp, created, lastLogin)),
                             Some(IssuedToken(tokenStamp, random)), LoginOk)
        && currentUser == r.user && authToken == r.token && IsAuthenticated()
      ensures !r.success ==>
        && r == AuthResponse(false, None, None, LoginRejected)
        && currentUser == old(currentUser) && authToken == old(authToken)
    {
      if ValidateEmail(email) && |password| >= 6 {
        var user := LoginUser(email, idStamp, created, lastLogin);
        var token := IssuedToken(tokenStamp, random);
        currentUser := Some(user);
        authToken := Some(token);
        r := AuthResponse(true, Some(user), Some(token), LoginOk);
      } else {
        r := AuthResponse(false, None, None, LoginRejected);
      }
    }

    /** `register`: the ordered checks, then the new user and token become the session.
        `idStamp` and `tokenStamp` are the two `Date.now()` readings, `created` the
        `new Date()` reading. */
    method Register(name: string, email: string, password: string, confirm: string,
                    idStamp: string, tokenStamp: string, random: string, created: int)
      returns (r: AuthResponse)
      modifies this
      ensures r.success <==> RegisterProblem(name, email, password, confirm) == None
      ensures r.success ==>
        && r == AuthResponse(true, Some(RegisteredUser(name, email, idStamp, created)),
                             Some(IssuedToken(tokenStamp, random)), RegisterOk)
        && currentUser == r.user && authToken == r.token && IsAuthenticated()
      ensures !r.success ==>
        && r == AuthResponse(false, None, None, RegisterProblem(name, email, password, confirm).value)
        && currentUser == old(currentUser) && authToken == old(authToken)
    {
      var problem := RegisterProblem(name, email, password, confirm);
      if problem.Some? {
        r := AuthResponse(false, None, None, problem.value);
        return;
      }
      var user := RegisteredUser(name, email, idStamp, created);
      var token := IssuedToken(tokenStamp, random);
      currentUser := Some(user);
      authToken := Some(token);
      r := AuthResponse(true, Some(user), Some(token), RegisterOk);
    }

    /** `logout`: the session is cleared. */
    method Logout()
      modifies this
      ensures currentUser == None && authToken == None && !IsAuthenticated()
    {
      currentUser := None;
      authToken := None;
    }
  }
}
