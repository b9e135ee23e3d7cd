/** com.kale.service.AuthService: the user registry of the earlier variant.
    Users are keyed by their unique email; sign-up refuses a registered email,
    login looks the email up and checks the password, and the e-mail
    verification key is a random number shifted into a fixed range. Sending
    the mail, Redis expiry and JWT tokens are not part of this model. */
module KaleAuth {
  import opened Outcomes
  import opened Passwords

  type Email = string

  datatype Role = RoleUser

  datatype User = User(email: Email, password: Hash, role: Role)

  /** `userRepository`, by email (the email column is unique). */
  type Users = map<Email, User>

  datatype AuthFailure = ExistingEmail | InvalidPassword | NotFoundEmail

  /** Every stored user sits under its own email. */
  ghost predicate KeyedByEmail(users: Users)
  {
    forall e | e in users :: users[e].email == e
  }

  // ---------------------------------------------------------------------------
  // Registry operations

  /** `validateEmail`: an `ExistingEmailException` exactly when the email is
      registered. It reads the registry and writes nothing. */
  function ValidateEmail(users: Users, email: Email): (r: Result<(), AuthFailure>)
    ensures r.Err? <==> email in users
    ensures r.Err? ==> r.error == ExistingEmail
  {
    if email in users then Err(ExistingEmail) else Ok(())
  }

  /** `createUser`: a registered email is refused; otherwise exactly one user
      is added, with the encoded password and `ROLE_USER`. */
  function CreateUser(users: Users, enc: PasswordEncoder, email: Email, password: string): (r: Result<Users, AuthFailure>)
    ensures r.Err? <==> email in users
    ensures r.Err? ==> r.error == ExistingEmail
    ensures r.Ok? ==>
      && r.value.Keys == users.Keys + {email}
      && r.value[email] == User(email, enc.encode(password), RoleUser)
      && (forall e | e in users :: r.value[e] == users[e])
  {
    if email in users then Err(ExistingEmail)
    else Ok(users[email := User(email, enc.encode(password), RoleUser)])
  }

  /** `loginUser`: an unknown email is a `NotFoundEmailException`, a password
      that does not match a `InvalidPasswordException`; otherwise the stored
      user itself. */
  function LoginUser(users: Users, enc: PasswordEncoder, email: Email, password: string): (r: Result<User, AuthFailure>)
    ensures email !in users ==> r == Err(NotFoundEmail)
    ensures email in users && !enc.matches(password, users[email].password) ==> r == Err(InvalidPassword)
    ensures r.Ok? <==> email in users && enc.matches(password, users[email].password)
    ensures r.Ok? ==> r.value == users[email]
  {
    if email in users then
      if enc.matches(password, users[email].password) then Ok(users[email]) else Err(InvalidPassword)
    else Err(NotFoundEmail)
  }

  // ---------------------------------------------------------------------------
  // How the operations fit together

  /** `validateEmail` passes exactly when `createUser` would succeed. */
  lemma ValidateAgreesWithCreate(users: Users, enc: PasswordEncoder, email: Email, password: string)
    ensures ValidateEmail(users, email).Ok? <==> CreateUser(users, enc, email, password).Ok?
  {
  }

  /** Sign-up keeps every user under its own email. */
  lemma CreateUserKeepsKeyed(users: Users, enc: PasswordEncoder, email: Email, password: string)
    requires KeyedByEmail(users)
    requires CreateUser(users, enc, email, password).Ok?
    ensures KeyedByEmail(CreateUser(users, enc, email, password).value)
  {
  }

  /** Whoever signs up can log in with the same password, and gets back the
      user just created. */
  lemma SignUpThenLogin(users: Users, enc: PasswordEncoder, email: Email, password: string)
    requires Sound(enc) && email !in users
    ensures var t := CreateUser(users, enc, email, password).value;
            LoginUser(t, enc, email, password) == Ok(User(email, enc.encode(password), RoleUser))
  {
  }

  /** A second sign-up with the same email is refused, whatever the password,
      so the first password stays in force. */
  lemma SignUpOnce(users: Users, enc: PasswordEncoder, email: Email, password: string, again: string)
    requires email !in users
    ensures var t := CreateUser(users, enc, email, password).value;
            && ValidateEmail(t, email) == Err(ExistingEmail)
            && CreateUser(t, enc, email, again) == Err(ExistingEmail)
            && t[email].password == enc.encode(password)
  {
  }

  /** Signing someone up does not change how anyone else logs in. */
  lemma SignUpLeavesOthersLogin(users: Users, enc: PasswordEncoder, email: Email, password: string,
                                other: Email, otherPassword: string)
    requires CreateUser(users, enc, email, password).Ok? && other != email
    ensures LoginUser(CreateUser(users, enc, email, password).value, enc, other, otherPassword)
            == LoginUser(users, enc, other, otherPassword)
  {
  }

  /** Under the keying invariant a successful login returns the user with the
      email that was asked for. */
  lemma LoginReturnsOwnEmail(users: Users, enc: PasswordEncoder, email: Email, password: string)
    requires KeyedByEmail(users)
    requires LoginUser(users, enc, email, password).Ok?
    ensures LoginUser(users, enc, email, password).value.email == email
  {
  }

  // ---------------------------------------------------------------------------
  // The e-mail verification key

  /** The bound passed to `Random.nextInt` and the offset added to its draw. */
  const KeyBound := 888888
  const KeyOffset := 11111

  /** `random.nextInt(888888) + 11111`, for the draw `nextInt` returned. */
  function AuthKey(draw: int): (key: int)
    requires 0 <= draw < KeyBound
    ensures 11111 <= key <= 899998
  {
    draw + KeyOffset
  }

  /** Every number in `[11111, 899998]` is the key of exactly one draw. */
  lemma AuthKeyRange(key: int)
    ensures (exists draw :: 0 <= draw < KeyBound && AuthKey(draw) == key) <==> 11111 <= key <= 899998
  {
    if 11111 <= key <= 899998 {
      assert AuthKey(key - KeyOffset) == key;
    }
  }

  lemma AuthKeyInjective(d1: int, d2: int)
    requires 0 <= d1 < KeyBound && 0 <= d2 < KeyBound
    ensures AuthKey(d1) == AuthKey(d2) <==> d1 == d2
  {
  }

  function Pow10(k: nat): (p: nat)
    ensures p >= 1
  {
    if k == 0 then 1 else 10 * Pow10(k - 1)
  }

  predicate IsDecimalDigit(c: char)
  {
    '0' <= c <= '9'
  }

  /** `String.valueOf(n)` for a non-negative `int`: its decimal digits, most
      significant first, without leading zeros. */
  function DecimalString(n: nat): (s: string)
    ensures |s| >= 1
    ensures forall i :: 0 <= i < |s| ==> IsDecimalDigit(s[i])
    ensures n > 0 ==> s[0] != '0'
    decreases n
  {
    if n < 10 then [('0' as int + n) as char]
    else DecimalString(n / 10) + [('0' as int + n % 10) as char]
  }

  /** The number a string of decimal digits denotes (`Integer.parseInt`). */
  function DecimalValue(s: string): nat
    requires forall i :: 0 <= i < |s| ==> IsDecimalDigit(s[i])
  {
    if |s| == 0 then 0
    else
      assert IsDecimalDigit(s[|s| - 1]);
      DecimalValue(s[..|s| - 1]) * 10 + (s[|s| - 1] as int - '0' as int)
  }

  /** Reading the decimal text back gives the number. */
  lemma {:induction false} DecimalRoundTrip(n: nat)
    ensures DecimalValue(DecimalString(n)) == n
    decreases n
  {
    var s := DecimalString(n);
    if n >= 10 {
      DecimalRoundTrip(n / 10);
      assert s[..|s| - 1] == DecimalString(n / 10);
    }
  }

  /** A number with `k + 1` digits is written with `k + 1` characters. */
  lemma {:induction false} DecimalLength(n: nat, k: nat)
    requires Pow10(k) <= n < Pow10(k + 1)
    ensures |DecimalString(n)| == k + 1
    decreases k
  {
    if k > 0 {
      DecimalLength(n / 10, k - 1);
    }
  }

  /** The key mailed to the user is five or six decimal digits, no leading
      zero, and reads back as the key. */
  lemma AuthKeyText(draw: int)
    requires 0 <= draw < KeyBound
    ensures var text := DecimalString(AuthKey(draw));
            && 5 <= |text| <= 6
            && text[0] != '0'
            && DecimalValue(text) == AuthKey(draw)
  {
    var key := AuthKey(draw);
    assert Pow10(4) == 10000 && Pow10(5) == 100000 && Pow10(6) == 1000000;
    if key < 100000 {
      DecimalLength(key, 4);
    } else {
      DecimalLength(key, 5);
    }
    DecimalRoundTrip(key);
  }
}
