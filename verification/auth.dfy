/** Login: find the user by email, compare the password with the stored digest,
    and sign the claims `{id, role}` for one day. bcrypt's `compare` and jwt's
    `sign` are parameters. */
module Auth {
  import opened Models
  import opened Guard
  import opened Http

  const AppLoginFailure := "Invalid email or password"
  const ControllerLoginFailure := "Invalid credentials"

  /** The payload a login signs: the user's id and role name. */
  function ClaimsOf(u: UserRecord): (c: Claims)
    ensures c.id == u.id && ParseRole(c.role) == Some(u.role)
  {
    ParseRoleName(u.role);
    Claims(u.id, RoleName(u.role))
  }

  /** The user a login accepts: one with that email whose digest matches. */
  predicate Authenticates(users: seq<UserRecord>, email: string, password: string,
                          compare: (string, string) -> bool)
  {
    UserWithEmail(users, email).Some? && compare(password, UserWithEmail(users, email).value.password)
  }

  /** `/api/auth/login` of server.js: the reply carries the token and `{name, role}`. */
  function LoginApp(users: seq<UserRecord>, email: string, password: string,
                    compare: (string, string) -> bool, sign: (Claims, nat) -> string): (r: Response)
    ensures r.status == 200 <==> Authenticates(users, email, password, compare)
    ensures r.status != 200 ==> r == Response(400, Message(AppLoginFailure))
    ensures r.status == 200 ==>
              var u := UserWithEmail(users, email).value;
              r.body.LoginOk? && r.body.token == sign(ClaimsOf(u), OneDay)
              && r.body.user == LoginView(None, u.name, u.role)
  {
    if Authenticates(users, email, password, compare) then
      var u := UserWithEmail(users, email).value;
      Response(200, LoginOk(sign(ClaimsOf(u), OneDay), LoginView(None, u.name, u.role)))
    else Response(400, Message(AppLoginFailure))
  }

  /** `login` of authController.js: the same, with the id in the reply and
      one message for both failures. */
  function LoginController(users: seq<UserRecord>, email: string, password: string,
                           compare: (string, string) -> bool, sign: (Claims, nat) -> string): (r: Response)
    ensures r.status == 200 <==> Authenticates(users, email, password, compare)
    ensures UserWithEmail(users, email).None? ==> r == Response(400, Message(ControllerLoginFailure))
    ensures UserWithEmail(users, email).Some? && !Authenticates(users, email, password, compare)
            ==> r == Response(400, Message(ControllerLoginFailure))
    ensures r.status == 200 ==>
              var u := UserWithEmail(users, email).value;
              r.body.LoginOk? && r.body.token == sign(ClaimsOf(u), OneDay)
              && r.body.user == LoginView(Some(u.id), u.name, u.role)
  {
    match UserWithEmail(users, email)
    case None => Response(400, Message(ControllerLoginFailure))
    case Some(u) =>
      if !compare(password, u.password) then Response(400, Message(ControllerLoginFailure))
      else Response(200, LoginOk(sign(ClaimsOf(u), OneDay), LoginView(Some(u.id), u.name, u.role)))
  }

  /** An unknown email and a wrong password are indistinguishable to the caller. */
  lemma LoginFailuresAlike(users: seq<UserRecord>, unknown: string, p1: string, known: string, p2: string,
                           compare: (string, string) -> bool, sign: (Claims, nat) -> string)
    requires UserWithEmail(users, unknown).None?
    requires UserWithEmail(users, known).Some? && !compare(p2, UserWithEmail(users, known).value.password)
    ensures LoginController(users, unknown, p1, compare, sign) == LoginController(users, known, p2, compare, sign)
    ensures LoginApp(users, unknown, p1, compare, sign) == LoginApp(users, known, p2, compare, sign)
  {
  }

  /** The two login variants accept the same requests and sign the same token. */
  lemma LoginVariantsAgree(users: seq<UserRecord>, email: string, password: string,
                           compare: (string, string) -> bool, sign: (Claims, nat) -> string)
    ensures LoginApp(users, email, password, compare, sign).status
            == LoginController(users, email, password, compare, sign).status
    ensures LoginApp(users, email, password, compare, sign).body.LoginOk? ==>
              LoginApp(users, email, password, compare, sign).body.token
              == LoginController(users, email, password, compare, sign).body.token
  {
  }

  /** A token from a successful login, sent back as `<scheme> <token>` while it
      is valid, passes the guard of any route that admits the user's role, and
      the guard hands the handler the user's id and role. */
  lemma LoginTokenPassesGuard(users: seq<UserRecord>, email: string, password: string,
                              compare: (string, string) -> bool, sign: (Claims, nat) -> string,
                              verify: string -> Option<Claims>, scheme: string, roles: seq<string>,
                              msgs: Messages)
    requires Authenticates(users, email, password, compare)
    requires forall c :: verify(sign(c, OneDay)) == Some(c)
    requires forall c :: ' ' !in sign(c, OneDay) && sign(c, OneDay) != ""
    requires scheme != "" && ' ' !in scheme
    requires RoleAllowed(roles, RoleName(UserWithEmail(users, email).value.role))
    ensures var u := UserWithEmail(users, email).value;
            var token := LoginController(users, email, password, compare, sign).body.token;
            Decide(Some(scheme + " " + token), verify, roles, msgs) == Proceed(Claims(u.id, RoleName(u.role)))
  {
    var u := UserWithEmail(users, email).value;
    var token := sign(ClaimsOf(u), OneDay);
    assert ' ' !in token && token != "";
    SchemeThenToken(scheme, token);
  }

  /** A user just inserted with a digest that matches its password can log in
      with that email and password. */
  lemma RegisteredUserCanLogIn(users: seq<UserRecord>, u: UserRecord, password: string,
                               compare: (string, string) -> bool, sign: (Claims, nat) -> string)
    requires forall i :: 0 <= i < |users| ==> users[i].email != u.email
    requires compare(password, u.password)
    ensures LoginController(users + [u], u.email, password, compare, sign).status == 200
    ensures LoginApp(users + [u], u.email, password, compare, sign).status == 200
  {
    FoundAfterAppend(users, u);
  }
}
