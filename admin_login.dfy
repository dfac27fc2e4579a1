/**
 * The admin login endpoint: a guard chain over the method, the submitted
 * credentials and the configured admin account, ending in a signed token.
 * Password hashing and token signing are parameters.
 */
module AdminLogin {
  import opened Wrappers
  import opened JsValues
  import opened Http
  import opened BookEndpoints

  /** The method and the `username` and `password` fields of the body. */
  datatype LoginRequest = LoginRequest(verb: string, username: JsValue, password: JsValue)

  /** `ADMIN_USERNAME` and `ADMIN_PASSWORD_HASH` from the environment. */
  datatype Env = Env(adminUsername: Option<string>, adminPasswordHash: Option<string>)

  /** `bcrypt.compare(password, hash)`; a failure stands for the error it throws on a non-string password. */
  type PasswordCheck = (JsValue, string) -> Result<bool, string>

  /** `signToken(payload)`; a failure stands for the error signing throws without a secret. */
  type Signer = Claims -> Result<string, string>

  const CredentialsRequired := Response(400, MessageBody("Username and password are required"))
  const Misconfigured := Response(500, MessageBody("Server misconfiguration: Admin credentials not set"))
  const InvalidCredentials := Response(401, MessageBody("Invalid credentials"))

  /** An environment value that is set and not empty. */
  predicate Set(v: Option<string>) {
    v.Some? && v.value != ""
  }

  predicate Configured(env: Env) {
    Set(env.adminUsername) && Set(env.adminPasswordHash)
  }

  /** The guards up to the username comparison all pass. */
  predicate ReachesUsernameCheck(req: LoginRequest, env: Env) {
    req.verb == "POST" && Truthy(req.username) && Truthy(req.password) && Configured(env)
  }

  /** The handler. */
  function Login(req: LoginRequest, env: Env, compare: PasswordCheck, sign: Signer): (r: Outcome)
    ensures r == Sent(MethodNotAllowed) <==> req.verb != "POST"
    ensures r == Sent(CredentialsRequired) <==> req.verb == "POST" && (!Truthy(req.username) || !Truthy(req.password))
    ensures r == Sent(Misconfigured) <==>
      req.verb == "POST" && Truthy(req.username) && Truthy(req.password) && !Configured(env)
    ensures r == Sent(InvalidCredentials) <==>
      && ReachesUsernameCheck(req, env)
      && (req.username != Str(env.adminUsername.value)
          || compare(req.password, env.adminPasswordHash.value) == Success(false))
    ensures r.Sent? && r.response.status == 200 <==>
      && ReachesUsernameCheck(req, env)
      && req.username == Str(env.adminUsername.value)
      && compare(req.password, env.adminPasswordHash.value) == Success(true)
      && sign(Claims(Str("admin"), req.username)).Success?
    ensures r.Sent? && r.response.status == 200 ==>
      r.response.body == TokenBody(sign(Claims(Str("admin"), Str(env.adminUsername.value))).value)
    ensures !r.Next?
  {
    if req.verb != "POST" then Sent(MethodNotAllowed)
    else if !Truthy(req.username) || !Truthy(req.password) then Sent(CredentialsRequired)
    else if !Set(env.adminUsername) || !Set(env.adminPasswordHash) then Sent(Misconfigured)
    else if req.username != Str(env.adminUsername.value) then Sent(InvalidCredentials)
    else match compare(req.password, env.adminPasswordHash.value)
      case Failure(e) => Escaped(e)
      case Success(false) => Sent(InvalidCredentials)
      case Success(true) =>
        match sign(Claims(Str("admin"), req.username))
        case Failure(e) => Escaped(e)
        case Success(token) => Sent(Response(200, TokenBody(token)))
  }

  /** Missing credentials are reported before the configuration, the hash or the signer is looked at. */
  lemma MissingCredentialsFirst(req: LoginRequest, env1: Env, env2: Env, c1: PasswordCheck, c2: PasswordCheck, s1: Signer, s2: Signer)
    requires req.verb == "POST" && (!Truthy(req.username) || !Truthy(req.password))
    ensures Login(req, env1, c1, s1) == Login(req, env2, c2, s2) == Sent(CredentialsRequired)
  {
  }

  /** A wrong username is refused without comparing the password. */
  lemma WrongUsernameSkipsPassword(req: LoginRequest, env: Env, c1: PasswordCheck, c2: PasswordCheck, s1: Signer, s2: Signer)
    requires ReachesUsernameCheck(req, env) && req.username != Str(env.adminUsername.value)
    ensures Login(req, env, c1, s1) == Login(req, env, c2, s2) == Sent(InvalidCredentials)
  {
  }

  /** A wrong username and a wrong password get the very same answer, so the answer does not tell which was wrong. */
  lemma SameAnswerForEitherMismatch(wrongUser: LoginRequest, wrongPassword: LoginRequest, env: Env,
                                    compare: PasswordCheck, sign: Signer)
    requires ReachesUsernameCheck(wrongUser, env) && wrongUser.username != Str(env.adminUsername.value)
    requires ReachesUsernameCheck(wrongPassword, env) && wrongPassword.username == Str(env.adminUsername.value)
    requires compare(wrongPassword.password, env.adminPasswordHash.value) == Success(false)
    ensures Login(wrongUser, env, compare, sign) == Login(wrongPassword, env, compare, sign)
  {
  }

  /**
   * A token is issued only to the configured admin with a matching
   * password, and it is signed over the admin role and that username.
   */
  lemma TokenOnlyForAdmin(req: LoginRequest, env: Env, compare: PasswordCheck, sign: Signer)
    requires Login(req, env, compare, sign).Sent? && Login(req, env, compare, sign).response.body.TokenBody?
    ensures Configured(env) && req.username == Str(env.adminUsername.value)
    ensures compare(req.password, env.adminPasswordHash.value) == Success(true)
    ensures Success(Login(req, env, compare, sign).response.body.token) == sign(Claims(Str("admin"), Str(env.adminUsername.value)))
  {
  }
}
