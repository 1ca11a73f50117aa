/** `authController`: the login input check, the mapping of the service's
    error to a status, and the `getMe` projection. */
module AuthController {
  import opened Wrappers
  import Text
  import opened Http
  import Store
  import opened AuthService

  /** `req.body` of a login: either field may be absent. */
  datatype LoginRequest = LoginRequest(username: Option<string>, password: Option<string>)

  /** The bodies `login` sends: a failure, or `{ success: true, message,
      ...result }` with the service's token and user. */
  datatype LoginBody =
    | LoginFailed(message: string)
    | LoggedIn(message: string, token: string, user: Principal)

  const CredentialsRequired := "Username and password are required"
  const LoginSuccessful := "Login successful"

  /** `login(req, res, next)`, with `service` standing for
      `authService.login`: it is called only when both fields are truthy. */
  function Login(req: LoginRequest, service: (string, string) -> Result<Session>): (reply: Reply<LoginBody>)
  {
    if !Text.Truthy(req.username) || !Text.Truthy(req.password) then
      Json(BadRequestStatus, LoginFailed(CredentialsRequired))
    else
      match service(req.username.value, req.password.value)
      case Ok(session) => Json(OkStatus, LoggedIn(LoginSuccessful, session.token, session.user))
      case Err(m) =>
        if m == InvalidCredentials then Json(UnauthorizedStatus, LoginFailed(m)) else Next(m)
  }

  /** A missing or empty field is a 400, whatever the service would have
      answered: the service is not consulted. */
  lemma MissingFieldIs400(req: LoginRequest, service: (string, string) -> Result<Session>,
                          other: (string, string) -> Result<Session>)
    requires !Text.Truthy(req.username) || !Text.Truthy(req.password)
    ensures Login(req, service) == Login(req, other)
    ensures Login(req, service) == Json(400, LoginFailed("Username and password are required"))
  {
  }

  /** With both fields present, the reply is 200 with the session exactly
      when the service succeeds, 401 exactly when it fails with
      `'Invalid credentials'`, and `next` for every other error. */
  lemma LoginReplies(username: string, password: string, service: (string, string) -> Result<Session>)
    requires username != "" && password != ""
    ensures var reply := Login(LoginRequest(Some(username), Some(password)), service);
      var r := service(username, password);
      && (r.Ok? <==> reply.Json? && reply.status == 200)
      && (r.Ok? ==> reply.body == LoggedIn("Login successful", r.value.token, r.value.user))
      && (r == Err("Invalid credentials") <==> reply.Json? && reply.status == 401)
      && (r == Err("Invalid credentials") ==> reply.body == LoginFailed("Invalid credentials"))
      && (r.Err? && r.message != "Invalid credentials" <==> reply.Next?)
      && (reply.Next? ==> reply.error == r.message)
  {
  }

  /** Over the admins table, an unknown username and a wrong password both
      answer 401 with `'Invalid credentials'`, and a successful reply never
      carries more of the admin than id, username and flag. */
  lemma LoginOverAdmins(admins: seq<Store.AdminRow>, username: string, password: string, crypto: Crypto)
    requires username != "" && password != ""
    ensures var reply := Login(LoginRequest(Some(username), Some(password)),
                               (u, p) => AuthService.Login(admins, u, p, crypto));
      && reply.Json?
      && (reply.status == 401 <==> AuthService.Login(admins, username, password, crypto).Err?)
      && (reply.status == 401 ==> reply.body == LoginFailed("Invalid credentials"))
      && (reply.status == 200 ==>
            reply.body.LoggedIn? && reply.body.token == crypto.sign(reply.body.user) && reply.body.user.username == username)
  {
    LoginFailuresAlike(admins, username, password, crypto);
    if AuthService.Login(admins, username, password, crypto).Ok? {
      LoginReturnsPublicFields(admins, username, password, crypto);
    }
  }

  /** The claims the authentication middleware puts on `req.user`: the
      signed principal plus the token's issue and expiry times. */
  datatype Claims = Claims(id: string, username: string, isAdmin: bool, issuedAt: int, expiresAt: int)

  datatype MeBody = MeBody(success: bool, user: Principal)

  /** `getMe(req, res)`. */
  function GetMe(user: Claims): (reply: Reply<MeBody>)
  {
    Json(OkStatus, MeBody(true, Principal(user.id, user.username, user.isAdmin)))
  }

  /** `getMe` answers with exactly the three signed fields of the principal,
      whatever the token's times: the principal a login signed comes back
      unchanged. */
  lemma GetMeReturnsSignedPrincipal(session: Session, issuedAt: int, expiresAt: int)
    ensures GetMe(Claims(session.user.id, session.user.username, session.user.isAdmin, issuedAt, expiresAt))
      == Json(200, MeBody(true, session.user))
  {
  }
}
