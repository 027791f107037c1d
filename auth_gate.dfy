/** The authentication logic both backend entry points share, written
    once: `authenticateToken`, the login decision, the signing secret and
    the fixed credentials of the one-shot administrator setup. */
module AuthGate {
  import opened Wrappers
  import Text
  import Jwt
  import Bcrypt
  import opened Documents

  const DefaultSecret := "your-secret-key"

  /** `process.env.JWT_SECRET || 'your-secret-key'`. */
  function SecretFrom(env: Option<string>): (secret: string)
    ensures secret != ""
    ensures Truthy(env) ==> secret == env.value
    ensures !Truthy(env) ==> secret == DefaultSecret
  {
    if Truthy(env) then env.value else DefaultSecret
  }

  /** The credentials the setup route stores, whatever the request says. */
  const SetupUsername := "senolsylyc"
  const SetupPassword := "senol1970"
  const SetupRounds: nat := 10

  /** The administrator record setup creates, for the salt bcrypt drew. */
  function SetupAdmin(salt: string): Admin {
    Admin(SetupUsername, Bcrypt.Hash(SetupPassword, SetupRounds, salt))
  }

  /** `authHeader && authHeader.split(' ')[1]`: an absent header or an
      empty one stays falsy, a header without a space has no second field. */
  function BearerToken(header: Option<string>): Option<string> {
    match header
    case None => None
    case Some(h) =>
      if h == "" then Some(h)
      else
        var fields := Text.Split(h, ' ');
        if |fields| < 2 then None else Some(fields[1])
  }

  /** What `authenticateToken` decides: 401 when there is no token, 403 when
      `jwt.verify` fails (bad signature, malformed and expired alike), and
      otherwise the wrapped handler runs with the decoded claims. */
  datatype Gate = MissingToken | RejectedToken | Admitted(user: Jwt.Claims)

  function Authenticate(header: Option<string>, secret: string, nowMs: nat): (g: Gate)
    ensures g == MissingToken <==> !Truthy(BearerToken(header))
    ensures g.Admitted? ==> Jwt.Verify(BearerToken(header).value, secret, nowMs) == Some(g.user)
    ensures g == RejectedToken <==>
              Truthy(BearerToken(header)) && Jwt.Verify(BearerToken(header).value, secret, nowMs).None?
  {
    var token := BearerToken(header);
    if !Truthy(token) then MissingToken
    else
      match Jwt.Verify(token.value, secret, nowMs)
      case None => RejectedToken
      case Some(user) => Admitted(user)
  }

  /** The response `authenticateToken` sends instead of running the handler. */
  function GateResponse(g: Gate): Response
    requires !g.Admitted?
  {
    if g == MissingToken then Response(401, Message(TokenRequired))
    else Response(403, Message(InvalidToken))
  }

  /** The token is the second space-separated field, whatever the first one
      (the scheme word) says. */
  lemma SecondFieldIsToken(scheme: string, token: string)
    requires ' ' !in scheme && ' ' !in token
    ensures BearerToken(Some(scheme + " " + token)) == Some(token)
  {
    Text.SplitJoin([scheme, token], ' ');
    assert Text.Join([scheme, token], ' ') == scheme + " " + token;
  }

  /** A header with no space in it carries no token: 401. */
  lemma NoSecondFieldIsMissing(header: string, secret: string, nowMs: nat)
    requires ' ' !in header
    ensures Authenticate(Some(header), secret, nowMs) == MissingToken
  {
    if header != "" {
      Text.SplitWithoutSeparator(header, ' ');
    }
  }

  /** A token issued with this secret passes the gate, with the claims it
      was issued with, until its expiry second; after that it gets 403. */
  lemma IssuedTokenAdmitted(username: string, secret: string, issuedMs: nat, nowMs: nat)
    ensures Authenticate(Some("Bearer " + Jwt.Sign(username, secret, issuedMs)), secret, nowMs)
            == if Jwt.Seconds(nowMs) < Jwt.Seconds(issuedMs) + Jwt.ExpiresInSeconds
               then Admitted(Jwt.IssuedClaims(username, issuedMs)) else RejectedToken
  {
    var token := Jwt.Sign(username, secret, issuedMs);
    Jwt.SignHasNoSpace(username, secret, issuedMs);
    Jwt.SignedFields(username, secret, issuedMs);
    assert token != "" by {
      assert Text.Split("", '.') == [""];
    }
    SecondFieldIsToken("Bearer", token);
    assert "Bearer " + token == "Bearer" + " " + token;
    Jwt.SignVerify(username, secret, issuedMs, nowMs);
  }

  /** The login decision: look the administrator up by username, compare
      the password with the stored hash, and on success sign `{username}`
      for 24 hours.  Unknown username and wrong password get the very same
      401 response. */
  function LoginResponse(admin: Option<Admin>, secret: string, username: string, password: string, nowMs: nat): (r: Response)
    ensures r.status == 200 || r == Response(401, Message(InvalidCredentials))
    ensures r.status == 200 <==>
              admin.Some? && admin.value.username == username && Bcrypt.Compare(password, admin.value.password)
    ensures r.status == 200 ==> r.body == LoginOk(Jwt.Sign(admin.value.username, secret, nowMs), LoginSucceeded)
  {
    if admin.None? || admin.value.username != username then
      Response(401, Message(InvalidCredentials))
    else if !Bcrypt.Compare(password, admin.value.password) then
      Response(401, Message(InvalidCredentials))
    else
      Response(200, LoginOk(Jwt.Sign(admin.value.username, secret, nowMs), LoginSucceeded))
  }

  /** The token a successful login hands out opens the gate, for the
      administrator's username, for exactly the next 24 hours. */
  lemma LoginTokenAdmitted(admin: Option<Admin>, secret: string, username: string, password: string,
                           loginMs: nat, laterMs: nat)
    requires LoginResponse(admin, secret, username, password, loginMs).status == 200
    ensures var g := Authenticate(Some("Bearer " + LoginResponse(admin, secret, username, password, loginMs).body.token),
                                  secret, laterMs);
            (g.Admitted? <==> Jwt.Seconds(laterMs) < Jwt.Seconds(loginMs) + Jwt.ExpiresInSeconds)
            && (g.Admitted? ==> g.user.username == username)
  {
    IssuedTokenAdmitted(admin.value.username, secret, loginMs, laterMs);
  }

  /** After setup, the fixed credentials log in, whatever salt was drawn. */
  lemma SetupCredentialsLogIn(salt: string, secret: string, nowMs: nat)
    ensures LoginResponse(Some(SetupAdmin(salt)), secret, SetupUsername, SetupPassword, nowMs).status == 200
  {
    Bcrypt.CompareHash(SetupPassword, SetupRounds, salt);
  }
}
