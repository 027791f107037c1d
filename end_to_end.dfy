/** How the client's requests meet the serverless entry point's gate: the
    `Authorization` header the client builds is the header
    `authenticateToken` reads. */
module EndToEnd {
  import opened Wrappers
  import Text
  import Jwt
  import opened Documents
  import AuthGate
  import ApiService

  const AuthorizationHeader := "Authorization"

  /** What the client sees of a handler's response: `response.ok` (a 2xx
      status) and the `message` and `token` fields of the body. */
  function ReplyOf(r: Response): ApiService.Reply {
    var message := match r.body
      case Message(m) => Some(m)
      case LoginOk(_, m) => Some(m)
      case VisitReset(_, m) => Some(m)
      case _ => None;
    var token := if r.body.LoginOk? then Some(r.body.token) else None;
    ApiService.Reply(200 <= r.status < 300, message, token)
  }

  /** The header value the server reads from a request the client built. */
  function AuthorizationOf(req: ApiService.HttpRequest): Option<string> {
    ApiService.GetItem(req.headers, AuthorizationHeader)
  }

  /** A token the client attaches, issued with the server's secret, passes
      the server's gate until it expires, and is refused with 403 after. */
  lemma AttachedTokenMeetsGate(baseUrl: string, endpoint: string, options: ApiService.RequestOptions,
                               username: string, secret: string, issuedMs: nat, nowMs: nat)
    requires ApiService.AttachesToken(endpoint, options.verb, Some(Jwt.Sign(username, secret, issuedMs)))
    ensures var req := ApiService.BuildRequest(baseUrl, endpoint, options, Some(Jwt.Sign(username, secret, issuedMs)));
            AuthGate.Authenticate(AuthorizationOf(req), secret, nowMs)
            == if Jwt.Seconds(nowMs) < Jwt.Seconds(issuedMs) + Jwt.ExpiresInSeconds
               then AuthGate.Admitted(Jwt.IssuedClaims(username, issuedMs)) else AuthGate.RejectedToken
  {
    AuthGate.IssuedTokenAdmitted(username, secret, issuedMs, nowMs);
  }

  /** The token a successful login returns is one the client keeps, and
      every later `/poems...` request carries it through the gate for the
      next 24 hours. */
  lemma LoginThenPoemRequestAdmitted(admin: Option<Admin>, secret: string, username: string, password: string,
                                     loginMs: nat, nowMs: nat, baseUrl: string, suffix: string, verb: Option<string>)
    requires AuthGate.LoginResponse(admin, secret, username, password, loginMs).status == 200
    requires Jwt.Seconds(nowMs) < Jwt.Seconds(loginMs) + Jwt.ExpiresInSeconds
    ensures var reply := ReplyOf(AuthGate.LoginResponse(admin, secret, username, password, loginMs));
            reply.ok && Truthy(reply.token)
            && var req := ApiService.BuildRequest(baseUrl, "/poems" + suffix,
                                                  ApiService.RequestOptions(verb, None, ApiService.NoBody), reply.token);
               AuthGate.Authenticate(AuthorizationOf(req), secret, nowMs)
               == AuthGate.Admitted(Jwt.IssuedClaims(admin.value.username, loginMs))
  {
    var token := Jwt.Sign(admin.value.username, secret, loginMs);
    Jwt.SignedFields(admin.value.username, secret, loginMs);
    assert token != "" by {
      assert Text.Split("", '.') == [""];
    }
    ApiService.PoemRoutesCarryToken(suffix, verb, Some(token));
    AttachedTokenMeetsGate(baseUrl, "/poems" + suffix, ApiService.RequestOptions(verb, None, ApiService.NoBody),
                           admin.value.username, secret, loginMs, nowMs);
  }

  /** The client never attaches its token to the moderation requests, so
      the server's gate always answers them 401 "Token gerekli", even for a
      logged-in administrator. */
  lemma ModerationRequestsLackToken(baseUrl: string, commentId: string, approved: bool,
                                    token: Option<string>, secret: string, nowMs: nat)
    ensures var approve := ApiService.BuildRequest(baseUrl, "/comments/" + commentId + "/approve",
                                                   ApiService.RequestOptions(Some("PUT"), None, ApiService.Approval(approved)), token);
            var g := AuthGate.Authenticate(AuthorizationOf(approve), secret, nowMs);
            g == AuthGate.MissingToken && AuthGate.GateResponse(g) == Response(401, Message(TokenRequired))
    ensures var delete := ApiService.BuildRequest(baseUrl, "/comments/" + commentId,
                                                  ApiService.RequestOptions(Some("DELETE"), None, ApiService.NoBody), token);
            var g := AuthGate.Authenticate(AuthorizationOf(delete), secret, nowMs);
            g == AuthGate.MissingToken && AuthGate.GateResponse(g) == Response(401, Message(TokenRequired))
  {
    ApiService.ModerationRoutesNeverCarryToken(commentId, Some("PUT"), token);
    ApiService.ModerationRoutesNeverCarryToken(commentId, Some("DELETE"), token);
  }
}
