/** The browser client's `ApiService`: the token it holds (mirrored in
    `localStorage`), the rule that decides which requests carry
    `Authorization: Bearer <token>`, the header merge of `request`, the
    error message of a failed response, and `login`.  The network is not
    modelled: a request is built, and the server's reply is an input. */
module ApiService {
  import opened Wrappers
  import Text

  const TokenKey := "token"
  const BearerPrefix := "Bearer "
  const DefaultError := "Bir hata oluştu"

  /** The prefixes of the endpoints `request` treats as administrative. */
  const AdminEndpoints: seq<string> := ["/admin/login", "/admin/setup", "/poems", "/visits/reset"]

  /** A poem as the client receives it. */
  datatype Poem = Poem(id: string, title: string, content: string, date: string, views: int)

  /** The JSON body a request carries, before `JSON.stringify`. */
  datatype Payload =
    | NoBody
    | Credentials(username: string, password: string)
    | PoemFields(title: string, content: string, date: Option<string>)
    | CommentFields(poemId: string, name: string, comment: string)
    | Approval(approved: bool)

  /** The `options` argument of `request`; `headers` is `None` when the
      caller passes no `headers` key. */
  datatype RequestOptions = RequestOptions(verb: Option<string>, headers: Option<map<string, string>>, body: Payload)

  datatype HttpRequest = HttpRequest(url: string, verb: Option<string>, headers: map<string, string>, body: Payload)

  /** What the server answered: `response.ok`, and the `message` and
      `token` fields of its JSON body. */
  datatype Reply = Reply(ok: bool, message: Option<string>, token: Option<string>)

  /** `localStorage`, shared by every part of the page. */
  class LocalStorage {
    var items: map<string, string>

    constructor ()
      ensures items == map[]
    {
      items := map[];
    }
  }

  /** `adminEndpoints.some(e => endpoint.startsWith(e))`. */
  predicate IsAdminEndpoint(endpoint: string) {
    exists i :: 0 <= i < |AdminEndpoints| && Text.StartsWith(endpoint, AdminEndpoints[i])
  }

  /** The branch structure of `request`: `/comments` other than POST gets the
      token whenever one is held; any other endpoint only when it is
      administrative. */
  predicate AttachesToken(endpoint: string, verb: Option<string>, token: Option<string>) {
    if endpoint == "/comments" && verb != Some("POST") then Truthy(token)
    else Truthy(token) && IsAdminEndpoint(endpoint)
  }

  /** The same rule as one flat condition. */
  lemma AttachesTokenIff(endpoint: string, verb: Option<string>, token: Option<string>)
    ensures AttachesToken(endpoint, verb, token) <==>
              Truthy(token)
              && ((endpoint == "/comments" && verb != Some("POST"))
                  || Text.StartsWith(endpoint, "/admin/login") || Text.StartsWith(endpoint, "/admin/setup")
                  || Text.StartsWith(endpoint, "/poems") || Text.StartsWith(endpoint, "/visits/reset"))
  {
    if Text.StartsWith(endpoint, "/admin/login") { assert Text.StartsWith(endpoint, AdminEndpoints[0]); }
    if Text.StartsWith(endpoint, "/admin/setup") { assert Text.StartsWith(endpoint, AdminEndpoints[1]); }
    if Text.StartsWith(endpoint, "/poems") { assert Text.StartsWith(endpoint, AdminEndpoints[2]); }
    if Text.StartsWith(endpoint, "/visits/reset") { assert Text.StartsWith(endpoint, AdminEndpoints[3]); }
  }

  /** An endpoint that begins with "/c" or "/visits/i" is not administrative. */
  lemma NotAdminEndpoint(endpoint: string)
    requires (|endpoint| >= 2 && endpoint[..2] == "/c") || (|endpoint| >= 9 && endpoint[..9] == "/visits/i")
    ensures !IsAdminEndpoint(endpoint)
  {
    forall i | 0 <= i < |AdminEndpoints| ensures !Text.StartsWith(endpoint, AdminEndpoints[i]) {
      var e := AdminEndpoints[i];
      if |e| <= |endpoint| {
        assert endpoint[..|e|][1] == endpoint[1];
        if endpoint[1] == 'v' && e[1] == 'v' {
          assert endpoint[..|e|][8] == endpoint[8] != e[8];
        } else {
          assert endpoint[1] != e[1];
        }
      }
    }
  }

  /** The moderation routes and the public counter never get the token,
      whatever the method and whatever the client holds. */
  lemma ModerationRoutesNeverCarryToken(commentId: string, verb: Option<string>, token: Option<string>)
    ensures !AttachesToken("/comments/" + commentId + "/approve", verb, token)
    ensures !AttachesToken("/comments/" + commentId, verb, token)
    ensures !AttachesToken("/visits/increment", verb, token)
    ensures !AttachesToken("/comments", Some("POST"), token)
  {
    var approve := "/comments/" + commentId + "/approve";
    var delete := "/comments/" + commentId;
    assert approve[..2] == "/c" && delete[..2] == "/c";
    assert |approve| > |"/comments"| && |delete| > |"/comments"|;
    NotAdminEndpoint(approve);
    NotAdminEndpoint(delete);
    NotAdminEndpoint("/visits/increment");
    NotAdminEndpoint("/comments");
  }

  /** Every request under "/poems", reads included, carries a held token. */
  lemma PoemRoutesCarryToken(suffix: string, verb: Option<string>, token: Option<string>)
    requires Truthy(token)
    ensures AttachesToken("/poems" + suffix, verb, token)
  {
    var e := "/poems" + suffix;
    assert e[..|"/poems"|] == "/poems";
    assert Text.StartsWith(e, AdminEndpoints[2]);
    assert e != "/comments" by { assert e[1] != "/comments"[1]; }
  }

  /** The first spread, `{ 'Content-Type': 'application/json',
      ...options.headers }`: the caller's headers win over the default, and
      spreading an absent `headers` adds nothing. */
  function MergedHeaders(callerHeaders: Option<map<string, string>>): map<string, string> {
    map["Content-Type" := "application/json"] + (if callerHeaders.Some? then callerHeaders.value else map[])
  }

  /** The second spread, `...options`, written after the merged `headers`:
      an own `headers` key of `options` overwrites that merged value. */
  function BaseHeaders(options: RequestOptions): map<string, string> {
    var config := map["headers" := MergedHeaders(options.headers)];
    var config := if options.headers.Some? then config["headers" := options.headers.value] else config;
    config["headers"]
  }

  /** A caller's `headers` replaces the merged headers outright, although
      the merge had kept every caller header and added the default
      Content-Type; without caller headers the JSON default is sent. */
  lemma CallerHeadersReplaceMerged(options: RequestOptions)
    ensures options.headers.Some? ==>
              BaseHeaders(options) == options.headers.value
              && "Content-Type" in MergedHeaders(options.headers)
              && forall k :: k in options.headers.value ==> MergedHeaders(options.headers)[k] == options.headers.value[k]
    ensures options.headers.None? ==> BaseHeaders(options) == map["Content-Type" := "application/json"]
  {
  }

  /** The headers `request` sends: the base headers, with the bearer token
      added exactly when `AttachesToken` says so. */
  function RequestHeaders(endpoint: string, options: RequestOptions, token: Option<string>): (h: map<string, string>)
    ensures AttachesToken(endpoint, options.verb, token) ==>
              "Authorization" in h && h["Authorization"] == BearerPrefix + token.value
              && h.Keys == BaseHeaders(options).Keys + {"Authorization"}
              && forall k :: k in BaseHeaders(options) && k != "Authorization" ==> h[k] == BaseHeaders(options)[k]
    ensures !AttachesToken(endpoint, options.verb, token) ==> h == BaseHeaders(options)
  {
    var base := BaseHeaders(options);
    if AttachesToken(endpoint, options.verb, token) then base["Authorization" := BearerPrefix + token.value]
    else base
  }

  /** Passing `headers` loses the default Content-Type unless the caller
      repeats it. */
  lemma CallerHeadersDropContentType(endpoint: string, options: RequestOptions, token: Option<string>)
    requires options.headers.Some? && "Content-Type" !in options.headers.value
    ensures "Content-Type" !in RequestHeaders(endpoint, options, token)
  {
  }

  /** The request `request(endpoint, options)` hands to `fetch`. */
  function BuildRequest(baseUrl: string, endpoint: string, options: RequestOptions, token: Option<string>): HttpRequest {
    HttpRequest(baseUrl + endpoint, options.verb, RequestHeaders(endpoint, options, token), options.body)
  }

  /** `error.message || 'Bir hata oluştu'`: a failure never has an empty
      message. */
  function ErrorMessage(message: Option<string>): (m: string)
    ensures m != ""
    ensures Truthy(message) ==> m == message.value
    ensures !Truthy(message) ==> m == DefaultError
  {
    if Truthy(message) then message.value else DefaultError
  }

  /** What `request` resolves to for a reply, or the message it throws. */
  function Outcome(reply: Reply): Result<Reply, string> {
    if reply.ok then Success(reply) else Failure(ErrorMessage(reply.message))
  }

  /** `localStorage.getItem(key)`: `None` stands for `null`. */
  function GetItem(items: map<string, string>, key: string): Option<string> {
    if key in items then Some(items[key]) else None
  }

  class ApiService {
    var token: Option<string>
    const storage: LocalStorage
    const baseUrl: string

    constructor (storage: LocalStorage, baseUrl: string)
      ensures token == None && this.storage == storage && this.baseUrl == baseUrl
    {
      token := None;
      this.storage := storage;
      this.baseUrl := baseUrl;
    }

    /** `setToken`: the field and the stored copy both hold the token. */
    method SetToken(t: string)
      modifies this, storage
      ensures token == Some(t)
      ensures storage.items == old(storage.items)[TokenKey := t]
    {
      token := Some(t);
      storage.items := storage.items[TokenKey := t];
    }

    /** `clearToken`: neither the field nor the stored copy holds a token. */
    method ClearToken()
      modifies this, storage
      ensures token == None
      ensures storage.items == old(storage.items) - {TokenKey}
    {
      token := None;
      storage.items := storage.items - {TokenKey};
    }

    /** `resetToken`: reads the stored token back right after removing it,
        so it always ends with no token. */
    method ResetToken()
      modifies this, storage
      ensures token == None
      ensures storage.items == old(storage.items) - {TokenKey}
    {
      ClearToken();
      token := GetItem(storage.items, TokenKey);
    }

    /** The request `request(endpoint, options)` would send now. */
    function Request(endpoint: string, options: RequestOptions): HttpRequest
      reads this
    {
      BuildRequest(baseUrl, endpoint, options, token)
    }

    /** `login`: POSTs the credentials; keeps the token of a successful
        reply only when the reply has a non-empty one. */
    method Login(username: string, password: string, reply: Reply) returns (sent: HttpRequest, result: Result<Reply, string>)
      modifies this, storage
      ensures sent == BuildRequest(baseUrl, "/admin/login",
                                   RequestOptions(Some("POST"), None, Credentials(username, password)), old(token))
      ensures result == Outcome(reply)
      ensures reply.ok && Truthy(reply.token) ==>
                token == reply.token && storage.items == old(storage.items)[TokenKey := reply.token.value]
      ensures !(reply.ok && Truthy(reply.token)) ==> token == old(token) && storage.items == old(storage.items)
    {
      sent := Request("/admin/login", RequestOptions(Some("POST"), None, Credentials(username, password)));
      result := Outcome(reply);
      if result.Success? && Truthy(reply.token) {
        SetToken(reply.token.value);
      }
    }
  }
}
