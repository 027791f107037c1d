/** The local development server's own copies of the handlers: it declares
    only the poem and administrator collections, and repeats
    `authenticateToken`, login, setup and the poem routes of the serverless
    entry point.  The shared decisions (the gate, the login check, the
    setup credentials) come from `AuthGate`, so the two copies cannot drift
    apart in the model. */
module LocalServer {
  import opened Wrappers
  import opened Documents
  import AuthGate
  import Listing

  class Server {
    var poems: map<Id, Poem>
    var admin: Option<Admin>
    var nextId: Id
    const secret: string

    ghost predicate Valid()
      reads this
    {
      forall id :: id in poems ==> id < nextId
    }

    constructor (envSecret: Option<string>)
      ensures Valid()
      ensures poems == map[] && admin == None
      ensures secret == AuthGate.SecretFrom(envSecret)
    {
      poems, admin, nextId := map[], None, 0;
      secret := AuthGate.SecretFrom(envSecret);
    }

    /** GET /api/poems: every poem, newest first. */
    method GetPoems() returns (r: Response)
      ensures r.status == 200 && r.body.PoemDocs?
      ensures Listing.NewestFirst(r.body.poems, PoemDate) && Listing.DistinctIds(r.body.poems)
      ensures forall e :: e in r.body.poems <==> e.0 in poems && e.1 == poems[e.0]
    {
      var docs := Listing.Query(poems, (p: Poem) => true, PoemDate);
      r := Response(200, PoemDocs(docs));
    }

    /** GET /api/poems/:id. */
    method GetPoem(id: Id) returns (r: Response)
      ensures id in poems ==> r == Response(200, PoemDoc(id, poems[id]))
      ensures id !in poems ==> r == Response(404, Message(PoemNotFound))
    {
      if id !in poems {
        return Response(404, Message(PoemNotFound));
      }
      r := Response(200, PoemDoc(id, poems[id]));
    }

    /** POST /api/admin/login: the same undifferentiated 401 for an unknown
        user and a wrong password; on success `{username}` signed for 24h. */
    method Login(username: string, password: string, nowMs: nat) returns (r: Response)
      ensures r == AuthGate.LoginResponse(admin, secret, username, password, nowMs)
    {
      r := AuthGate.LoginResponse(admin, secret, username, password, nowMs);
    }

    /** POST /api/poems (guarded). */
    method AddPoem(authorization: Option<string>, title: Option<string>, content: Option<string>, nowMs: nat)
      returns (r: Response)
      requires Valid()
      modifies this
      ensures Valid()
      ensures var g := AuthGate.Authenticate(authorization, secret, nowMs);
              if !g.Admitted? then r == AuthGate.GateResponse(g) && unchanged(this)
              else if !Truthy(title) || !Truthy(content) then
                r == Response(400, Message(TitleAndContentRequired)) && unchanged(this)
              else
                var id := old(nextId);
                var poem := Poem(title.value, content.value, nowMs);
                id !in old(poems) && poems == old(poems)[id := poem] && r == Response(201, PoemDoc(id, poem))
                && admin == old(admin)
    {
      var g := AuthGate.Authenticate(authorization, secret, nowMs);
      if !g.Admitted? {
        return AuthGate.GateResponse(g);
      }
      if !Truthy(title) || !Truthy(content) {
        return Response(400, Message(TitleAndContentRequired));
      }
      var id := nextId;
      var poem := Poem(title.value, content.value, nowMs);
      poems := poems[id := poem];
      nextId := nextId + 1;
      r := Response(201, PoemDoc(id, poem));
    }

    /** DELETE /api/poems/:id (guarded): removes only that poem. */
    method DeletePoem(authorization: Option<string>, id: Id, nowMs: nat) returns (r: Response)
      requires Valid()
      modifies this
      ensures Valid()
      ensures var g := AuthGate.Authenticate(authorization, secret, nowMs);
              if !g.Admitted? then r == AuthGate.GateResponse(g) && unchanged(this)
              else if id !in old(poems) then r == Response(404, Message(PoemNotFound)) && unchanged(this)
              else
                poems == old(poems) - {id} && r == Response(200, Message(PoemDeleted))
                && admin == old(admin) && nextId == old(nextId)
    {
      var g := AuthGate.Authenticate(authorization, secret, nowMs);
      if !g.Admitted? {
        return AuthGate.GateResponse(g);
      }
      if id !in poems {
        return Response(404, Message(PoemNotFound));
      }
      poems := poems - {id};
      r := Response(200, Message(PoemDeleted));
    }

    /** POST /api/admin/setup: refused once an administrator exists;
        otherwise one administrator with the hashed fixed password. */
    method Setup(salt: string) returns (r: Response)
      requires Valid()
      modifies this
      ensures Valid()
      ensures old(admin).Some? ==> r == Response(400, Message(AdminExists)) && unchanged(this)
      ensures old(admin).None? ==>
                admin == Some(AuthGate.SetupAdmin(salt)) && r == Response(200, Message(AdminCreated))
                && poems == old(poems) && nextId == old(nextId)
    {
      if admin.Some? {
        return Response(400, Message(AdminExists));
      }
      admin := Some(AuthGate.SetupAdmin(salt));
      r := Response(200, Message(AdminCreated));
    }
  }
}
