/** The route handlers of the serverless backend entry point, as methods of
    one in-memory store holding the four collections.  Every handler gets
    the request's clock reading `nowMs`; the guarded ones also get the
    `Authorization` header and run their body only when `authenticateToken`
    admits the request. */
module ApiIndex {
  import opened Wrappers
  import opened Documents
  import AuthGate
  import Listing

  /** The ids of the comments the public listing of `poemId` shows. */
  function PublicComments(comments: map<Id, Comment>, poemId: Id): (ids: set<Id>)
    ensures forall id :: id in ids <==> id in comments && comments[id].poemId == poemId && comments[id].approved
  {
    set id | id in comments && comments[id].poemId == poemId && comments[id].approved
  }

  /** The moderation write: `findByIdAndUpdate(id, { approved })`. */
  function SetApproval(comments: map<Id, Comment>, id: Id, approved: bool): (m: map<Id, Comment>)
    requires id in comments
    ensures m.Keys == comments.Keys
    ensures m[id] == comments[id].(approved := approved)
    ensures forall other :: other in comments && other != id ==> m[other] == comments[other]
  {
    comments[id := comments[id].(approved := approved)]
  }

  /** A new comment is pending: adding it leaves every public listing as it was. */
  lemma NewCommentNotPublic(comments: map<Id, Comment>, id: Id, c: Comment, poemId: Id)
    requires id !in comments && !c.approved
    ensures PublicComments(comments[id := c], poemId) == PublicComments(comments, poemId)
  {
  }

  /** Approving puts a comment in its poem's public listing; unapproving
      takes it out of every public listing but keeps the record. */
  lemma ApprovalDecidesVisibility(comments: map<Id, Comment>, id: Id, poemId: Id)
    requires id in comments
    ensures id in PublicComments(SetApproval(comments, id, true), poemId) <==> comments[id].poemId == poemId
    ensures id !in PublicComments(SetApproval(comments, id, false), poemId)
    ensures id in SetApproval(comments, id, false)
  {
  }

  /** Setting the same approval twice is setting it once. */
  lemma SetApprovalIdempotent(comments: map<Id, Comment>, id: Id, approved: bool)
    requires id in comments
    ensures SetApproval(SetApproval(comments, id, approved), id, approved) == SetApproval(comments, id, approved)
  {
  }

  /** A deleted comment is in no listing; the others stay as they were. */
  lemma DeleteHides(comments: map<Id, Comment>, id: Id, poemId: Id)
    ensures id !in comments - {id}
    ensures PublicComments(comments - {id}, poemId) == PublicComments(comments, poemId) - {id}
  {
  }

  class Store {
    var poems: map<Id, Poem>
    var comments: map<Id, Comment>
    var admin: Option<Admin>
    var visit: Option<Visit>
    /** The next fresh document id. */
    var nextId: Id
    const secret: string

    ghost predicate Valid()
      reads this
    {
      (forall id :: id in poems ==> id < nextId) && (forall id :: id in comments ==> id < nextId)
    }

    constructor (envSecret: Option<string>)
      ensures Valid()
      ensures poems == map[] && comments == map[] && admin == None && visit == None
      ensures secret == AuthGate.SecretFrom(envSecret)
    {
      poems, comments, admin, visit, nextId := map[], map[], None, None, 0;
      secret := AuthGate.SecretFrom(envSecret);
    }

    /** GET /api/poems: every poem, newest first. */
    method GetPoems() returns (r: Response)
      ensures r.status == 200 && r.body.PoemDocs?
      ensures Listing.NewestFirst(r.body.poems, PoemDate) && Listing.DistinctIds(r.body.poems)
      ensures forall e :: e in r.body.poems <==> e.0 in poems && e.1 == poems[e.0]
    {
      var docs := Listing.Query(poems, (p: Poem) => true, PoemDate);
      r := Response(200, PoemDocs(docs));
    }

    /** GET /api/poems/:id. */
    method GetPoem(id: Id) returns (r: Response)
      ensures id in poems ==> r == Response(200, PoemDoc(id, poems[id]))
      ensures id !in poems ==> r == Response(404, Message(PoemNotFound))
    {
      if id !in poems {
        return Response(404, Message(PoemNotFound));
      }
      r := Response(200, PoemDoc(id, poems[id]));
    }

    /** POST /api/admin/login. */
    method Login(username: string, password: string, nowMs: nat) returns (r: Response)
      ensures r == AuthGate.LoginResponse(admin, secret, username, password, nowMs)
    {
      r := AuthGate.LoginResponse(admin, secret, username, password, nowMs);
    }

    /** POST /api/poems (guarded): 400 unless title and content are both
        non-empty; otherwise one new poem dated now, 201. */
    method AddPoem(authorization: Option<string>, title: Option<string>, content: Option<string>, nowMs: nat)
      returns (r: Response)
      requires Valid()
      modifies this
      ensures Valid()
      ensures var g := AuthGate.Authenticate(authorization, secret, nowMs);
              if !g.Admitted? then r == AuthGate.GateResponse(g) && unchanged(this)
              else if !Truthy(title) || !Truthy(content) then
                r == Response(400, Message(TitleAndContentRequired)) && unchanged(this)
              else
                var id := old(nextId);
                var poem := Poem(title.value, content.value, nowMs);
                id !in old(poems) && poems == old(poems)[id := poem] && r == Response(201, PoemDoc(id, poem))
                && comments == old(comments) && admin == old(admin) && visit == old(visit)
    {
      var g := AuthGate.Authenticate(authorization, secret, nowMs);
      if !g.Admitted? {
        return AuthGate.GateResponse(g);
      }
      if !Truthy(title) || !Truthy(content) {
        return Response(400, Message(TitleAndContentRequired));
      }
      var id := nextId;
      var poem := Poem(title.value, content.value, nowMs);
      poems := poems[id := poem];
      nextId := nextId + 1;
      r := Response(201, PoemDoc(id, poem));
    }

    /** DELETE /api/poems/:id (guarded): removes only that poem; its
        comments stay. */
    method DeletePoem(authorization: Option<string>, id: Id, nowMs: nat) returns (r: Response)
      requires Valid()
      modifies this
      ensures Valid()
      ensures var g := AuthGate.Authenticate(authorization, secret, nowMs);
              if !g.Admitted? then r == AuthGate.GateResponse(g) && unchanged(this)
              else if id !in old(poems) then r == Response(404, Message(PoemNotFound)) && unchanged(this)
              else
                poems == old(poems) - {id} && r == Response(200, Message(PoemDeleted))
                && comments == old(comments) && admin == old(admin) && visit == old(visit)
                && nextId == old(nextId)
    {
      var g := AuthGate.Authenticate(authorization, secret, nowMs);
      if !g.Admitted? {
        return AuthGate.GateResponse(g);
      }
      if id !in poems {
        return Response(404, Message(PoemNotFound));
      }
      poems := poems - {id};
      r := Response(200, Message(PoemDeleted));
    }

    /** POST /api/comments (public): 400 when a field is missing, 404 when
        the poem does not exist, otherwise one new pending comment, 201. */
    method CreateComment(poemId: Option<Id>, name: Option<string>, text: Option<string>, nowMs: nat)
      returns (r: Response)
      requires Valid()
      modifies this
      ensures Valid()
      ensures if poemId.None? || !Truthy(name) || !Truthy(text) then
                r == Response(400, Message(CommentFieldsRequired)) && unchanged(this)
              else if poemId.value !in old(poems) then
                r == Response(404, Message(PoemNotFound)) && unchanged(this)
              else
                var id := old(nextId);
                var c := Comment(poemId.value, name.value, text.value, nowMs, false);
                id !in old(comments) && comments == old(comments)[id := c] && r == Response(201, CommentDoc(id, c))
                && poems == old(poems) && admin == old(admin) && visit == old(visit)
    {
      if poemId.None? || !Truthy(name) || !Truthy(text) {
        return Response(400, Message(CommentFieldsRequired));
      }
      if poemId.value !in poems {
        return Response(404, Message(PoemNotFound));
      }
      var id := nextId;
      var c := Comment(poemId.value, name.value, text.value, nowMs, false);
      comments := comments[id := c];
      nextId := nextId + 1;
      r := Response(201, CommentDoc(id, c));
    }

    /** GET /api/poems/:id/comments (public): that poem's approved comments,
        newest first; an unknown poem gives an empty list, not 404. */
    method GetPoemComments(poemId: Id) returns (r: Response)
      ensures r.status == 200 && r.body.CommentDocs?
      ensures Listing.NewestFirst(r.body.comments, CommentDate) && Listing.DistinctIds(r.body.comments)
      ensures forall e :: e in r.body.comments <==>
                e.0 in PublicComments(comments, poemId) && e.1 == comments[e.0]
    {
      var docs := Listing.Query(comments, (c: Comment) => c.poemId == poemId && c.approved, CommentDate);
      r := Response(200, CommentDocs(docs));
    }

    /** GET /api/comments (guarded): every comment, newest first. */
    method GetAllComments(authorization: Option<string>, nowMs: nat) returns (r: Response)
      ensures var g := AuthGate.Authenticate(authorization, secret, nowMs);
              !g.Admitted? ==> r == AuthGate.GateResponse(g)
      ensures AuthGate.Authenticate(authorization, secret, nowMs).Admitted? ==>
                r.status == 200 && r.body.CommentDocs?
                && Listing.NewestFirst(r.body.comments, CommentDate) && Listing.DistinctIds(r.body.comments)
                && forall e :: e in r.body.comments <==> e.0 in comments && e.1 == comments[e.0]
    {
      var g := AuthGate.Authenticate(authorization, secret, nowMs);
      if !g.Admitted? {
        return AuthGate.GateResponse(g);
      }
      var docs := Listing.Query(comments, (c: Comment) => true, CommentDate);
      r := Response(200, CommentDocs(docs));
    }

    /** PUT /api/comments/:id/approve (guarded): writes the approval flag of
        that one comment and answers with the updated comment. */
    method ApproveComment(authorization: Option<string>, id: Id, approved: bool, nowMs: nat) returns (r: Response)
      requires Valid()
      modifies this
      ensures Valid()
      ensures var g := AuthGate.Authenticate(authorization, secret, nowMs);
              if !g.Admitted? then r == AuthGate.GateResponse(g) && unchanged(this)
              else if id !in old(comments) then r == Response(404, Message(CommentNotFound)) && unchanged(this)
              else
                comments == SetApproval(old(comments), id, approved)
                && r == Response(200, CommentDoc(id, comments[id]))
                && poems == old(poems) && admin == old(admin) && visit == old(visit) && nextId == old(nextId)
    {
      var g := AuthGate.Authenticate(authorization, secret, nowMs);
      if !g.Admitted? {
        return AuthGate.GateResponse(g);
      }
      if id !in comments {
        return Response(404, Message(CommentNotFound));
      }
      var updated := comments[id].(approved := approved);
      comments := comments[id := updated];
      r := Response(200, CommentDoc(id, updated));
    }

    /** DELETE /api/comments/:id (guarded). */
    method DeleteComment(authorization: Option<string>, id: Id, nowMs: nat) returns (r: Response)
      requires Valid()
      modifies this
      ensures Valid()
      ensures var g := AuthGate.Authenticate(authorization, secret, nowMs);
              if !g.Admitted? then r == AuthGate.GateResponse(g) && unchanged(this)
              else if id !in old(comments) then r == Response(404, Message(CommentNotFound)) && unchanged(this)
              else
                comments == old(comments) - {id} && r == Response(200, Message(CommentDeleted))
                && poems == old(poems) && admin == old(admin) && visit == old(visit) && nextId == old(nextId)
    {
      var g := AuthGate.Authenticate(authorization, secret, nowMs);
      if !g.Admitted? {
        return AuthGate.GateResponse(g);
      }
      if id !in comments {
        return Response(404, Message(CommentNotFound));
      }
      comments := comments - {id};
      r := Response(200, Message(CommentDeleted));
    }

    /** POST /api/admin/setup (public): refused once an administrator
        exists; otherwise stores the fixed credentials, hashed with the salt
        bcrypt drew.  The request body plays no part. */
    method Setup(salt: string) returns (r: Response)
      requires Valid()
      modifies this
      ensures Valid()
      ensures old(admin).Some? ==> r == Response(400, Message(AdminExists)) && unchanged(this)
      ensures old(admin).None? ==>
                admin == Some(AuthGate.SetupAdmin(salt)) && r == Response(200, Message(AdminCreated))
                && poems == old(poems) && comments == old(comments) && visit == old(visit) && nextId == old(nextId)
    {
      if admin.Some? {
        return Response(400, Message(AdminExists));
      }
      admin := Some(AuthGate.SetupAdmin(salt));
      r := Response(200, Message(AdminCreated));
    }

    /** GET /api/visits: creates a zero counter when there is none. */
    method GetVisits(nowMs: nat) returns (r: Response)
      requires Valid()
      modifies this
      ensures Valid()
      ensures old(visit).None? ==> visit == Some(Visit(0, nowMs)) && r == Response(200, VisitCount(0))
      ensures old(visit).Some? ==> visit == old(visit) && r == Response(200, VisitCount(visit.value.count))
      ensures poems == old(poems) && comments == old(comments) && admin == old(admin) && nextId == old(nextId)
    {
      if visit.None? {
        visit := Some(Visit(0, nowMs));
      }
      r := Response(200, VisitCount(visit.value.count));
    }

    /** POST /api/visits/increment (public): 1 when there was no counter,
        otherwise one more than before. */
    method IncrementVisits(nowMs: nat) returns (r: Response)
      requires Valid()
      modifies this
      ensures Valid()
      ensures var count := if old(visit).None? then 1 else old(visit).value.count + 1;
              visit == Some(Visit(count, nowMs)) && r == Response(200, VisitCount(count))
      ensures poems == old(poems) && comments == old(comments) && admin == old(admin) && nextId == old(nextId)
    {
      if visit.None? {
        visit := Some(Visit(1, nowMs));
      } else {
        visit := Some(visit.value.(count := visit.value.count + 1, lastUpdated := nowMs));
      }
      r := Response(200, VisitCount(visit.value.count));
    }

    /** POST /api/visits/reset (guarded): the counter is 0 afterwards. */
    method ResetVisits(authorization: Option<string>, nowMs: nat) returns (r: Response)
      requires Valid()
      modifies this
      ensures Valid()
      ensures var g := AuthGate.Authenticate(authorization, secret, nowMs);
              if !g.Admitted? then r == AuthGate.GateResponse(g) && unchanged(this)
              else
                visit == Some(Visit(0, nowMs)) && r == Response(200, VisitReset(0, VisitsReset))
                && poems == old(poems) && comments == old(comments) && admin == old(admin) && nextId == old(nextId)
    {
      var g := AuthGate.Authenticate(authorization, secret, nowMs);
      if !g.Admitted? {
        return AuthGate.GateResponse(g);
      }
      if visit.None? {
        visit := Some(Visit(0, nowMs));
      } else {
        visit := Some(visit.value.(count := 0, lastUpdated := nowMs));
      }
      r := Response(200, VisitReset(visit.value.count, VisitsReset));
    }

    /** Two deletes of the same comment by an admitted caller: the second
        one finds nothing. */
    method DeleteCommentTwice(authorization: Option<string>, id: Id, nowMs: nat) returns (first: Response, second: Response)
      requires Valid()
      modifies this
      ensures Valid()
      ensures AuthGate.Authenticate(authorization, secret, nowMs).Admitted? ==>
                first.status == (if id in old(comments) then 200 else 404)
                && second == Response(404, Message(CommentNotFound))
                && comments == old(comments) - {id}
    {
      first := DeleteComment(authorization, id, nowMs);
      second := DeleteComment(authorization, id, nowMs);
    }

    /** Setup succeeds at most once: a second call is refused and the
        administrator of the first stays. */
    method SetupTwice(salt: string, laterSalt: string) returns (first: Response, second: Response)
      requires Valid()
      modifies this
      ensures Valid()
      ensures second == Response(400, Message(AdminExists))
      ensures admin == if old(admin).None? then Some(AuthGate.SetupAdmin(salt)) else old(admin)
      ensures first.status == 200 <==> old(admin).None?
    {
      first := Setup(salt);
      second := Setup(laterSalt);
    }
  }
}
