/** The top-level client component: the poem list it keeps, the admin flag,
    the loading and error state and the visit counter, and the callbacks
    that update them once `apiService` has answered.  Each callback takes
    what its awaited call resolved to (or the message it threw) as a
    parameter, and returns the requests it sent. */
module App {
  import opened Wrappers
  import Seqs
  import opened ApiService
  import HomePage

  const PoemsKey := "poems"
  const LoadError := "Şiirler yüklenirken bir hata oluştu"

  /** `prev.filter(poem => poem._id !== id)`. */
  function RemoveById(poems: seq<Poem>, id: string): (r: seq<Poem>)
    ensures Seqs.IsSubsequence(r, poems)
    ensures forall p :: p in r <==> p in poems && p.id != id
    ensures forall p :: multiset(r)[p] == if p.id != id then multiset(poems)[p] else 0
  {
    Seqs.Filter(poems, (p: Poem) => p.id != id)
  }

  /** `prev.map(poem => poem._id === id ? updated : poem)`. */
  function ReplaceById(poems: seq<Poem>, id: string, updated: Poem): (r: seq<Poem>)
    ensures |r| == |poems|
    ensures forall i :: 0 <= i < |poems| && poems[i].id == id ==> r[i] == updated
    ensures forall i :: 0 <= i < |poems| && poems[i].id != id ==> r[i] == poems[i]
  {
    seq(|poems|, i requires 0 <= i < |poems| => if poems[i].id == id then updated else poems[i])
  }

  /** A freshly added poem is the one its route selects. */
  lemma AddedPoemSelected(p: Poem, poems: seq<Poem>)
    ensures HomePage.SelectedPoem([p] + poems, Some(p.id)) == Some(p)
  {
    assert HomePage.FirstWithId([p] + poems, p.id, 0);
  }

  /** After a delete, the deleted poem's route selects nothing. */
  lemma DeletedPoemNotSelectable(poems: seq<Poem>, id: string)
    ensures HomePage.SelectedPoem(RemoveById(poems, id), Some(id)) == None
  {
    var r := RemoveById(poems, id);
    forall i | 0 <= i < |r| ensures r[i].id != id {
      assert r[i] in r;
    }
  }

  /** A delete leaves what every other route selects as it was. */
  lemma {:induction false} DeleteKeepsOtherSelections(poems: seq<Poem>, id: string, other: string)
    requires other != id
    ensures HomePage.SelectedPoem(RemoveById(poems, id), Some(other)) == HomePage.SelectedPoem(poems, Some(other))
    decreases |poems|
  {
    if |poems| > 0 {
      var h, t := poems[0], poems[1..];
      var rest := RemoveById(t, id);
      assert RemoveById(poems, id) == if h.id != id then [h] + rest else rest by {
        Seqs.FilterCons(poems, (p: Poem) => p.id != id);
      }
      assert HomePage.SelectedPoem(poems, Some(other)) == if h.id == other then Some(h) else HomePage.SelectedPoem(t, Some(other)) by {
        assert poems == [h] + t;
        SelectedCons(h, t, other);
      }
      DeleteKeepsOtherSelections(t, id, other);
      if h.id != id {
        SelectedCons(h, rest, other);
      }
    }
  }

  /** The route selects the first poem if it has the id, and otherwise
      searches the rest. */
  lemma SelectedCons(h: Poem, t: seq<Poem>, other: string)
    ensures HomePage.SelectedPoem([h] + t, Some(other)) == if h.id == other then Some(h) else HomePage.SelectedPoem(t, Some(other))
  {
    var s := [h] + t;
    assert s[0] == h && s[1..] == t;
    if h.id != other {
      var a := HomePage.SelectedPoem(s, Some(other));
      var b := HomePage.SelectedPoem(t, Some(other));
      if a.Some? {
        var k :| HomePage.FirstWithId(s, other, k) && a.value == s[k];
        assert HomePage.FirstWithId(t, other, k - 1);
        var j :| HomePage.FirstWithId(t, other, j) && b.value == t[j];
        assert s[j + 1] == t[j];
        assert j == k - 1;
      } else {
        assert forall i :: 0 <= i < |t| ==> t[i] == s[i + 1];
      }
    } else {
      assert HomePage.FirstWithId(s, other, 0);
    }
  }

  /** After an update, the poem's route selects the updated version. */
  lemma UpdatedPoemSelected(poems: seq<Poem>, id: string, updated: Poem)
    requires updated.id == id
    requires exists i :: 0 <= i < |poems| && poems[i].id == id
    ensures HomePage.SelectedPoem(ReplaceById(poems, id, updated), Some(id)) == Some(updated)
  {
    var r := ReplaceById(poems, id, updated);
    var i :| 0 <= i < |poems| && poems[i].id == id;
    assert r[i].id == id;
    var s := HomePage.SelectedPoem(r, Some(id));
    var k :| HomePage.FirstWithId(r, id, k) && s.value == r[k];
    assert poems[k].id == id;
  }

  /** An update leaves what every other route selects as it was. */
  lemma UpdateKeepsOtherSelections(poems: seq<Poem>, id: string, updated: Poem, other: string)
    requires updated.id == id && other != id
    ensures HomePage.SelectedPoem(ReplaceById(poems, id, updated), Some(other)) == HomePage.SelectedPoem(poems, Some(other))
  {
    var r := ReplaceById(poems, id, updated);
    assert forall i :: 0 <= i < |poems| ==> (r[i].id == other <==> poems[i].id == other);
    var before := HomePage.SelectedPoem(poems, Some(other));
    var after := HomePage.SelectedPoem(r, Some(other));
    if before.Some? {
      var k :| HomePage.FirstWithId(poems, other, k) && before.value == poems[k];
      var j :| HomePage.FirstWithId(r, other, j) && after.value == r[j];
      assert r[k].id == other;
      assert poems[j].id == other;
      assert j == k;
    }
  }

  class App {
    var poems: seq<Poem>
    var isAdmin: bool
    var loading: bool
    var error: Option<string>
    var visitCount: int
    const api: ApiService

    constructor (api: ApiService)
      ensures poems == [] && !isAdmin && loading && error == None && visitCount == 0
      ensures this.api == api
    {
      poems, isAdmin, loading, error, visitCount := [], false, true, None, 0;
      this.api := api;
    }

    /** `checkAdminStatus`: a stored token sets the flag; it is never
        cleared here. */
    method CheckAdminStatus()
      modifies this
      ensures isAdmin == (old(isAdmin) || Truthy(GetItem(api.storage.items, TokenKey)))
      ensures poems == old(poems) && loading == old(loading) && error == old(error) && visitCount == old(visitCount)
    {
      var token := GetItem(api.storage.items, TokenKey);
      if Truthy(token) {
        isAdmin := true;
      }
    }

    /** `addPoem`: on success the new poem goes first, and `true`. */
    method AddPoem(title: string, content: string, date: Option<string>, reply: Result<Poem, string>)
      returns (sent: HttpRequest, ok: bool)
      modifies this
      ensures sent == api.Request("/poems", RequestOptions(Some("POST"), None, PoemFields(title, content, date)))
      ensures ok == reply.Success?
      ensures poems == if reply.Success? then [reply.value] + old(poems) else old(poems)
      ensures isAdmin == old(isAdmin) && loading == old(loading) && error == old(error) && visitCount == old(visitCount)
    {
      sent := api.Request("/poems", RequestOptions(Some("POST"), None, PoemFields(title, content, date)));
      if reply.Failure? {
        return sent, false;
      }
      poems := [reply.value] + poems;
      ok := true;
    }

    /** `deletePoem`: on success every poem with that id goes, the rest
        keep their order. */
    method DeletePoem(id: string, reply: Result<string, string>) returns (sent: HttpRequest, ok: bool)
      modifies this
      ensures sent == api.Request("/poems/" + id, RequestOptions(Some("DELETE"), None, NoBody))
      ensures ok == reply.Success?
      ensures poems == if reply.Success? then RemoveById(old(poems), id) else old(poems)
      ensures isAdmin == old(isAdmin) && loading == old(loading) && error == old(error) && visitCount == old(visitCount)
    {
      sent := api.Request("/poems/" + id, RequestOptions(Some("DELETE"), None, NoBody));
      if reply.Failure? {
        return sent, false;
      }
      poems := RemoveById(poems, id);
      ok := true;
    }

    /** `updatePoem`: on success every poem with that id is replaced. */
    method UpdatePoem(id: string, title: string, content: string, date: Option<string>, reply: Result<Poem, string>)
      returns (sent: HttpRequest, ok: bool)
      modifies this
      ensures sent == api.Request("/poems/" + id, RequestOptions(Some("PUT"), None, PoemFields(title, content, date)))
      ensures ok == reply.Success?
      ensures poems == if reply.Success? then ReplaceById(old(poems), id, reply.value) else old(poems)
      ensures isAdmin == old(isAdmin) && loading == old(loading) && error == old(error) && visitCount == old(visitCount)
    {
      sent := api.Request("/poems/" + id, RequestOptions(Some("PUT"), None, PoemFields(title, content, date)));
      if reply.Failure? {
        return sent, false;
      }
      poems := ReplaceById(poems, id, reply.value);
      ok := true;
    }

    /** `loginAdmin`: the flag is set only when `login` resolves; a failed
        login leaves it as it was. */
    method LoginAdmin(username: string, password: string, reply: Reply) returns (sent: HttpRequest, ok: bool)
      modifies this, api, api.storage
      ensures sent == BuildRequest(api.baseUrl, "/admin/login",
                                   RequestOptions(Some("POST"), None, Credentials(username, password)), old(api.token))
      ensures ok == reply.ok
      ensures isAdmin == (reply.ok || old(isAdmin))
      ensures reply.ok && Truthy(reply.token) ==>
                api.token == reply.token && api.storage.items == old(api.storage.items)[TokenKey := reply.token.value]
      ensures !(reply.ok && Truthy(reply.token)) ==>
                api.token == old(api.token) && api.storage.items == old(api.storage.items)
      ensures poems == old(poems) && loading == old(loading) && error == old(error) && visitCount == old(visitCount)
    {
      var result;
      sent, result := api.Login(username, password, reply);
      if result.Failure? {
        return sent, false;
      }
      isAdmin := true;
      ok := true;
    }

    /** `logoutAdmin`: no token anywhere, and not an administrator. */
    method LogoutAdmin()
      modifies this, api, api.storage
      ensures !isAdmin
      ensures api.token == None && api.storage.items == old(api.storage.items) - {TokenKey}
      ensures poems == old(poems) && loading == old(loading) && error == old(error) && visitCount == old(visitCount)
    {
      api.ClearToken();
      isAdmin := false;
    }

    /** `loadPoems`: the fetched list replaces the old one; on failure the
        error is set and the poems saved under "poems" are used, if any
        (`parse` is `JSON.parse`, `None` when it throws).  `loading` ends
        false on every path. */
    method LoadPoems(fetched: Result<seq<Poem>, string>, parse: string -> Option<seq<Poem>>) returns (sent: HttpRequest)
      modifies this
      ensures sent == api.Request("/poems", RequestOptions(None, None, NoBody))
      ensures !loading
      ensures fetched.Success? ==> poems == fetched.value && error == None
      ensures fetched.Failure? ==>
                var saved := GetItem(api.storage.items, PoemsKey);
                error == Some(LoadError)
                && poems == if Truthy(saved) && parse(saved.value).Some? then parse(saved.value).value else old(poems)
      ensures isAdmin == old(isAdmin) && visitCount == old(visitCount)
    {
      loading := true;
      sent := api.Request("/poems", RequestOptions(None, None, NoBody));
      if fetched.Success? {
        poems := fetched.value;
        error := None;
      } else {
        error := Some(LoadError);
        var saved := GetItem(api.storage.items, PoemsKey);
        if Truthy(saved) {
          var parsed := parse(saved.value);
          if parsed.Some? {
            poems := parsed.value;
          }
        }
      }
      loading := false;
    }

    /** `loadAndIncrementVisits`: shows the current count, then asks for
        the increment and shows the new count; a failed read skips the
        increment, and any failure leaves the last count shown. */
    method LoadAndIncrementVisits(visits: Result<int, string>, incremented: Result<int, string>)
      returns (sent: seq<HttpRequest>)
      modifies this
      ensures |sent| == if visits.Success? then 2 else 1
      ensures sent[0] == api.Request("/visits", RequestOptions(None, None, NoBody))
      ensures visits.Success? ==> sent[1] == api.Request("/visits/increment", RequestOptions(Some("POST"), None, NoBody))
      ensures visitCount == if visits.Failure? then old(visitCount)
                            else if incremented.Success? then incremented.value
                            else visits.value
      ensures poems == old(poems) && isAdmin == old(isAdmin) && loading == old(loading) && error == old(error)
    {
      sent := [api.Request("/visits", RequestOptions(None, None, NoBody))];
      if visits.Failure? {
        return;
      }
      visitCount := visits.value;
      sent := sent + [api.Request("/visits/increment", RequestOptions(Some("POST"), None, NoBody))];
      if incremented.Failure? {
        return;
      }
      visitCount := incremented.value;
    }
  }
}
