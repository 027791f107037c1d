/** The administration page: the redirect for visitors who are not
    administrators, and the add-poem form with its trim guard. */
module AdminPanel {
  import opened Wrappers
  import Text
  import opened ApiService
  import App

  const LoginPath := "/admin/login"

  datatype View = RedirectTo(path: string) | Panel

  /** A visitor who is not an administrator is sent to the login page and
      sees nothing of the panel. */
  function Render(isAdmin: bool): View {
    if !isAdmin then RedirectTo(LoginPath) else Panel
  }

  /** `title.trim() && content.trim()`. */
  predicate CanSubmit(title: string, content: string) {
    Text.Trim(title) != "" && Text.Trim(content) != ""
  }

  /** The guard passes exactly when both fields have a character that is
      not whitespace. */
  lemma CanSubmitIff(title: string, content: string)
    ensures CanSubmit(title, content) <==>
              (exists i :: 0 <= i < |title| && !Text.IsJsWhitespace(title[i]))
              && (exists i :: 0 <= i < |content| && !Text.IsJsWhitespace(content[i]))
  {
    Text.TrimEmptyIffBlank(title);
    Text.TrimEmptyIffBlank(content);
  }

  class Form {
    var title: string
    var content: string
    var showAddForm: bool
    const app: App.App

    constructor (app: App.App)
      ensures title == "" && content == "" && !showAddForm && this.app == app
    {
      title, content, showAddForm := "", "", false;
      this.app := app;
    }

    /** `handleAddPoem`: `addPoem` runs only past the guard and receives the
        trimmed fields (no date); a success clears and hides the form, a
        failure keeps all three. */
    method HandleAddPoem(reply: Result<Poem, string>) returns (sent: Option<HttpRequest>)
      modifies this, app
      ensures sent.Some? <==> CanSubmit(old(title), old(content))
      ensures sent.Some? ==>
                sent.value == old(app.api.Request("/poems", RequestOptions(Some("POST"), None,
                                                  PoemFields(Text.Trim(title), Text.Trim(content), None))))
                && app.poems == (if reply.Success? then [reply.value] + old(app.poems) else old(app.poems))
      ensures sent.None? ==> app.poems == old(app.poems)
      ensures app.isAdmin == old(app.isAdmin) && app.loading == old(app.loading) && app.error == old(app.error)
              && app.visitCount == old(app.visitCount)
      ensures sent.Some? && reply.Success? ==> title == "" && content == "" && !showAddForm
      ensures !(sent.Some? && reply.Success?) ==>
                title == old(title) && content == old(content) && showAddForm == old(showAddForm)
    {
      if !CanSubmit(title, content) {
        return None;
      }
      var request, ok := app.AddPoem(Text.Trim(title), Text.Trim(content), None, reply);
      sent := Some(request);
      if ok {
        title, content, showAddForm := "", "", false;
      }
    }

    /** Once the administrator has logged out, opening the panel
        redirects to the login page. */
    method LogoutThenOpen() returns (v: View)
      modifies app, app.api, app.api.storage
      ensures !app.isAdmin && v == RedirectTo(LoginPath)
    {
      app.LogoutAdmin();
      v := Render(app.isAdmin);
    }

    /** After a login the server accepted, opening the panel shows it; a
        refused login leaves the view as it was. */
    method LoginThenOpen(username: string, password: string, reply: Reply) returns (v: View)
      modifies app, app.api, app.api.storage
      ensures reply.ok ==> v == Panel
      ensures !reply.ok ==> v == Render(old(app.isAdmin))
    {
      var sent, ok := app.LoginAdmin(username, password, reply);
      v := Render(app.isAdmin);
    }

    /** The toggle button flips the form's visibility. */
    method ToggleAddForm()
      modifies this
      ensures showAddForm == !old(showAddForm)
      ensures title == old(title) && content == old(content)
    {
      showAddForm := !showAddForm;
    }

    /** `handleDeletePoem`: `deletePoem` runs only once the visitor has
        confirmed. */
    method HandleDeletePoem(id: string, confirmed: bool, reply: Result<string, string>) returns (sent: Option<HttpRequest>)
      modifies app
      ensures sent.Some? <==> confirmed
      ensures confirmed ==>
                sent.value == old(app.api.Request("/poems/" + id, RequestOptions(Some("DELETE"), None, NoBody)))
                && app.poems == (if reply.Success? then App.RemoveById(old(app.poems), id) else old(app.poems))
      ensures !confirmed ==> app.poems == old(app.poems)
      ensures app.isAdmin == old(app.isAdmin) && app.loading == old(app.loading) && app.error == old(app.error)
              && app.visitCount == old(app.visitCount)
    {
      if !confirmed {
        return None;
      }
      var request, ok := app.DeletePoem(id, reply);
      sent := Some(request);
    }
  }
}
