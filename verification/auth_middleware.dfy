/** The route guard run before the chat, login and signup pages: a visitor
    without a session is sent from the chat to the login page, a signed-in
    user is sent from the login and signup pages to the chat, and every
    other request goes through. The session lookup is a parameter. */
module AuthMiddleware {
  import opened Text

  /** What the middleware answers: pass the request on, or redirect. */
  datatype Response = Next | Redirect(path: string)

  /** The decision of `middleware` for a request to `path`. */
  function Route(hasSession: bool, path: string): (r: Response)
    ensures r == Redirect("/login") <==> !hasSession && StartsWith(path, "/chat")
    ensures r == Redirect("/chat") <==> hasSession && (path == "/login" || path == "/signup")
    ensures r.Next? <==>
      !(!hasSession && StartsWith(path, "/chat")) && !(hasSession && (path == "/login" || path == "/signup"))
  {
    if !hasSession && StartsWith(path, "/chat") then Redirect("/login")
    else if hasSession && (path == "/login" || path == "/signup") then Redirect("/chat")
    else Next
  }

  /** A signed-in user is never sent to the login page, and a signed-out
      visitor is never sent to the chat. */
  lemma NoWrongRedirect(hasSession: bool, path: string)
    ensures hasSession ==> Route(hasSession, path) != Redirect("/login")
    ensures !hasSession ==> Route(hasSession, path) != Redirect("/chat")
  {
  }

  /** Following a redirect never redirects again: the guard sends each
      visitor to a page it lets them see. */
  lemma RedirectSettles(hasSession: bool, path: string)
    ensures Route(hasSession, path).Redirect? ==> Route(hasSession, Route(hasSession, path).path) == Next
  {
    if Route(hasSession, path) == Redirect("/chat") {
      assert StartsWith("/chat", "/chat");
    } else if Route(hasSession, path) == Redirect("/login") {
      assert !StartsWith("/login", "/chat") by {
        assert "/login"[1] != "/chat"[1];
      }
    }
  }
}
