/** The login route's decisions, with the password check and `url_parse(...).netloc`
    taken as inputs. */
module Login {
  import opened Wrappers
  import opened Http

  /** The "next" query argument after a successful login: missing or empty, or
      carrying a network location (such as `//evil.example/x`), it is replaced
      by the index route; otherwise it is followed unchanged. Only the parsed
      netloc is consulted, so a target without one is followed whatever else
      it holds. */
  function NextPage(next: Option<string>, netloc: string -> string): (r: Response)
    ensures r == RedirectIndex || (next.Some? && r == RedirectTo(next.value))
    ensures r.RedirectTo? <==> next.Some? && next.value != "" && netloc(next.value) == ""
  {
    if next.None? || next.value == "" || netloc(next.value) != "" then RedirectIndex
    else RedirectTo(next.value)
  }

  /** The whole login handler: an already signed-in visitor goes to the index,
      an unsubmitted or invalid form is shown again, unknown names and wrong
      passwords go back to the login page, and a success follows `NextPage`. */
  function LoginResponse(authenticated: bool, submitted: bool, credentialsOk: bool,
                         next: Option<string>, netloc: string -> string): (r: Response)
    ensures authenticated ==> r == RedirectIndex
    ensures r == Render("login.html") <==> !authenticated && !submitted
    ensures r == RedirectLogin <==> !authenticated && submitted && !credentialsOk
    ensures !authenticated && submitted && credentialsOk ==> r == NextPage(next, netloc)
  {
    if authenticated then RedirectIndex
    else if !submitted then Render("login.html")
    else if !credentialsOk then RedirectLogin
    else NextPage(next, netloc)
  }

  /** The login handler never redirects to a target whose parsed netloc is
      non-empty, and a failed credential check never follows "next" at all. */
  lemma LoginNeverFollowsNetloc(authenticated: bool, submitted: bool, credentialsOk: bool,
                                next: Option<string>, netloc: string -> string)
    ensures var r := LoginResponse(authenticated, submitted, credentialsOk, next, netloc);
            (r.RedirectTo? ==> netloc(r.url) == "" && r.url != "" && next == Some(r.url)) &&
            (r.RedirectTo? ==> !authenticated && submitted && credentialsOk)
  {
  }
}
