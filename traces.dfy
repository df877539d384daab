/** Any sequence of requests against the store, and what stays true along it. */
module Traces {
  import opened Wrappers
  import opened Http
  import opened Records
  import opened Actions

  /** One request to a state-changing route, with the acting user where the
      route is login-protected. */
  datatype Request =
    | SignUp(authenticated: bool, submitted: bool, username: string, email: string)
    | ProfileEdit(actor: UserId, submitted: bool, username: string, aboutMe: string)
    | PostSubmit(actor: UserId, profile: string, isPostRequest: bool, upload: Option<string>,
                 formValid: bool, title: string, description: string, secure: string -> string)
    | FollowUser(actor: UserId, username: string)
    | UnfollowUser(actor: UserId, username: string)
    | Take(actor: UserId, id: PostId)
    | Delete(actor: UserId, id: PostId)

  /** `@login_required`: every route but registration needs an acting user,
      and that user must be a registered one. */
  predicate SignedIn(d: Db, r: Request): (ok: bool)
    ensures r.SignUp? ==> ok
    ensures !r.SignUp? ==> (ok <==> r.actor < |d.users|)
  {
    match r
    case SignUp(_, _, _, _) => true
    case ProfileEdit(actor, _, _, _) => actor < |d.users|
    case PostSubmit(actor, _, _, _, _, _, _, _) => actor < |d.users|
    case FollowUser(actor, _) => actor < |d.users|
    case UnfollowUser(actor, _) => actor < |d.users|
    case Take(actor, _) => actor < |d.users|
    case Delete(actor, _) => actor < |d.users|
  }

  /** One request; a request without a signed-in actor is turned away to the
      login page before its handler runs. */
  function Step(d: Db, r: Request): (o: Outcome)
    requires Valid(d)
    ensures Valid(o.db)
    ensures |o.db.users| >= |d.users| && o.db.nextPostId >= d.nextPostId
    ensures !SignedIn(d, r) ==> o == Outcome(d, RedirectLogin)
  {
    if !SignedIn(d, r) then Outcome(d, RedirectLogin)
    else match r
      case SignUp(authenticated, submitted, username, email) =>
        Register(d, authenticated, submitted, username, email)
      case ProfileEdit(actor, submitted, username, aboutMe) =>
        EditProfile(d, actor, submitted, username, aboutMe)
      case PostSubmit(actor, profile, isPostRequest, upload, formValid, title, description, secure) =>
        SubmitPost(d, actor, profile, isPostRequest, upload, formValid, title, description, secure)
      case FollowUser(actor, username) => Follow(d, actor, username)
      case UnfollowUser(actor, username) => Unfollow(d, actor, username)
      case Take(_, id) => TakeItem(d, id)
      case Delete(actor, id) => DeletePost(d, actor, id)
  }

  /** The store after a sequence of requests; every intermediate state is valid. */
  function Run(d: Db, rs: seq<Request>): (e: Db)
    requires Valid(d)
    ensures Valid(e)
    ensures e.nextPostId >= d.nextPostId
    decreases |rs|
  {
    if rs == [] then d else Run(Step(d, rs[0]).db, rs[1..])
  }

  /** Along any run nobody follows themselves and every follow pair names two users. */
  lemma RunNeverSelfFollows(d: Db, rs: seq<Request>, a: UserId, b: UserId)
    requires Valid(d)
    requires (a, b) in Run(d, rs).follows
    ensures a != b && a < |Run(d, rs).users| && b < |Run(d, rs).users|
  {
  }

  /** One request never clears a `is_taken` flag, and a post that appears is
      new: fresh id, written by the acting user, not taken. */
  lemma StepKeepsTaken(d: Db, r: Request, id: PostId)
    requires Valid(d)
    ensures var e := Step(d, r).db;
            (id in d.posts && d.posts[id].isTaken && id in e.posts ==> e.posts[id].isTaken) &&
            (id !in d.posts && id in e.posts ==>
               r.PostSubmit? && id == d.nextPostId && e.posts[id].author == r.actor &&
               !e.posts[id].isTaken)
  {
  }

  /** In this model, post ids are never handed out twice: once gone, a handed-out id stays gone. */
  lemma {:induction false} RunNeverReusesIds(d: Db, rs: seq<Request>, id: PostId)
    requires Valid(d) && id !in d.posts && id < d.nextPostId
    ensures id !in Run(d, rs).posts
    decreases |rs|
  {
    if rs != [] {
      var e := Step(d, rs[0]).db;
      StepKeepsTaken(d, rs[0], id);
      RunNeverReusesIds(e, rs[1..], id);
    }
  }

  /** No sequence of requests resets a taken post to untaken. */
  lemma {:induction false} RunKeepsTaken(d: Db, rs: seq<Request>, id: PostId)
    requires Valid(d) && id in d.posts && d.posts[id].isTaken
    requires id in Run(d, rs).posts
    ensures Run(d, rs).posts[id].isTaken
    decreases |rs|
  {
    if rs != [] {
      var e := Step(d, rs[0]).db;
      StepKeepsTaken(d, rs[0], id);
      if id in e.posts {
        RunKeepsTaken(e, rs[1..], id);
      } else {
        RunNeverReusesIds(e, rs[1..], id);
      }
    }
  }

  /** Authors are fixed: a post keeps its author along any run. */
  lemma {:induction false} RunKeepsAuthor(d: Db, rs: seq<Request>, id: PostId)
    requires Valid(d) && id in d.posts
    requires id in Run(d, rs).posts
    ensures Run(d, rs).posts[id].author == d.posts[id].author
    decreases |rs|
  {
    if rs != [] {
      var e := Step(d, rs[0]).db;
      StepKeepsTaken(d, rs[0], id);
      if id in e.posts {
        assert e.posts[id].author == d.posts[id].author;
        RunKeepsAuthor(e, rs[1..], id);
      } else {
        RunNeverReusesIds(e, rs[1..], id);
      }
    }
  }
}
