/** The state-changing route handlers as functions from one store state to the
    next, with the response each one sends. */
module Actions {
  import opened Wrappers
  import opened Http
  import opened Uploads
  import opened Records

  datatype Outcome = Outcome(db: Db, response: Response)

  /** `register`: a signed-in visitor is sent to the index; an unsubmitted form,
      or one whose username is taken, is shown again; otherwise a new user is
      appended and the browser goes to the login page. */
  function Register(d: Db, authenticated: bool, submitted: bool,
                    username: string, email: string): (o: Outcome)
    requires Valid(d)
    ensures Valid(o.db)
    ensures o.db.follows == d.follows && o.db.posts == d.posts
  {
    if authenticated then Outcome(d, RedirectIndex)
    else if !submitted || Lookup(d.users, username).Some? then Outcome(d, Render("register.html"))
    else Outcome(d.(users := d.users + [Profile(username, email, "")]), RedirectLogin)
  }

  /** `edit_profile`: a valid submission renames the acting user and replaces
      its "about me"; a name already used by another user fails validation. */
  function EditProfile(d: Db, actor: UserId, submitted: bool,
                       username: string, aboutMe: string): (o: Outcome)
    requires Valid(d) && actor < |d.users|
    ensures Valid(o.db)
    ensures |o.db.users| == |d.users| && o.db.follows == d.follows && o.db.posts == d.posts
  {
    var taken := username != d.users[actor].username && Lookup(d.users, username).Some?;
    if !submitted || taken then Outcome(d, Render("edit_profile.html"))
    else
      var me := d.users[actor].(username := username, aboutMe := aboutMe);
      Outcome(d.(users := d.users[actor := me]), RedirectUser(username))
  }

  /** `user(username)`: an unknown profile is a 404. Only a POST to one's own
      profile with a valid form creates a post, whose attachment follows
      `ChooseAttachment`; a POST without a `file` part is a bad request. */
  function SubmitPost(d: Db, actor: UserId, profile: string, isPostRequest: bool,
                      upload: Option<string>, formValid: bool,
                      title: string, description: string, secure: string -> string): (o: Outcome)
    requires Valid(d) && actor < |d.users|
    ensures Valid(o.db)
    ensures o.db.users == d.users && o.db.follows == d.follows
  {
    match Lookup(d.users, profile)
    case None => Outcome(d, NotFound)
    case Some(owner) =>
      if owner != actor || !isPostRequest then Outcome(d, Render("user.html"))
      else if upload.None? then Outcome(d, BadRequest)
      else if !formValid then Outcome(d, Render("user.html"))
      else
        var a := ChooseAttachment(upload.value, secure);
        var post := Post(title, description, a.filename, actor, a.isPost, false);
        Outcome(d.(posts := d.posts[d.nextPostId := post], nextPostId := d.nextPostId + 1),
                RedirectUser(d.users[actor].username))
  }

  /** `follow(username)`: unknown target to the index, self-target back to
      the target's page, otherwise the pair is added. */
  function Follow(d: Db, actor: UserId, username: string): (o: Outcome)
    requires Valid(d) && actor < |d.users|
    ensures Valid(o.db)
    ensures o.db.users == d.users && o.db.posts == d.posts && o.db.nextPostId == d.nextPostId
  {
    match Lookup(d.users, username)
    case None => Outcome(d, RedirectIndex)
    case Some(target) =>
      if target == actor then Outcome(d, RedirectUser(username))
      else Outcome(d.(follows := d.follows + {(actor, target)}), RedirectUser(username))
  }

  /** `unfollow(username)`: the same guards as `Follow`, then the pair is removed. */
  function Unfollow(d: Db, actor: UserId, username: string): (o: Outcome)
    requires Valid(d) && actor < |d.users|
    ensures Valid(o.db)
    ensures o.db.users == d.users && o.db.posts == d.posts && o.db.nextPostId == d.nextPostId
  {
    match Lookup(d.users, username)
    case None => Outcome(d, RedirectIndex)
    case Some(target) =>
      if target == actor then Outcome(d, RedirectUser(username))
      else Outcome(d.(follows := d.follows - {(actor, target)}), RedirectUser(username))
  }

  /** `take_item(id)`: marks the post taken and goes to its AUTHOR's page; an
      unknown id makes the handler fail before anything is committed. */
  function TakeItem(d: Db, id: PostId): (o: Outcome)
    requires Valid(d)
    ensures Valid(o.db)
    ensures o.db.users == d.users && o.db.follows == d.follows && o.db.nextPostId == d.nextPostId
  {
    if id !in d.posts then Outcome(d, ServerError)
    else
      var post := d.posts[id];
      Outcome(d.(posts := d.posts[id := post.(isTaken := true)]),
              RedirectUser(d.users[post.author].username))
  }

  /** `delete_post(id)`: removes the post whoever its author is and goes to the
      acting user's page; an unknown id makes the handler fail. */
  function DeletePost(d: Db, actor: UserId, id: PostId): (o: Outcome)
    requires Valid(d) && actor < |d.users|
    ensures Valid(o.db)
    ensures o.db.users == d.users && o.db.follows == d.follows && o.db.nextPostId == d.nextPostId
  {
    if id !in d.posts then Outcome(d, ServerError)
    else Outcome(d.(posts := d.posts - {id}), RedirectUser(d.users[actor].username))
  }

  // ---------------------------------------------------------------------------
  // Properties of single handlers

  /** The follow guards: an unknown target or oneself changes nothing. */
  lemma FollowGuards(d: Db, actor: UserId, username: string)
    requires Valid(d) && actor < |d.users|
    ensures Lookup(d.users, username).None? ==>
              Follow(d, actor, username) == Outcome(d, RedirectIndex) &&
              Unfollow(d, actor, username) == Outcome(d, RedirectIndex)
    ensures username == d.users[actor].username ==>
              Follow(d, actor, username) == Outcome(d, RedirectUser(username)) &&
              Unfollow(d, actor, username) == Outcome(d, RedirectUser(username))
  {
  }

  /** Past the guards, follow adds exactly one pair and unfollow removes it;
      both then go to the target's page. */
  lemma FollowChangesOnePair(d: Db, actor: UserId, target: UserId)
    requires Valid(d) && actor < |d.users| && target < |d.users| && target != actor
    ensures var name := d.users[target].username;
            Follow(d, actor, name).db.follows == d.follows + {(actor, target)} &&
            Unfollow(d, actor, name).db.follows == d.follows - {(actor, target)} &&
            Follow(d, actor, name).response == RedirectUser(name) &&
            Unfollow(d, actor, name).response == RedirectUser(name)
  {
  }

  /** Following twice is following once; unfollowing right after following a
      user one did not already follow restores the store. */
  lemma FollowIdempotentAndUndone(d: Db, actor: UserId, username: string)
    requires Valid(d) && actor < |d.users|
    ensures Follow(Follow(d, actor, username).db, actor, username) == Follow(d, actor, username)
    ensures Lookup(d.users, username).Some? && (actor, Lookup(d.users, username).value) !in d.follows ==>
              Unfollow(Follow(d, actor, username).db, actor, username).db == d
  {
  }

  /** Taking sets the flag of that post and touches nothing else; taking again
      changes nothing; a missing id is an error with the store unchanged. */
  lemma TakeItemSetsFlagOnly(d: Db, id: PostId)
    requires Valid(d)
    ensures id !in d.posts ==> TakeItem(d, id) == Outcome(d, ServerError)
    ensures id in d.posts ==>
              var p := TakeItem(d, id).db.posts;
              p.Keys == d.posts.Keys && p[id].isTaken &&
              p[id].(isTaken := d.posts[id].isTaken) == d.posts[id] &&
              (forall j | j in p && j != id :: p[j] == d.posts[j])
    ensures TakeItem(TakeItem(d, id).db, id) == TakeItem(d, id)
  {
  }

  /** Deleting removes exactly the named post, whoever wrote it, and goes to the
      acting user's page. */
  lemma DeleteRemovesOne(d: Db, actor: UserId, id: PostId)
    requires Valid(d) && actor < |d.users|
    ensures id in d.posts ==>
              DeletePost(d, actor, id).db.posts.Keys == d.posts.Keys - {id} &&
              (forall j | j in d.posts && j != id :: DeletePost(d, actor, id).db.posts[j] == d.posts[j]) &&
              DeletePost(d, actor, id).response == RedirectUser(d.users[actor].username)
    ensures id !in d.posts ==> DeletePost(d, actor, id) == Outcome(d, ServerError)
  {
  }

  /** Taking goes to the page of the post's AUTHOR, not of the user who took
      it; the author is found again by name. */
  lemma TakeRedirect(d: Db, id: PostId)
    requires Valid(d) && id in d.posts
    ensures var r := TakeItem(d, id).response;
            r.RedirectUser? && Lookup(d.users, r.username) == Some(d.posts[id].author)
  {
    LookupFindsOwner(d, d.posts[id].author);
  }

  /** Registration appends exactly the new user, with an empty "about me", and
      goes to the login page when a visitor who is not signed in submits an
      unused name; in every other case the store is unchanged, and the form is
      shown again unless the visitor was already signed in. */
  lemma RegisterEffect(d: Db, authenticated: bool, submitted: bool, username: string, email: string)
    requires Valid(d)
    ensures var o := Register(d, authenticated, submitted, username, email);
            var accepted := !authenticated && submitted && Lookup(d.users, username).None?;
            (accepted ==> o.db.users == d.users + [Profile(username, email, "")] &&
                          o.response == RedirectLogin &&
                          Lookup(o.db.users, username) == Some(|d.users|)) &&
            (!accepted ==> o.db == d) &&
            (authenticated ==> o.response == RedirectIndex) &&
            (!authenticated && !accepted ==> o.response == Render("register.html"))
  {
    var o := Register(d, authenticated, submitted, username, email);
    if !authenticated && submitted && Lookup(d.users, username).None? {
      LookupFindsOwner(o.db, |d.users|);
    }
  }

  /** A submitted profile edit whose name is the actor's own or unused sets the
      actor's name and "about me", keeps its email and every other user, and goes
      to the page under the new name; otherwise the store is unchanged. */
  lemma EditProfileEffect(d: Db, actor: UserId, submitted: bool, username: string, aboutMe: string)
    requires Valid(d) && actor < |d.users|
    ensures var o := EditProfile(d, actor, submitted, username, aboutMe);
            var accepted := submitted &&
                            (username == d.users[actor].username || Lookup(d.users, username).None?);
            (accepted ==> o.db.users[actor] == Profile(username, d.users[actor].email, aboutMe) &&
                          (forall i | 0 <= i < |d.users| && i != actor :: o.db.users[i] == d.users[i]) &&
                          o.response == RedirectUser(username) &&
                          Lookup(o.db.users, username) == Some(actor)) &&
            (!accepted ==> o == Outcome(d, Render("edit_profile.html")))
  {
    var o := EditProfile(d, actor, submitted, username, aboutMe);
    if submitted && (username == d.users[actor].username || Lookup(d.users, username).None?) {
      LookupFindsOwner(o.db, actor);
    }
  }

  /** On one's own profile, a POST without a `file` part is a bad request and a
      POST whose form does not validate shows the page again; neither creates a post. */
  lemma SubmitNoChange(d: Db, actor: UserId, upload: Option<string>, formValid: bool,
                       title: string, description: string, secure: string -> string)
    requires Valid(d) && actor < |d.users|
    requires upload.None? || !formValid
    ensures var o := SubmitPost(d, actor, d.users[actor].username, true, upload, formValid,
                                title, description, secure);
            o.db == d &&
            o.response == (if upload.None? then BadRequest else Render("user.html"))
  {
    LookupFindsOwner(d, actor);
  }

  /** Posting to someone else's profile, or a GET, never creates a post. */
  lemma SubmitPostOnlyOwnProfile(d: Db, actor: UserId, profile: string, isPostRequest: bool,
                                 upload: Option<string>, formValid: bool,
                                 title: string, description: string, secure: string -> string)
    requires Valid(d) && actor < |d.users|
    requires profile != d.users[actor].username || !isPostRequest
    ensures SubmitPost(d, actor, profile, isPostRequest, upload, formValid,
                       title, description, secure).db == d
  {
  }

  /** A post created from one's own profile gets a fresh id, belongs to the
      actor, is not taken, and carries the upload only when the filter accepts it. */
  lemma SubmitPostCreates(d: Db, actor: UserId, upload: string,
                          title: string, description: string, secure: string -> string)
    requires Valid(d) && actor < |d.users|
    ensures var o := SubmitPost(d, actor, d.users[actor].username, true, Some(upload), true,
                                title, description, secure);
            var id := d.nextPostId;
            id !in d.posts && o.db.posts.Keys == d.posts.Keys + {id} &&
            (forall j | j in d.posts :: o.db.posts[j] == d.posts[j]) &&
            o.db.posts[id].author == actor && !o.db.posts[id].isTaken &&
            o.db.posts[id].title == title && o.db.posts[id].description == description &&
            (o.db.posts[id].isPost <==> AllowedFile(upload)) &&
            (AllowedFile(upload) ==> o.db.posts[id].filename == secure(upload)) &&
            (!AllowedFile(upload) ==> o.db.posts[id].filename == DefaultFilename) &&
            o.response == RedirectUser(d.users[actor].username)
  {
  }
}
