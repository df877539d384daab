/** The database session as the route handlers use it: fields that the handlers
    update in place, each handler proved to leave the store in the state, and
    to send the response, that the matching function of `Actions` describes. */
module Store {
  import opened Wrappers
  import opened Http
  import opened Uploads
  import opened Records
  import Actions

  class Database {
    var users: seq<Profile>
    var follows: set<(UserId, UserId)>
    var posts: map<PostId, Post>
    var nextPostId: nat

    /** The current contents as a value. */
    function Snapshot(): Db
      reads this
    {
      Db(users, follows, posts, nextPostId)
    }

    ghost predicate Valid()
      reads this
    {
      Records.Valid(Snapshot())
    }

    constructor ()
      ensures Valid()
      ensures users == [] && follows == {} && posts == map[] && nextPostId == 0
    {
      users, follows, posts, nextPostId := [], {}, map[], 0;
    }

    /** `User.query.filter_by(username=name).first()`, scanning the users in order. */
    method FindUser(name: string) returns (r: Option<UserId>)
      ensures r == Lookup(users, name)
    {
      var i := 0;
      while i < |users|
        invariant 0 <= i <= |users|
        invariant forall k :: 0 <= k < i ==> users[k].username != name
      {
        if users[i].username == name {
          return Some(i);
        }
        i := i + 1;
      }
      return None;
    }

    method Register(authenticated: bool, submitted: bool, username: string, email: string)
      returns (resp: Http.Response)
      requires Valid()
      modifies this
      ensures Valid()
      ensures Actions.Outcome(Snapshot(), resp)
              == Actions.Register(old(Snapshot()), authenticated, submitted, username, email)
    {
      if authenticated {
        return RedirectIndex;
      }
      var existing := FindUser(username);
      if !submitted || existing.Some? {
        return Render("register.html");
      }
      users := users + [Profile(username, email, "")];
      resp := RedirectLogin;
    }

    method EditProfile(actor: UserId, submitted: bool, username: string, aboutMe: string)
      returns (resp: Http.Response)
      requires Valid() && actor < |users|
      modifies this
      ensures Valid()
      ensures Actions.Outcome(Snapshot(), resp)
              == Actions.EditProfile(old(Snapshot()), actor, submitted, username, aboutMe)
    {
      var existing := FindUser(username);
      if !submitted || (username != users[actor].username && existing.Some?) {
        return Render("edit_profile.html");
      }
      users := users[actor := users[actor].(username := username, aboutMe := aboutMe)];
      resp := RedirectUser(username);
    }

    method SubmitPost(actor: UserId, profile: string, isPostRequest: bool,
                      upload: Option<string>, formValid: bool,
                      title: string, description: string, secure: string -> string)
      returns (resp: Http.Response)
      requires Valid() && actor < |users|
      modifies this
      ensures Valid()
      ensures Actions.Outcome(Snapshot(), resp)
              == Actions.SubmitPost(old(Snapshot()), actor, profile, isPostRequest, upload,
                                    formValid, title, description, secure)
    {
      var owner := FindUser(profile);
      if owner.None? {
        return NotFound;
      }
      if owner.value != actor || !isPostRequest {
        return Render("user.html");
      }
      if upload.None? {
        return BadRequest;
      }
      if !formValid {
        return Render("user.html");
      }
      var isPost: bool;
      var filename: string;
      if upload.value != "" && AllowedFile(upload.value) {
        isPost, filename := true, secure(upload.value);
      } else {
        isPost, filename := false, DefaultFilename;
      }
      posts := posts[nextPostId := Post(title, description, filename, actor, isPost, false)];
      nextPostId := nextPostId + 1;
      resp := RedirectUser(users[actor].username);
    }

    method Follow(actor: UserId, username: string) returns (resp: Http.Response)
      requires Valid() && actor < |users|
      modifies this
      ensures Valid()
      ensures Actions.Outcome(Snapshot(), resp) == Actions.Follow(old(Snapshot()), actor, username)
    {
      var target := FindUser(username);
      if target.None? {
        return RedirectIndex;
      }
      if target.value == actor {
        return RedirectUser(username);
      }
      follows := follows + {(actor, target.value)};
      resp := RedirectUser(username);
    }

    method Unfollow(actor: UserId, username: string) returns (resp: Http.Response)
      requires Valid() && actor < |users|
      modifies this
      ensures Valid()
      ensures Actions.Outcome(Snapshot(), resp) == Actions.Unfollow(old(Snapshot()), actor, username)
    {
      var target := FindUser(username);
      if target.None? {
        return RedirectIndex;
      }
      if target.value == actor {
        return RedirectUser(username);
      }
      follows := follows - {(actor, target.value)};
      resp := RedirectUser(username);
    }

    method TakeItem(id: PostId) returns (resp: Http.Response)
      requires Valid()
      modifies this
      ensures Valid()
      ensures Actions.Outcome(Snapshot(), resp) == Actions.TakeItem(old(Snapshot()), id)
    {
      if id !in posts {
        return ServerError;
      }
      var post := posts[id];
      posts := posts[id := post.(isTaken := true)];
      resp := RedirectUser(users[post.author].username);
    }

    method DeletePost(actor: UserId, id: PostId) returns (resp: Http.Response)
      requires Valid() && actor < |users|
      modifies this
      ensures Valid()
      ensures Actions.Outcome(Snapshot(), resp) == Actions.DeletePost(old(Snapshot()), actor, id)
    {
      if id !in posts {
        return ServerError;
      }
      posts := posts - {id};
      resp := RedirectUser(users[actor].username);
    }
  }
}
