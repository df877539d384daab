/** The persistent state the route handlers read and write: users, the follow
    relation and posts keyed by id. */
module Records {
  import opened Wrappers

  /** A user is known by its position in `users`; users are never deleted here. */
  type UserId = nat
  type PostId = nat

  /** A user row. `about_me` is unset (NULL) until the profile is first edited;
      the model writes that unset value as the empty string. */
  datatype Profile = Profile(username: string, email: string, aboutMe: string)

  /** A post row; its author is fixed when it is created. */
  datatype Post = Post(title: string, description: string, filename: string,
                       author: UserId, isPost: bool, isTaken: bool)

  /** The whole store: `follows` holds (follower, followed) pairs, and,
      in this model, `nextPostId` is the next id the database will hand out. */
  datatype Db = Db(users: seq<Profile>, follows: set<(UserId, UserId)>,
                   posts: map<PostId, Post>, nextPostId: nat)

  /** Usernames are unique, follow pairs name two different known users, and
      every post has a known author and an id already handed out. */
  ghost predicate Valid(d: Db)
  {
    && (forall i, j :: 0 <= i < j < |d.users| ==> d.users[i].username != d.users[j].username)
    && (forall p | p in d.follows :: p.0 < |d.users| && p.1 < |d.users| && p.0 != p.1)
    && (forall id | id in d.posts :: id < d.nextPostId && d.posts[id].author < |d.users|)
  }

  /** `User.query.filter_by(username=name).first()`: the first user with that name. */
  function Lookup(users: seq<Profile>, name: string): (r: Option<UserId>)
    ensures r.Some? ==> r.value < |users| && users[r.value].username == name
    ensures r.Some? ==> forall i :: 0 <= i < r.value ==> users[i].username != name
    ensures r.None? <==> forall i :: 0 <= i < |users| ==> users[i].username != name
  {
    if |users| == 0 then None
    else if users[0].username == name then Some(0)
    else match Lookup(users[1..], name)
      case None => None
      case Some(i) => Some(i + 1)
  }

  /** With unique usernames, the lookup finds exactly the user of that name. */
  lemma LookupFindsOwner(d: Db, u: UserId)
    requires Valid(d) && u < |d.users|
    ensures Lookup(d.users, d.users[u].username) == Some(u)
  {
  }
}
