# WishList microblog: route decision logic in Dafny

This project models the decision logic of the routes module of a small Flask
"wish list" microblog. Users register, follow one another, and create posts with an
optional image. A post can be "taken" (claimed) by someone, and it can be deleted.
The database, the form layer, the session and the templates are not modelled. Each
one appears as an input or as a response value.

- `uploads.dfy` (module `Uploads`) models the upload filter `allowed_file` over the
  allow-list `ALLOWED_EXTENSIONS`. It uses an explicit model of Python's
  `rsplit('.', 1)`. It also models the choice between keeping the sanitised upload
  (`is_post = True`) and the sentinel `default.png` (`is_post = False`).
  `secure_filename` is a function parameter.
- `login.dfy` (module `Login`) models the login handler's redirect. A `next` target
  that is missing, empty, or has a network location is replaced by the index.
  `url_parse(next).netloc` is a function parameter, and the password check is a
  boolean.
- `records.dfy` (module `Records`) holds the store: users (a sequence indexed by user
  id), the follow relation (a set of (follower, followed) pairs) and posts (a map from
  id to post). It also holds the store invariant `Valid` and
  `filter_by(username=...).first()` as `Lookup`.
- `actions.dfy` (module `Actions`) turns each state-changing handler into a function
  from a store to the next store plus a response: `register`, `edit_profile`, the
  POST side of `user`, `follow`, `unfollow`, `take_item` and `delete_post`.
- `traces.dfy` (module `Traces`) models any sequence of these requests. `@login_required`
  turns away requests whose actor is not a user. It proves the properties that hold
  along every run.
- `store.dfy` (module `Store`) is the imperative side. Class `Database` has the store
  as fields that each handler method updates in place. Each method is proved to
  produce exactly the state and the response of the matching `Actions` function.
  `FindUser` is the user query as a loop.

Some behaviours of the handlers are easy to miss:

- A `take` or `delete` of an unknown post id makes `Post.query.get` return `None`.
  The next line then raises, so the request fails with a server error and nothing is
  committed. The model returns `ServerError` and leaves the store unchanged.
- Neither `take` nor `delete` checks who owns the post. A taker may take their own
  post.
- The follow relation's own methods live in `models.py`, which is not part of this
  model. The relation is a set of pairs, so following twice is the same as following
  once, and unfollowing a user one does not follow changes nothing.
- A POST to one's own profile with no `file` part fails at `request.files['file']`
  with a 400 error, and this happens before the form is validated.

## Model

| member | source | states |
|---|---|---|
| `Uploads.RSplitOnce` | routes.py:75 | `rsplit(sep, 1)` gives one part exactly when `sep` does not occur. Otherwise it gives two parts that rebuild the input around a separator, with no separator in the second part. |
| `Uploads.RSplitOnceLast` | routes.py:75 | For any prefix, splitting `prefix + sep + suffix` where `suffix` has no separator gives exactly `[prefix, suffix]`. The split is on the last separator. |
| `Uploads.AllowedFile` | routes.py:73-75 | `allowed_file`: an accepted name has a dot whose following text contains no further dot and is one of the listed extensions. |
| `Uploads.NoDotRejected` | routes.py:74 | A filename without a `.` is never accepted. |
| `Uploads.AllowedFileByExtension` | routes.py:70-75 | `stem + "." + ext` (with no dot in `ext`) is accepted exactly when `ext` is one of the five listed extensions. Any stem works, including one that contains dots. |
| `Uploads.SeveralDotsExamples` | routes.py:75 | For every stem, `stem.tar.png` is accepted and `stem.png.exe` is rejected. Only the last extension counts. |
| `Uploads.LetterCaseExamples` | routes.py:70-75 | For every stem, `stem.JPG` is accepted because `JPG` is a separate literal, while `stem.PNG` and `stem.Jpg` are rejected. The match is case-sensitive. |
| `Uploads.ImageNamesAccepted` | routes.py:70-75 | For every stem, `stem.png`, `stem.jpg`, `stem.jpeg` and `stem.gif` are accepted. |
| `Uploads.UnlistedNamesRejected` | routes.py:74-75 | For every stem, a trailing dot (`stem.`, with an empty extension) and `stem.exe` are rejected. |
| `Uploads.ChooseAttachment` | routes.py:102-111 | `is_post` holds exactly when `allowed_file` accepts the name, so the file's truthiness test adds nothing. An accepted upload keeps its sanitised name. Anything else, including a missing file, gets `default.png`. |
| `Uploads.AttachmentByExtension` | routes.py:102-111 | An upload whose last extension is listed is kept under its sanitised name with `is_post` true. Any other upload gets `default.png` with `is_post` false. |
| `Login.NextPage` | routes.py:39-42 | The redirect is the index or the given `next` unchanged. It is `next` exactly when `next` is present, non-empty and has an empty netloc. |
| `Login.LoginResponse` | routes.py:29-43 | A visitor who is already signed in goes to the index. An unsubmitted form is rendered again, and only then. Bad credentials go back to the login page, and only then. A successful login follows `NextPage`. |
| `Login.LoginNeverFollowsNetloc` | routes.py:30-42 | No login outcome redirects to a target with a non-empty netloc. Only the netloc is checked, so a target such as `https:evil.example`, whose netloc is empty, is followed. `next` is followed only after a submitted form with good credentials, by a visitor who was not already signed in. |
| `Records.Lookup` | routes.py:160 | The result is the first user with the given name, and it is none exactly when no user has that name. |
| `Records.LookupFindsOwner` | routes.py:160-164 | With unique usernames, looking up a user's own name finds that same user. This is why the `user == current_user` test recognises a self-target. |
| `Actions.Register` | routes.py:52-64 | Registration keeps the store invariant (unique usernames) and leaves follows and posts alone. Its effect is stated by `RegisterEffect`. |
| `Actions.EditProfile` | routes.py:141-154 | A profile edit keeps usernames unique, adds no user, and leaves follows and posts alone. Its effect is stated by `EditProfileEffect`. |
| `Actions.SubmitPost` | routes.py:93-118 | The profile handler keeps the invariant: a new post has a known author and a fresh id. It never changes users or follows. A post is created only when all four conditions hold: own profile, POST, a file part and a valid form. `SubmitPostOnlyOwnProfile` and `SubmitNoChange` cover the four failures, and `SubmitPostCreates` states the post. |
| `Actions.Follow` | routes.py:157-170 | Following keeps the invariant (no self-follow, both ends are users) and changes nothing but the follow relation. `FollowGuards` and `FollowChangesOnePair` state its guards, its effect and its redirects. |
| `Actions.Unfollow` | routes.py:173-186 | Unfollowing keeps the invariant and changes nothing but the follow relation. `FollowGuards` and `FollowChangesOnePair` state its guards, the removed pair and the redirect to the target's page. |
| `Actions.TakeItem` | routes.py:213-220 | Taking keeps the invariant and changes only posts. `TakeItemSetsFlagOnly` states its effect and `TakeRedirect` its redirect to the author's page. |
| `Actions.DeletePost` | routes.py:203-210 | Deleting keeps the invariant and changes only posts. `DeleteRemovesOne` states its effect and its redirect to the actor's page. |
| `Actions.FollowGuards` | routes.py:159-182 | An unknown target leaves the store unchanged and redirects to the index. A self-target leaves the store unchanged and redirects to the target's page. Both hold for follow and unfollow. |
| `Actions.FollowChangesOnePair` | routes.py:167-186 | Past the guards, follow adds exactly the pair (actor, target) and unfollow removes exactly that pair. Both then redirect to the target's page. |
| `Actions.FollowIdempotentAndUndone` | routes.py:157-186 | Following twice equals following once. If the actor did not already follow the target, unfollow right after follow restores the store exactly. |
| `Actions.TakeItemSetsFlagOnly` | routes.py:213-220 | Take sets `is_taken` on that post and changes no other field and no other post. Taking twice equals taking once. An unknown id is a server error with nothing changed. |
| `Actions.TakeRedirect` | routes.py:216-220 | Take redirects to the page of the post's author, the user the author's name looks up to, whoever did the taking. |
| `Actions.RegisterEffect` | routes.py:54-63 | Suppose the visitor is not signed in, the form is submitted and the name is unused. Then registration appends exactly the new user, with an unset about-me (modelled as the empty string), makes that name look up to the new user, and redirects to login. In every other case the store is unchanged. A signed-in visitor goes to the index, and an unsubmitted form or a taken name renders the form again. |
| `Actions.EditProfileEffect` | routes.py:144-154 | Suppose the edit is submitted and the name is the actor's own or unused. Then it sets the actor's name and about-me, keeps the email and every other user, makes the new name look up to the actor, and redirects to that name's page. Otherwise the store is unchanged and the form is rendered again. |
| `Actions.DeleteRemovesOne` | routes.py:203-210 | Delete removes exactly the named post and keeps all the others, whoever wrote it, then redirects to the actor's page. An unknown id is a server error with nothing changed. |
| `Actions.SubmitPostOnlyOwnProfile` | routes.py:96-99 | A request on someone else's profile, or a non-POST request, leaves the store unchanged. |
| `Actions.SubmitNoChange` | routes.py:99-101 | On one's own profile, a POST without a `file` part is a bad request, and a POST whose form is invalid renders the page again. Neither creates a post. |
| `Actions.SubmitPostCreates` | routes.py:97-118 | A valid POST to one's own profile adds exactly one post under a fresh id and keeps all the others. The new post's author is the actor, `is_taken` is false, and title and description are as given. `is_post` and the filename follow `allowed_file`. The redirect goes to the actor's page. |
| `Traces.SignedIn` | routes.py:94-214 | `@login_required` (routes.py lines 94, 142, 158, 174, 204 and 214): registration needs no actor, and every other modelled route needs its actor to be a registered user. |
| `Traces.Step` | routes.py:52-220 | Every request keeps the store invariant, and users and the id counter never shrink. A request turned away by `@login_required` changes nothing and redirects to login. |
| `Traces.Run` | routes.py:52-220 | Every sequence of requests keeps the store invariant, and the id counter never decreases. |
| `Traces.RunNeverSelfFollows` | routes.py:164-167 | After any sequence of requests, no user follows themselves, and every follow pair names two users. |
| `Traces.StepKeepsTaken` | routes.py:112-114 | No request clears `is_taken`. A post that appears has the next id, the acting user as author, and `is_taken` false. |
| `Traces.RunNeverReusesIds` | routes.py:112-116 | A post id that was handed out and is gone never comes back, under the model's id counter. |
| `Traces.RunKeepsTaken` | routes.py:216-217 | Once taken, a post stays taken through any sequence of requests for as long as it exists. |
| `Traces.RunKeepsAuthor` | routes.py:112-114 | A post keeps its author through any sequence of requests. |
| `Store.Database.FindUser` | routes.py:160 | The in-order scan of the users returns exactly `Records.Lookup`: the first user with that name, or none. |
| `Store.Database.Register` | routes.py:52-64 | The in-place registration gives the state and response of `Actions.Register`, so `RegisterEffect` describes it: the new user is appended on success, and nothing changes otherwise. |
| `Store.Database.EditProfile` | routes.py:141-154 | The in-place profile edit gives the state and response of `Actions.EditProfile`, so `EditProfileEffect` describes it: the actor's name and about-me are replaced on success, and nothing changes otherwise. |
| `Store.Database.SubmitPost` | routes.py:93-118 | The in-place post creation gives the state and response of `Actions.SubmitPost`. |
| `Store.Database.Follow` | routes.py:157-170 | The in-place follow gives the state and response of `Actions.Follow`. |
| `Store.Database.Unfollow` | routes.py:173-186 | The in-place unfollow gives the state and response of `Actions.Unfollow`. |
| `Store.Database.TakeItem` | routes.py:213-220 | The in-place take gives the state and response of `Actions.TakeItem`. |
| `Store.Database.DeletePost` | routes.py:203-210 | The in-place delete gives the state and response of `Actions.DeletePost`. |

## Left out

- Feeds: `index`, `explore` and the listing part of `user` (routes.py:16-25, 119-131, 189-200). They paginate with the ORM's `paginate` and the `followed_posts`/`own_posts` queries of `models.py`, and `models.py` is not part of this model. This includes `POSTS_PER_PAGE = 10` from config.py.
- File serving (`uploaded_file`, `uploaded_file_default`) and the upload's `os.mkdir`/`file.save` are filesystem I/O. For an accepted upload the model assumes both succeed. If either raises (routes.py:106-108), the request ends in a 500 before `db.session.add` (routes.py:115) and no post is created. This is likely wherever the hard-coded Windows `UPLOAD_FOLDER` (config.py:12) does not exist. `Actions.SubmitPostCreates` describes only the successful write.
- `secure_filename` and `url_parse(...).netloc` are werkzeug functions. They are function parameters with no behaviour specified.
- Password hashing, `login_user`/`logout_user`, the `logout` route, "remember me", flash messages and template rendering are library calls. A rendered page is only `Render(template)`.
- Form validation is a boolean input. The username-is-taken check that the registration and profile forms perform (`forms.py` is not part of this model) is modelled as a failed validation. Email uniqueness is not modelled.
- The `before_request` update of `last_seen` and post timestamps are wall-clock writes.
- Actions.TakeItem: the acting user plays no part, because `take_item` performs no ownership check (routes.py:213-220).
- Records.Db: post ids come from a counter that never reuses an id. SQLite is the configured default (config.py:8-9). A new row gets one more than the largest id still in the table, so deleting the newest post lets the next post take its id. `Traces.RunNeverReusesIds`, `Traces.RunKeepsTaken` and `Traces.RunKeepsAuthor` are therefore statements about the model's counter, and may not hold on the default database.
- Records.PostId: the routes take `<id>` as a string (routes.py:203, 213), but the model's ids are naturals. A non-numeric or negative id makes `Post.query.get` return `None`, and the handler then fails. That is the same server error the model gives for an absent id.
- Concurrency between requests: the handlers run one at a time in this model.
