/** The server's route handlers as functions from the current state and the
    already-parsed request to the next state and the response. Every handler is
    a check-then-act sequence: authenticate, validate input, look up entities,
    apply one rule, then write; every error leaves the state as it was. */
module Routes {
  import opened Credentials
  import opened Tables

  // ---------- responses ----------

  datatype Status = BadRequest | Unauthorized | Forbidden | NotFound | Conflict | ServerError
  {
    function Code(): nat
    {
      match this
      case BadRequest => 400
      case Unauthorized => 401
      case Forbidden => 403
      case NotFound => 404
      case Conflict => 409
      case ServerError => 500
    }
  }

  /** A JSON body with status 200, or an error status with its `error` message. */
  datatype Response<T> = Ok(value: T) | Err(status: Status, message: string)
  {
    function Code(): nat
    {
      if Ok? then 200 else status.Code()
    }
  }

  /** The state after a handler ran, with the response it sent. */
  datatype Step<T> = Step(state: State, resp: Response<T>)

  const NotAuthenticated := "Not authenticated"
  const RegisterFieldsRequired := "email, name, password required"
  const EmailAlreadyUsed := "Email already used"
  const LoginFieldsRequired := "email and password required"
  const InvalidCredentials := "Invalid credentials"
  const LogoutFailed := "Logout failed"
  const PostFieldsRequired := "title and body required"
  const InvalidId := "Invalid id"
  const CommentBodyRequired := "comment body required"
  const PostNotFound := "Post not found"
  const PostIsLocked := "Post is locked"
  const OnlyAuthorCanLock := "Only author can lock"
  const UserNotFound := "User not found"

  // ---------- projections ----------

  /** The public user projection: no password field exists in it. */
  datatype UserView = UserView(id: nat, email: string, name: string, createdAt: nat)
  datatype LoginView = LoginView(id: nat, email: string, name: string)
  datatype AuthorView = AuthorView(id: nat, name: string)
  datatype PostWithAuthor = PostWithAuthor(post: Post, author: AuthorView)
  datatype CommentWithAuthor = CommentWithAuthor(comment: Comment, author: AuthorView)
  datatype PostDetail = PostDetail(post: Post, author: AuthorView, comments: seq<CommentWithAuthor>)
  datatype PostSummary = PostSummary(id: nat, title: string, createdAt: nat, locked: bool)
  datatype Profile = Profile(id: nat, name: string, createdAt: nat, posts: seq<PostSummary>)

  function PublicView(u: User): UserView
  {
    UserView(u.id, u.email, u.name, u.createdAt)
  }

  function Summary(p: Post): PostSummary
  {
    PostSummary(p.id, p.title, p.createdAt, p.locked)
  }

  /** `a` is the user with key `id` as a join selects it: that id and that user's name. */
  predicate Names(users: seq<User>, a: AuthorView, id: int)
  {
    a.id == id && exists i :: 0 <= i < |users| && users[i].id == id && a.name == users[i].name
  }

  /** The author joined to a post or comment by primary key: id and name only. */
  function AuthorOf(users: seq<User>, clock: nat, id: nat): (a: AuthorView)
    requires UsersWellformed(users, clock) && 1 <= id <= |users|
    ensures Names(users, a, id)
  {
    AuthorView(users[id - 1].id, users[id - 1].name)
  }

  function PostsWithAuthors(posts: seq<Post>, users: seq<User>, clock: nat): (r: seq<PostWithAuthor>)
    requires UsersWellformed(users, clock)
    requires forall k :: 0 <= k < |posts| ==> 1 <= posts[k].authorId <= |users|
    ensures |r| == |posts|
    ensures forall k :: 0 <= k < |r| ==> r[k].post == posts[k] && Names(users, r[k].author, posts[k].authorId)
  {
    seq(|posts|, k requires 0 <= k < |posts| =>
      PostWithAuthor(posts[k], AuthorOf(users, clock, posts[k].authorId)))
  }

  function CommentsWithAuthors(comments: seq<Comment>, users: seq<User>, clock: nat): (r: seq<CommentWithAuthor>)
    requires UsersWellformed(users, clock)
    requires forall k :: 0 <= k < |comments| ==> 1 <= comments[k].authorId <= |users|
    ensures |r| == |comments|
    ensures forall k :: 0 <= k < |r| ==> r[k].comment == comments[k] && Names(users, r[k].author, comments[k].authorId)
  {
    seq(|comments|, k requires 0 <= k < |comments| =>
      CommentWithAuthor(comments[k], AuthorOf(users, clock, comments[k].authorId)))
  }

  // ---------- session gate ----------

  /** The session holds a user id (a truthy `userId`). */
  predicate SignedIn(session: Option<nat>)
  {
    session.Some? && session.value != 0
  }

  /** `requireAuth`: the caller's user id, or 401 before any domain logic runs. */
  function RequireAuth(session: Option<nat>): (r: Response<nat>)
    ensures r.Ok? <==> SignedIn(session)
    ensures r.Ok? ==> session == Some(r.value)
    ensures r.Err? ==> r == Err(Unauthorized, NotAuthenticated)
  {
    if session.None? || session.value == 0 then Err(Unauthorized, NotAuthenticated)
    else Ok(session.value)
  }

  // ---------- auth ----------

  /** POST /auth/register; `salt` stands for the hash function's random salt. */
  function Register(st: State, email: string, name: string, password: string, salt: nat): (r: Step<UserView>)
    requires Consistent(st)
    ensures Consistent(r.state)
    ensures r.resp.Err? ==> r.state == st
    ensures r.resp == Err(BadRequest, RegisterFieldsRequired) <==> (email == "" || name == "" || password == "")
    ensures r.resp == Err(Conflict, EmailAlreadyUsed) <==>
              (email != "" && name != "" && password != "" && EmailTaken(st.store.users, email))
    ensures r.resp.Err? ==> r.resp.Code() in {400, 409}
    ensures r.resp.Ok? <==> email != "" && name != "" && password != "" && !EmailTaken(st.store.users, email)
    ensures r.resp.Ok? ==>
              && r.state.session == st.session
              && r.state.store.posts == st.store.posts
              && r.state.store.comments == st.store.comments
              && !EmailTaken(st.store.users, email)
              && r.resp.value.email == email && r.resp.value.name == name
              && r.state.store.users == st.store.users +
                   [User(r.resp.value.id, email, name, Hash(password, salt), r.resp.value.createdAt)]
  {
    var db := st.store;
    if email == "" || name == "" || password == "" then
      Step(st, Err(BadRequest, RegisterFieldsRequired))
    else if FindEmail(db.users, email).Some? then
      Step(st, Err(Conflict, EmailAlreadyUsed))
    else
      var user := User(|db.users| + 1, email, name, Hash(password, salt), db.clock);
      Step(st.(store := db.(users := db.users + [user], clock := db.clock + 1)), Ok(PublicView(user)))
  }

  /** Some user has this email and the password verifies against that user's hash. */
  predicate Credible(users: seq<User>, email: string, password: string)
  {
    exists i :: 0 <= i < |users| && users[i].email == email && Verify(password, users[i].password)
  }

  /** POST /auth/login: an unknown email and a wrong password give the same 401. */
  function Login(st: State, email: string, password: string): (r: Step<LoginView>)
    requires Consistent(st)
    ensures Consistent(r.state)
    ensures r.state.store == st.store
    ensures r.resp.Err? ==> r.state == st
    ensures r.resp == Err(BadRequest, LoginFieldsRequired) <==> (email == "" || password == "")
    ensures r.resp == Err(Unauthorized, InvalidCredentials) <==>
              (email != "" && password != "" && !Credible(st.store.users, email, password))
    ensures r.resp.Err? ==> r.resp.Code() in {400, 401}
    ensures r.resp.Ok? <==> email != "" && password != "" && Credible(st.store.users, email, password)
    ensures r.resp.Ok? ==>
              exists i :: 0 <= i < |st.store.users| && st.store.users[i].email == email
                && Verify(password, st.store.users[i].password)
                && r.state.session == Some(st.store.users[i].id)
                && r.resp.value == LoginView(st.store.users[i].id, email, st.store.users[i].name)
  {
    var users := st.store.users;
    if email == "" || password == "" then
      Step(st, Err(BadRequest, LoginFieldsRequired))
    else match FindEmail(users, email)
      case None => Step(st, Err(Unauthorized, InvalidCredentials))
      case Some(i) =>
        if !Verify(password, users[i].password) then Step(st, Err(Unauthorized, InvalidCredentials))
        else Step(st.(session := Some(users[i].id)), Ok(LoginView(users[i].id, users[i].email, users[i].name)))
  }

  /** GET /auth/me: the signed-in user's projection, or null. */
  function Me(st: State): (r: Option<UserView>)
    requires Consistent(st)
    ensures r.None? <==> !SignedIn(st.session)
    ensures r.Some? ==>
              && st.session == Some(r.value.id)
              && exists i :: 0 <= i < |st.store.users| && r.value == PublicView(st.store.users[i])
  {
    if !SignedIn(st.session) then None
    else
      FindUserByKey(st.store.users, st.store.clock, st.session.value);
      match FindUser(st.store.users, st.session.value)
      case None => None
      case Some(i) => Some(PublicView(st.store.users[i]))
  }

  /** POST /auth/logout; `destroyFails` stands for the session store reporting an error. */
  function Logout(st: State, destroyFails: bool): (r: Step<bool>)
    requires Consistent(st)
    ensures Consistent(r.state)
    ensures r.state.store == st.store
    ensures r.resp.Err? ==> r.state == st
    ensures r.resp == Err(Unauthorized, NotAuthenticated) <==> !SignedIn(st.session)
    ensures r.resp == Err(ServerError, LogoutFailed) <==> SignedIn(st.session) && destroyFails
    ensures r.resp.Ok? <==> SignedIn(st.session) && !destroyFails
    ensures r.resp.Ok? ==> r.state.session == None && r.resp.value
  {
    match RequireAuth(st.session)
    case Err(s, m) => Step(st, Err(s, m))
    case Ok(_) =>
      if destroyFails then Step(st, Err(ServerError, LogoutFailed))
      else Step(st.(session := None), Ok(true))
  }

  // ---------- posts ----------

  /** GET /posts: every post, newest first, each with its author. */
  function ListPosts(st: State): (r: Response<seq<PostWithAuthor>>)
    requires Consistent(st)
    ensures r.Err? <==> !SignedIn(st.session)
    ensures r.Err? ==> r == Err(Unauthorized, NotAuthenticated)
    ensures r.Ok? ==>
              && |r.value| == |st.store.posts|
              && (forall p :: p in st.store.posts ==> exists k :: 0 <= k < |r.value| && r.value[k].post == p)
              && (forall k :: 0 <= k < |r.value| ==> r.value[k].post in st.store.posts)
              && (forall k, l :: 0 <= k < l < |r.value| ==> r.value[k].post.createdAt > r.value[l].post.createdAt)
    ensures r.Ok? ==>
              forall k :: 0 <= k < |r.value| ==> Names(st.store.users, r.value[k].author, r.value[k].post.authorId)
  {
    match RequireAuth(st.session)
    case Err(s, m) => Err(s, m)
    case Ok(_) =>
      ListingJoined(st.store);
      Ok(PostsWithAuthors(NewestFirst(st.store.posts), st.store.users, st.store.clock))
  }

  /** The joined listing holds every post once, newest first, each with its author. */
  lemma ListingJoined(db: Store)
    requires Wellformed(db)
    ensures var r := PostsWithAuthors(NewestFirst(db.posts), db.users, db.clock);
            && |r| == |db.posts|
            && (forall p :: p in db.posts ==> exists k :: 0 <= k < |r| && r[k].post == p)
            && (forall k :: 0 <= k < |r| ==> r[k].post in db.posts)
            && (forall k, l :: 0 <= k < l < |r| ==> r[k].post.createdAt > r[l].post.createdAt)
            && (forall k :: 0 <= k < |r| ==> Names(db.users, r[k].author, r[k].post.authorId))
  {
    var ordered := NewestFirst(db.posts);
    var r := PostsWithAuthors(ordered, db.users, db.clock);
    forall p | p in db.posts ensures exists k :: 0 <= k < |r| && r[k].post == p {
      var i :| 0 <= i < |db.posts| && db.posts[i] == p;
      assert r[|db.posts| - 1 - i].post == p;
    }
  }

  /** POST /posts: the author is the session user, never a request field. */
  function CreatePost(st: State, title: string, body: string): (r: Step<Post>)
    requires Consistent(st)
    ensures Consistent(r.state)
    ensures r.resp.Err? ==> r.state == st
    ensures r.resp == Err(Unauthorized, NotAuthenticated) <==> !SignedIn(st.session)
    ensures r.resp == Err(BadRequest, PostFieldsRequired) <==> SignedIn(st.session) && (title == "" || body == "")
    ensures r.resp.Err? ==> r.resp.Code() in {400, 401}
    ensures r.resp.Ok? <==> SignedIn(st.session) && title != "" && body != ""
    ensures r.resp.Ok? ==>
              && st.session == Some(r.resp.value.authorId)
              && r.resp.value.title == title && r.resp.value.body == body && !r.resp.value.locked
              && !PostExists(st.store.posts, r.resp.value.id)
              && r.state.store.posts == st.store.posts + [r.resp.value]
              && r.state.store.users == st.store.users
              && r.state.store.comments == st.store.comments
              && r.state.session == st.session
  {
    var db := st.store;
    match RequireAuth(st.session)
    case Err(s, m) => Step(st, Err(s, m))
    case Ok(uid) =>
      if title == "" || body == "" then Step(st, Err(BadRequest, PostFieldsRequired))
      else
        // `locked` is not set at creation; the schema's default is taken to be false
        var post := Post(|db.posts| + 1, title, body, uid, false, db.clock);
        Step(st.(store := db.(posts := db.posts + [post], clock := db.clock + 1)), Ok(post))
  }

  /** GET /posts/:id: the post, its author and its comments oldest first. */
  function GetPost(st: State, id: int): (r: Response<PostDetail>)
    requires Consistent(st)
    ensures r == Err(Unauthorized, NotAuthenticated) <==> !SignedIn(st.session)
    ensures r == Err(BadRequest, InvalidId) <==> SignedIn(st.session) && id == 0
    ensures r == Err(NotFound, PostNotFound) <==>
              SignedIn(st.session) && id != 0 && !PostExists(st.store.posts, id)
    ensures r.Ok? <==> SignedIn(st.session) && id != 0 && PostExists(st.store.posts, id)
    ensures r.Ok? ==>
              && r.value.post in st.store.posts && r.value.post.id == id
              && Names(st.store.users, r.value.author, r.value.post.authorId)
              && (forall k :: 0 <= k < |r.value.comments| ==>
                    && r.value.comments[k].comment in st.store.comments
                    && r.value.comments[k].comment.postId == id
                    && Names(st.store.users, r.value.comments[k].author, r.value.comments[k].comment.authorId))
              && (forall c :: c in st.store.comments && c.postId == id ==>
                    exists k :: 0 <= k < |r.value.comments| && r.value.comments[k].comment == c)
              && (forall k, l :: 0 <= k < l < |r.value.comments| ==>
                    r.value.comments[k].comment.createdAt < r.value.comments[l].comment.createdAt)
  {
    var db := st.store;
    match RequireAuth(st.session)
    case Err(s, m) => Err(s, m)
    case Ok(_) =>
      if id == 0 then Err(BadRequest, InvalidId)
      else match FindPost(db.posts, id)
        case None => Err(NotFound, PostNotFound)
        case Some(i) =>
          ThreadJoined(db, id);
          var post := db.posts[i];
          Ok(PostDetail(post, AuthorOf(db.users, db.clock, post.authorId), Thread(db, id)))
  }

  /** The comments on post `id`, oldest first, each joined to its author. */
  function Thread(db: Store, id: int): (r: seq<CommentWithAuthor>)
    requires Wellformed(db)
    ensures forall k :: 0 <= k < |r| ==> r[k].comment in db.comments
  {
    var thread := CommentsOn(db.comments, id);
    assert forall k :: 0 <= k < |thread| ==> 1 <= thread[k].authorId <= |db.users| by {
      forall k | 0 <= k < |thread| ensures 1 <= thread[k].authorId <= |db.users| {
        assert thread[k] in db.comments;
      }
    }
    CommentsWithAuthors(thread, db.users, db.clock)
  }

  /** The thread holds exactly the comments on the post, oldest first, each with its author. */
  lemma ThreadJoined(db: Store, id: int)
    requires Wellformed(db)
    ensures var r := Thread(db, id);
            && (forall k :: 0 <= k < |r| ==>
                  && r[k].comment in db.comments
                  && r[k].comment.postId == id
                  && Names(db.users, r[k].author, r[k].comment.authorId))
            && (forall c :: c in db.comments && c.postId == id ==>
                  exists k :: 0 <= k < |r| && r[k].comment == c)
            && (forall k, l :: 0 <= k < l < |r| ==> r[k].comment.createdAt < r[l].comment.createdAt)
  {
    var thread := CommentsOn(db.comments, id);
    var r := Thread(db, id);
    forall c | c in db.comments && c.postId == id ensures exists k :: 0 <= k < |r| && r[k].comment == c {
      var k :| 0 <= k < |thread| && thread[k] == c;
      assert r[k].comment == c;
    }
  }

  /** POST /posts/:id/comments: refused on a locked post, whoever the caller is. */
  function AddComment(st: State, postId: int, body: string): (r: Step<Comment>)
    requires Consistent(st)
    ensures Consistent(r.state)
    ensures r.resp.Err? ==> r.state == st
    ensures r.resp == Err(Unauthorized, NotAuthenticated) <==> !SignedIn(st.session)
    ensures r.resp == Err(BadRequest, InvalidId) <==> SignedIn(st.session) && postId == 0
    ensures r.resp == Err(BadRequest, CommentBodyRequired) <==> SignedIn(st.session) && postId != 0 && body == ""
    ensures r.resp == Err(NotFound, PostNotFound) <==>
              SignedIn(st.session) && postId != 0 && body != "" && !PostExists(st.store.posts, postId)
    ensures r.resp == Err(Forbidden, PostIsLocked) <==>
              SignedIn(st.session) && postId != 0 && body != "" && IsLocked(st.store.posts, postId)
    ensures r.resp.Err? ==> r.resp.Code() in {400, 401, 403, 404}
    ensures r.resp.Ok? <==>
              SignedIn(st.session) && postId != 0 && body != ""
              && PostExists(st.store.posts, postId) && !IsLocked(st.store.posts, postId)
    ensures r.resp.Ok? ==>
              && PostExists(st.store.posts, postId) && !IsLocked(st.store.posts, postId)
              && r.resp.value.postId == postId && r.resp.value.body == body
              && st.session == Some(r.resp.value.authorId)
              && r.state.store.comments == st.store.comments + [r.resp.value]
              && r.state.store.users == st.store.users
              && r.state.store.posts == st.store.posts
              && r.state.session == st.session
  {
    var db := st.store;
    match RequireAuth(st.session)
    case Err(s, m) => Step(st, Err(s, m))
    case Ok(uid) =>
      if postId == 0 then Step(st, Err(BadRequest, InvalidId))
      else if body == "" then Step(st, Err(BadRequest, CommentBodyRequired))
      else match FindPost(db.posts, postId)
        case None => Step(st, Err(NotFound, PostNotFound))
        case Some(i) =>
          if db.posts[i].locked then Step(st, Err(Forbidden, PostIsLocked))
          else
            var comment := Comment(|db.comments| + 1, body, db.posts[i].id, uid, db.clock);
            Step(st.(store := db.(comments := db.comments + [comment], clock := db.clock + 1)), Ok(comment))
  }

  /** POST /posts/:id/lock: only the author may lock; locking sets `locked` and nothing else. */
  function Lock(st: State, postId: int): (r: Step<Post>)
    requires Consistent(st)
    ensures Consistent(r.state)
    ensures r.resp.Err? ==> r.state == st
    ensures r.resp == Err(Unauthorized, NotAuthenticated) <==> !SignedIn(st.session)
    ensures r.resp == Err(BadRequest, InvalidId) <==> SignedIn(st.session) && postId == 0
    ensures r.resp == Err(NotFound, PostNotFound) <==>
              SignedIn(st.session) && postId != 0 && !PostExists(st.store.posts, postId)
    ensures r.resp == Err(Forbidden, OnlyAuthorCanLock) <==>
              SignedIn(st.session) && postId != 0 &&
              exists i :: 0 <= i < |st.store.posts| && st.store.posts[i].id == postId
                && st.session != Some(st.store.posts[i].authorId)
    ensures r.resp.Err? ==> r.resp.Code() in {400, 401, 403, 404}
    ensures r.resp.Ok? ==>
              exists i :: 0 <= i < |st.store.posts| && st.store.posts[i].id == postId
                && st.session == Some(st.store.posts[i].authorId)
                && r.resp.value == st.store.posts[i].(locked := true)
                && r.state == st.(store := st.store.(posts := st.store.posts[i := r.resp.value]))
  {
    var db := st.store;
    match RequireAuth(st.session)
    case Err(s, m) => Step(st, Err(s, m))
    case Ok(uid) =>
      if postId == 0 then Step(st, Err(BadRequest, InvalidId))
      else match FindPost(db.posts, postId)
        case None => Step(st, Err(NotFound, PostNotFound))
        case Some(i) =>
          FindPostByKey(db.posts, |db.users|, db.clock, postId);
          if db.posts[i].authorId != uid then Step(st, Err(Forbidden, OnlyAuthorCanLock))
          else
            var updated := db.posts[i].(locked := true);
            Step(st.(store := db.(posts := db.posts[i := updated])), Ok(updated))
  }

  // ---------- profile ----------

  /** GET /users/:id: public fields and the user's posts newest first; no email. */
  function GetUser(st: State, id: int): (r: Response<Profile>)
    requires Consistent(st)
    ensures r == Err(Unauthorized, NotAuthenticated) <==> !SignedIn(st.session)
    ensures r == Err(BadRequest, InvalidId) <==> SignedIn(st.session) && id == 0
    ensures r == Err(NotFound, UserNotFound) <==>
              SignedIn(st.session) && id != 0 && !UserExists(st.store.users, id)
    ensures r.Ok? <==> SignedIn(st.session) && id != 0 && UserExists(st.store.users, id)
    ensures r.Ok? ==>
              && r.value.id == id
              && (exists i :: 0 <= i < |st.store.users| && st.store.users[i].id == id
                    && r.value.name == st.store.users[i].name && r.value.createdAt == st.store.users[i].createdAt)
              && (forall p :: p in st.store.posts && p.authorId == id ==> Summary(p) in r.value.posts)
              && (forall s :: s in r.value.posts ==>
                    exists p :: p in st.store.posts && p.authorId == id && s == Summary(p))
              && (forall k, l :: 0 <= k < l < |r.value.posts| ==> r.value.posts[k].createdAt > r.value.posts[l].createdAt)
  {
    var db := st.store;
    match RequireAuth(st.session)
    case Err(s, m) => Err(s, m)
    case Ok(_) =>
      if id == 0 then Err(BadRequest, InvalidId)
      else match FindUser(db.users, id)
        case None => Err(NotFound, UserNotFound)
        case Some(i) =>
          var authored := PostsBy(db.posts, id);
          var summaries := seq(|authored|, k requires 0 <= k < |authored| => Summary(authored[k]));
          assert forall p :: p in authored ==> Summary(p) in summaries by {
            forall p | p in authored ensures Summary(p) in summaries {
              var k :| 0 <= k < |authored| && authored[k] == p;
              assert summaries[k] == Summary(p);
            }
          }
          Ok(Profile(db.users[i].id, db.users[i].name, db.users[i].createdAt, summaries))
  }
}
