/** The running server: the tables and the session slot as fields that the
    state-changing route handlers update in place. Each handler is proved to
    leave exactly the state, and send exactly the response, that its
    specification in module Routes describes. */
module Server {
  import opened Credentials
  import opened Tables
  import Routes

  class Forum {
    var users: seq<User>
    var posts: seq<Post>
    var comments: seq<Comment>
    var clock: nat
    var session: Option<nat>

    /** The abstract value of the server: store plus session slot. */
    function Snapshot(): State
      reads this
    {
      State(Store(users, posts, comments, clock), session)
    }

    predicate Valid()
      reads this
    {
      Consistent(Snapshot())
    }

    constructor ()
      ensures Valid()
      ensures Snapshot() == State(EmptyStore, None)
    {
      users, posts, comments, clock, session := [], [], [], 0, None;
    }

    /** POST /auth/register */
    method Register(email: string, name: string, password: string, salt: nat)
      returns (resp: Routes.Response<Routes.UserView>)
      requires Valid()
      modifies this
      ensures Valid()
      ensures Routes.Step(Snapshot(), resp) == Routes.Register(old(Snapshot()), email, name, password, salt)
    {
      if email == "" || name == "" || password == "" {
        return Routes.Err(Routes.BadRequest, Routes.RegisterFieldsRequired);
      }
      var existing := FindEmail(users, email);
      if existing.Some? {
        return Routes.Err(Routes.Conflict, Routes.EmailAlreadyUsed);
      }
      var user := User(|users| + 1, email, name, Hash(password, salt), clock);
      users := users + [user];
      clock := clock + 1;
      resp := Routes.Ok(Routes.PublicView(user));
    }

    /** POST /auth/login: sets the session's user id on success. */
    method Login(email: string, password: string) returns (resp: Routes.Response<Routes.LoginView>)
      requires Valid()
      modifies this
      ensures Valid()
      ensures Routes.Step(Snapshot(), resp) == Routes.Login(old(Snapshot()), email, password)
    {
      if email == "" || password == "" {
        return Routes.Err(Routes.BadRequest, Routes.LoginFieldsRequired);
      }
      var found := FindEmail(users, email);
      if found.None? {
        return Routes.Err(Routes.Unauthorized, Routes.InvalidCredentials);
      }
      var user := users[found.value];
      var ok := Verify(password, user.password);
      if !ok {
        return Routes.Err(Routes.Unauthorized, Routes.InvalidCredentials);
      }
      session := Some(user.id);
      resp := Routes.Ok(Routes.LoginView(user.id, user.email, user.name));
    }

    /** POST /auth/logout; `destroyFails` is the session store's error report. */
    method Logout(destroyFails: bool) returns (resp: Routes.Response<bool>)
      requires Valid()
      modifies this
      ensures Valid()
      ensures Routes.Step(Snapshot(), resp) == Routes.Logout(old(Snapshot()), destroyFails)
    {
      var auth := Routes.RequireAuth(session);
      if auth.Err? {
        return Routes.Err(auth.status, auth.message);
      }
      if destroyFails {
        return Routes.Err(Routes.ServerError, Routes.LogoutFailed);
      }
      session := None;
      resp := Routes.Ok(true);
    }

    /** POST /posts */
    method CreatePost(title: string, body: string) returns (resp: Routes.Response<Post>)
      requires Valid()
      modifies this
      ensures Valid()
      ensures Routes.Step(Snapshot(), resp) == Routes.CreatePost(old(Snapshot()), title, body)
    {
      var auth := Routes.RequireAuth(session);
      if auth.Err? {
        return Routes.Err(auth.status, auth.message);
      }
      if title == "" || body == "" {
        return Routes.Err(Routes.BadRequest, Routes.PostFieldsRequired);
      }
      var post := Post(|posts| + 1, title, body, auth.value, false, clock);
      posts := posts + [post];
      clock := clock + 1;
      resp := Routes.Ok(post);
    }

    /** POST /posts/:id/comments */
    method AddComment(postId: int, body: string) returns (resp: Routes.Response<Comment>)
      requires Valid()
      modifies this
      ensures Valid()
      ensures Routes.Step(Snapshot(), resp) == Routes.AddComment(old(Snapshot()), postId, body)
    {
      var auth := Routes.RequireAuth(session);
      if auth.Err? {
        return Routes.Err(auth.status, auth.message);
      }
      if postId == 0 {
        return Routes.Err(Routes.BadRequest, Routes.InvalidId);
      }
      if body == "" {
        return Routes.Err(Routes.BadRequest, Routes.CommentBodyRequired);
      }
      var found := FindPost(posts, postId);
      if found.None? {
        return Routes.Err(Routes.NotFound, Routes.PostNotFound);
      }
      var post := posts[found.value];
      if post.locked {
        return Routes.Err(Routes.Forbidden, Routes.PostIsLocked);
      }
      var comment := Comment(|comments| + 1, body, post.id, auth.value, clock);
      comments := comments + [comment];
      clock := clock + 1;
      resp := Routes.Ok(comment);
    }

    /** POST /posts/:id/lock */
    method Lock(postId: int) returns (resp: Routes.Response<Post>)
      requires Valid()
      modifies this
      ensures Valid()
      ensures Routes.Step(Snapshot(), resp) == Routes.Lock(old(Snapshot()), postId)
    {
      var auth := Routes.RequireAuth(session);
      if auth.Err? {
        return Routes.Err(auth.status, auth.message);
      }
      if postId == 0 {
        return Routes.Err(Routes.BadRequest, Routes.InvalidId);
      }
      var found := FindPost(posts, postId);
      if found.None? {
        return Routes.Err(Routes.NotFound, Routes.PostNotFound);
      }
      var i := found.value;
      if posts[i].authorId != auth.value {
        return Routes.Err(Routes.Forbidden, Routes.OnlyAuthorCanLock);
      }
      var updated := posts[i].(locked := true);
      posts := posts[i := updated];
      resp := Routes.Ok(updated);
    }
  }
}
