/** Properties of the forum across requests: the route table as one dispatch
    function, runs of arbitrary request sequences, and the rules that hold over
    every run (tables only grow, a post changes only in `locked` and only from
    false to true, no comment is ever added to a locked post), plus the
    end-to-end scenarios the forum is expected to exhibit. */
module Properties {
  import opened Credentials
  import opened Tables
  import opened Routes
  import Server

  /** One HTTP request, already parsed, naming its route. */
  datatype Request =
    | PostRegister(email: string, name: string, password: string, salt: nat)
    | PostLogin(email: string, password: string)
    | GetMe
    | PostLogout(destroyFails: bool)
    | GetPosts
    | PostPosts(title: string, body: string)
    | GetPostById(id: int)
    | PostComment(postId: int, body: string)
    | PostLock(postId: int)
    | GetUserById(id: int)

  /** The state after a request and the HTTP status it answered with. */
  datatype Served = Served(state: State, code: nat)

  /** Everything a request may do to the store: the tables only grow, a post
      changes only in `locked` and only from false to true, and a new comment
      never refers to a post that was already locked. */
  predicate Evolves(a: Store, b: Store)
  {
    && a.clock <= b.clock
    && |a.users| <= |b.users| && b.users[..|a.users|] == a.users
    && |a.comments| <= |b.comments| && b.comments[..|a.comments|] == a.comments
    && |a.posts| <= |b.posts|
    && (forall i :: 0 <= i < |a.posts| ==> b.posts[i] == a.posts[i].(locked := b.posts[i].locked))
    && (forall i :: 0 <= i < |a.posts| && a.posts[i].locked ==> b.posts[i].locked)
    && (forall j :: |a.comments| <= j < |b.comments| ==> !IsLocked(a.posts, b.comments[j].postId))
  }

  /** A request only the session gate lets through. */
  predicate Gated(req: Request)
  {
    !(req.PostRegister? || req.PostLogin? || req.GetMe?)
  }

  /** The routes that only read: they answer from the state and leave it as it was. */
  predicate ReadOnly(req: Request)
  {
    req.GetMe? || req.GetPosts? || req.GetPostById? || req.GetUserById?
  }

  /** The route table: dispatch a request to its handler. */
  function Serve(st: State, req: Request): (r: Served)
    requires Consistent(st)
    ensures Consistent(r.state)
    ensures Evolves(st.store, r.state.store)
    ensures ReadOnly(req) ==> r.state == st
  {
    if ReadOnly(req) then Served(st, Read(st, req)) else Write(st, req)
  }

  /** The status a read route answers with. `/auth/me` answers 200 with or without a session. */
  function Read(st: State, req: Request): nat
    requires Consistent(st) && ReadOnly(req)
  {
    match req
    case GetMe => 200
    case GetPosts => ListPosts(st).Code()
    case GetPostById(id) => GetPost(st, id).Code()
    case GetUserById(id) => GetUser(st, id).Code()
  }

  /** The routes that write: each handler's next state and status. */
  function Write(st: State, req: Request): (r: Served)
    requires Consistent(st) && !ReadOnly(req)
    ensures Consistent(r.state)
    ensures Evolves(st.store, r.state.store)
  {
    if req.PostRegister? || req.PostLogin? || req.PostLogout? then Account(st, req) else Content(st, req)
  }

  /** The account routes: register, login and logout. */
  function Account(st: State, req: Request): (r: Served)
    requires Consistent(st) && (req.PostRegister? || req.PostLogin? || req.PostLogout?)
    ensures Consistent(r.state)
    ensures Evolves(st.store, r.state.store)
  {
    match req
    case PostRegister(email, name, password, salt) =>
      var s := Register(st, email, name, password, salt); Served(s.state, s.resp.Code())
    case PostLogin(email, password) =>
      var s := Login(st, email, password); Served(s.state, s.resp.Code())
    case PostLogout(destroyFails) =>
      var s := Logout(st, destroyFails); Served(s.state, s.resp.Code())
  }

  /** The content routes: create a post, comment, lock. */
  function Content(st: State, req: Request): (r: Served)
    requires Consistent(st) && (req.PostPosts? || req.PostComment? || req.PostLock?)
    ensures Consistent(r.state)
    ensures Evolves(st.store, r.state.store)
  {
    match req
    case PostPosts(title, body) =>
      var s := CreatePost(st, title, body); Served(s.state, s.resp.Code())
    case PostComment(postId, body) =>
      var s := AddComment(st, postId, body);
      assert s.resp.Ok? ==> s.state.store.comments[|st.store.comments|] == s.resp.value;
      Served(s.state, s.resp.Code())
    case PostLock(postId) =>
      var s := Lock(st, postId); Served(s.state, s.resp.Code())
  }

  /** The state after serving `reqs` in order. */
  function Run(st: State, reqs: seq<Request>): (r: State)
    requires Consistent(st)
    ensures Consistent(r)
    decreases |reqs|
  {
    if reqs == [] then st else Run(Serve(st, reqs[0]).state, reqs[1..])
  }

  lemma EvolvesReflexive(a: Store)
    ensures Evolves(a, a)
  {
  }

  lemma EvolvesTransitive(a: Store, b: Store, c: Store)
    requires Evolves(a, b) && Evolves(b, c)
    ensures Evolves(a, c)
  {
  }

  /** Every run of requests evolves the store, whatever the requests are. */
  lemma {:induction false} RunEvolves(st: State, reqs: seq<Request>)
    requires Consistent(st)
    ensures Evolves(st.store, Run(st, reqs).store)
    decreases |reqs|
  {
    if reqs == [] {
      EvolvesReflexive(st.store);
    } else {
      var next := Serve(st, reqs[0]).state;
      RunEvolves(next, reqs[1..]);
      EvolvesTransitive(st.store, next.store, Run(next, reqs[1..]).store);
    }
  }

  /** A locked post stays locked and keeps its title, body and author forever. */
  lemma LockIsPermanent(st: State, reqs: seq<Request>, i: nat)
    requires Consistent(st) && i < |st.store.posts| && st.store.posts[i].locked
    ensures var after := Run(st, reqs).store.posts;
            i < |after| && after[i] == st.store.posts[i]
  {
    RunEvolves(st, reqs);
  }

  /** After a post is locked, no request sequence adds a comment to it. */
  lemma NoCommentOnLockedPost(st: State, reqs: seq<Request>, id: int)
    requires Consistent(st) && IsLocked(st.store.posts, id)
    ensures var after := Run(st, reqs).store.comments;
            forall c :: c in after && c.postId == id ==> c in st.store.comments
  {
    RunEvolves(st, reqs);
    var after := Run(st, reqs).store.comments;
    forall c | c in after && c.postId == id
      ensures c in st.store.comments
    {
      var j :| 0 <= j < |after| && after[j] == c;
      if j < |st.store.comments| {
        assert after[..|st.store.comments|][j] == c;
      }
    }
  }

  /** Without a session, every gated route answers 401 and changes nothing. */
  lemma AnonymousRefused(st: State, req: Request)
    requires Consistent(st) && !SignedIn(st.session) && Gated(req)
    ensures Serve(st, req) == Served(st, 401)
  {
  }

  // ---------- scenarios ----------

  /** Registering twice with the same email: the second attempt is a conflict. */
  lemma RegisterTwiceConflicts(st: State, email: string, name: string, password: string, salt: nat,
                               name2: string, password2: string, salt2: nat)
    requires Consistent(st) && name2 != "" && password2 != ""
    ensures var first := Register(st, email, name, password, salt);
            first.resp.Ok? ==>
              Register(first.state, email, name2, password2, salt2) == Step(first.state, Err(Conflict, EmailAlreadyUsed))
  {
    var first := Register(st, email, name, password, salt);
    if first.resp.Ok? {
      assert first.state.store.users[|st.store.users|].email == email;
    }
  }

  /** An unknown email and a wrong password are indistinguishable to the caller. */
  lemma LoginFailuresAlike(st: State, unknown: string, known: string, guess1: string, guess2: string)
    requires Consistent(st) && unknown != "" && known != "" && guess1 != "" && guess2 != ""
    requires !EmailTaken(st.store.users, unknown)
    requires exists i :: 0 <= i < |st.store.users| && st.store.users[i].email == known
                         && !Verify(guess2, st.store.users[i].password)
    ensures Login(st, unknown, guess1) == Login(st, known, guess2) == Step(st, Err(Unauthorized, InvalidCredentials))
  {
  }

  /** After login `/auth/me` names the user; after logout it is null and a second logout is refused. */
  lemma SessionLifecycle(st: State, email: string, password: string)
    requires Consistent(st)
    ensures var signedIn := Login(st, email, password);
            signedIn.resp.Ok? ==>
              && Me(signedIn.state).Some?
              && Me(signedIn.state).value.email == email
              && Me(signedIn.state).value.id == signedIn.resp.value.id
              && var signedOut := Logout(signedIn.state, false);
                 && signedOut.resp == Ok(true)
                 && Me(signedOut.state).None?
                 && Logout(signedOut.state, false).resp == Err(Unauthorized, NotAuthenticated)
  {
  }

  /** A locked post refuses comments from every caller, its author included. */
  lemma LockedRefusesEveryone(st: State, postId: int, body: string)
    requires Consistent(st) && SignedIn(st.session) && body != "" && IsLocked(st.store.posts, postId)
    ensures AddComment(st, postId, body) == Step(st, Err(Forbidden, PostIsLocked))
  {
  }

  /** The author locking post `i + 1`: only that row changes, to locked. */
  lemma LockByAuthor(st: State, i: nat)
    requires Consistent(st) && i < |st.store.posts| && st.session == Some(st.store.posts[i].authorId)
    ensures var updated := st.store.posts[i].(locked := true);
            Lock(st, i + 1) == Step(st.(store := st.store.(posts := st.store.posts[i := updated])), Ok(updated))
  {
  }

  /** The author's lock succeeds, is visible in the post detail, and locking again changes nothing. */
  lemma AuthorLockVisible(st: State, i: nat)
    requires Consistent(st) && i < |st.store.posts| && st.session == Some(st.store.posts[i].authorId)
    ensures var locked := Lock(st, i + 1);
            && locked.resp.Ok?
            && GetPost(locked.state, i + 1).Ok?
            && GetPost(locked.state, i + 1).value.post.locked
            && Lock(locked.state, i + 1) == locked
  {
    LockByAuthor(st, i);
    var locked := Lock(st, i + 1);
    var posts := locked.state.store.posts;
    LockByAuthor(locked.state, i);
    assert posts[i := posts[i].(locked := true)] == posts;
    var detail := GetPost(locked.state, i + 1);
    FindPostByKey(posts, |st.store.users|, st.store.clock, i + 1);
  }

  /** Register, log in, post, lock, then comment: the comment is refused with 403. */
  lemma LockThenCommentScenario(st: State, salt: nat)
    requires Consistent(st) && !EmailTaken(st.store.users, "a@x.com")
    ensures var registered := Register(st, "a@x.com", "A", "pw1", salt);
            && registered.resp.Ok?
            && var loggedIn := Login(registered.state, "a@x.com", "pw1");
               && loggedIn.resp.Ok?
               && var created := CreatePost(loggedIn.state, "T", "B");
                  && created.resp.Ok?
                  && var locked := Lock(created.state, created.resp.value.id);
                     && locked.resp.Ok?
                     && AddComment(locked.state, created.resp.value.id, "hi").resp == Err(Forbidden, PostIsLocked)
  {
    var registered := Register(st, "a@x.com", "A", "pw1", salt);
    var users := registered.state.store.users;
    var n := |st.store.users|;
    assert users[n].email == "a@x.com" && Verify("pw1", users[n].password);
    var loggedIn := Login(registered.state, "a@x.com", "pw1");
    var created := CreatePost(loggedIn.state, "T", "B");
    var posts := created.state.store.posts;
    var m := |loggedIn.state.store.posts|;
    assert posts[m] == created.resp.value;
    var locked := Lock(created.state, created.resp.value.id);
    assert locked.resp.Ok?;
    LockedRefusesEveryone(locked.state, created.resp.value.id, "hi");
  }

  /** Two users: B comments while the post is open; after A locks it, B and A are both refused. */
  lemma TwoUsersScenario(st: State, a: nat, b: nat)
    requires Consistent(st) && 1 <= a <= |st.store.users| && 1 <= b <= |st.store.users|
    requires st.session == Some(a)
    ensures var created := CreatePost(st, "T", "B");
            && created.resp.Ok?
            && var id := created.resp.value.id;
               var commented := AddComment(created.state.(session := Some(b)), id, "first");
               && commented.resp.Ok?
               && var locked := Lock(commented.state.(session := Some(a)), id);
                  && locked.resp.Ok?
                  && AddComment(locked.state.(session := Some(b)), id, "second").resp == Err(Forbidden, PostIsLocked)
                  && AddComment(locked.state, id, "own").resp == Err(Forbidden, PostIsLocked)
  {
    var created := CreatePost(st, "T", "B");
    var m := |st.store.posts|;
    var id := created.resp.value.id;
    assert created.state.store.posts[m] == created.resp.value;
    var asB := created.state.(session := Some(b));
    assert !IsLocked(asB.store.posts, id);
    var commented := AddComment(asB, id, "first");
    var asA := commented.state.(session := Some(a));
    assert asA.store.posts[m].authorId == a;
    LockByAuthor(asA, m);
    var locked := Lock(asA, id);
    assert locked.state.store.posts[m].locked;
    LockedRefusesEveryone(locked.state.(session := Some(b)), id, "second");
    LockedRefusesEveryone(locked.state, id, "own");
  }

  /** A user with no posts has a profile with an empty post list, not an error. */
  lemma EmptyProfile(st: State, id: int)
    requires Consistent(st) && SignedIn(st.session) && UserExists(st.store.users, id)
    requires forall p :: p in st.store.posts ==> p.authorId != id
    ensures GetUser(st, id).Ok? && GetUser(st, id).value.posts == []
  {
    var listed := GetUser(st, id).value.posts;
    HeadIsMember(listed);
  }

  /** The same scenario driven through the running server object. */
  method ServerScenario(salt: nat) returns (code: nat)
    ensures code == 403
  {
    LockThenCommentScenario(State(EmptyStore, None), salt);
    var forum := new Server.Forum();
    var registered := forum.Register("a@x.com", "A", "pw1", salt);
    var loggedIn := forum.Login("a@x.com", "pw1");
    var created := forum.CreatePost("T", "B");
    var locked := forum.Lock(created.value.id);
    var refused := forum.AddComment(created.value.id, "hi");
    code := refused.Code();
  }

  /** A non-empty sequence holds its first element (stated positively, for use where the
      sequence is provably empty). */
  lemma HeadIsMember<T>(xs: seq<T>)
    ensures xs != [] ==> xs[0] in xs
  {
  }
}
