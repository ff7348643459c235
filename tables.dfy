/** The forum's persistent store (users, posts, comments) and the session slot.
    Tables are sequences in creation order that only grow: a row's id is its
    position plus one, as an autoincrement key with no deletions gives, and
    `createdAt` is a logical clock shared by all tables. */
module Tables {
  import opened Credentials

  datatype Option<T> = None | Some(value: T)

  /** A registered user; `password` holds only the hash, never the plaintext. */
  datatype User = User(id: nat, email: string, name: string, password: PasswordHash, createdAt: nat)

  /** A post; `authorId` refers to a user and `locked` only ever goes from false to true. */
  datatype Post = Post(id: nat, title: string, body: string, authorId: nat, locked: bool, createdAt: nat)

  /** A comment on the post `postId`, written by the user `authorId`. */
  datatype Comment = Comment(id: nat, body: string, postId: nat, authorId: nat, createdAt: nat)

  /** The three tables and the logical clock that stamps new rows. */
  datatype Store = Store(users: seq<User>, posts: seq<Post>, comments: seq<Comment>, clock: nat)

  /** The store together with the caller's session slot (an optional user id). */
  datatype State = State(store: Store, session: Option<nat>)

  const EmptyStore: Store := Store([], [], [], 0)

  // ---------- lookups by unique key ----------

  /** Position of the user with key `id`, if any. */
  function FindUser(users: seq<User>, id: int): (r: Option<nat>)
    ensures r.Some? ==> r.value < |users| && users[r.value].id == id
    ensures r.None? <==> forall i :: 0 <= i < |users| ==> users[i].id != id
  {
    if |users| == 0 then None
    else if users[0].id == id then Some(0)
    else match FindUser(users[1..], id)
      case None => None
      case Some(k) => Some(k + 1)
  }

  /** Position of the user registered with `email`, if any. */
  function FindEmail(users: seq<User>, email: string): (r: Option<nat>)
    ensures r.Some? ==> r.value < |users| && users[r.value].email == email
    ensures r.None? <==> !EmailTaken(users, email)
  {
    if |users| == 0 then None
    else if users[0].email == email then Some(0)
    else match FindEmail(users[1..], email)
      case None => None
      case Some(k) => Some(k + 1)
  }

  /** Position of the post with key `id`, if any. */
  function FindPost(posts: seq<Post>, id: int): (r: Option<nat>)
    ensures r.Some? ==> r.value < |posts| && posts[r.value].id == id
    ensures r.None? <==> !PostExists(posts, id)
  {
    if |posts| == 0 then None
    else if posts[0].id == id then Some(0)
    else match FindPost(posts[1..], id)
      case None => None
      case Some(k) => Some(k + 1)
  }

  predicate EmailTaken(users: seq<User>, email: string)
  {
    exists i :: 0 <= i < |users| && users[i].email == email
  }

  predicate UserExists(users: seq<User>, id: int)
  {
    exists i :: 0 <= i < |users| && users[i].id == id
  }

  predicate PostExists(posts: seq<Post>, id: int)
  {
    exists i :: 0 <= i < |posts| && posts[i].id == id
  }

  /** The post `id` exists and is locked. */
  predicate IsLocked(posts: seq<Post>, id: int)
  {
    exists i :: 0 <= i < |posts| && posts[i].id == id && posts[i].locked
  }

  // ---------- orderings ----------

  predicate PostsAscending(posts: seq<Post>)
  {
    forall i, j :: 0 <= i < j < |posts| ==> posts[i].createdAt < posts[j].createdAt
  }

  predicate PostsDescending(posts: seq<Post>)
  {
    forall i, j :: 0 <= i < j < |posts| ==> posts[i].createdAt > posts[j].createdAt
  }

  predicate CommentsAscending(comments: seq<Comment>)
  {
    forall i, j :: 0 <= i < j < |comments| ==> comments[i].createdAt < comments[j].createdAt
  }

  /** All posts, newest first: the post listing's order. */
  function NewestFirst(posts: seq<Post>): (r: seq<Post>)
    ensures |r| == |posts|
    ensures forall k :: 0 <= k < |r| ==> r[k] == posts[|posts| - 1 - k]
  {
    if |posts| == 0 then []
    else [posts[|posts| - 1]] + NewestFirst(posts[..|posts| - 1])
  }

  /** The posts of one author, newest first: the profile's order. */
  function PostsBy(posts: seq<Post>, authorId: int): (r: seq<Post>)
    ensures forall p :: p in r <==> p in posts && p.authorId == authorId
    ensures PostsAscending(posts) ==> PostsDescending(r)
  {
    if |posts| == 0 then []
    else
      var older, last := posts[..|posts| - 1], posts[|posts| - 1];
      var rest := PostsBy(older, authorId);
      assert PostsAscending(posts) ==> forall p :: p in rest ==> p.createdAt < last.createdAt;
      if last.authorId == authorId then [last] + rest else rest
  }

  /** The comments on one post, oldest first: the post detail's reading order. */
  function CommentsOn(comments: seq<Comment>, postId: int): (r: seq<Comment>)
    ensures forall c :: c in r <==> c in comments && c.postId == postId
    ensures CommentsAscending(comments) ==> CommentsAscending(r)
  {
    if |comments| == 0 then []
    else
      var older, last := comments[..|comments| - 1], comments[|comments| - 1];
      var rest := CommentsOn(older, postId);
      assert CommentsAscending(comments) ==> forall c :: c in rest ==> c.createdAt < last.createdAt;
      if last.postId == postId then rest + [last] else rest
  }

  // ---------- invariants of the store ----------

  /** Users: key is position + 1, stamped before the clock, in creation order, emails unique. */
  predicate UsersWellformed(users: seq<User>, clock: nat)
  {
    && (forall i :: 0 <= i < |users| ==> users[i].id == i + 1 && users[i].createdAt < clock)
    && (forall i, j :: 0 <= i < j < |users| ==> users[i].createdAt < users[j].createdAt)
    && (forall i, j :: 0 <= i < j < |users| ==> users[i].email != users[j].email)
  }

  /** Posts: key is position + 1, author exists, stamped before the clock, in creation order. */
  predicate PostsWellformed(posts: seq<Post>, userCount: nat, clock: nat)
  {
    && (forall i :: 0 <= i < |posts| ==>
          posts[i].id == i + 1 && 1 <= posts[i].authorId <= userCount && posts[i].createdAt < clock)
    && PostsAscending(posts)
  }

  /** Comments: key is position + 1, post and author exist, stamped before the clock, in creation order. */
  predicate CommentsWellformed(comments: seq<Comment>, postCount: nat, userCount: nat, clock: nat)
  {
    && (forall i :: 0 <= i < |comments| ==>
          && comments[i].id == i + 1
          && 1 <= comments[i].postId <= postCount
          && 1 <= comments[i].authorId <= userCount
          && comments[i].createdAt < clock)
    && CommentsAscending(comments)
  }

  predicate Wellformed(db: Store)
  {
    && UsersWellformed(db.users, db.clock)
    && PostsWellformed(db.posts, |db.users|, db.clock)
    && CommentsWellformed(db.comments, |db.posts|, |db.users|, db.clock)
  }

  /** The store is well formed and a session, if present, names an existing user. */
  predicate Consistent(st: State)
  {
    && Wellformed(st.store)
    && (st.session.Some? ==> 1 <= st.session.value <= |st.store.users|)
  }

  /** On a well-formed table a lookup by key lands on position key - 1. */
  lemma FindPostByKey(posts: seq<Post>, userCount: nat, clock: nat, id: int)
    requires PostsWellformed(posts, userCount, clock)
    ensures FindPost(posts, id) == if 1 <= id <= |posts| then Some(id - 1) else None
  {
    if 1 <= id <= |posts| {
      assert posts[id - 1].id == id;
    }
  }

  lemma FindUserByKey(users: seq<User>, clock: nat, id: int)
    requires UsersWellformed(users, clock)
    ensures FindUser(users, id) == if 1 <= id <= |users| then Some(id - 1) else None
  {
    if 1 <= id <= |users| {
      assert users[id - 1].id == id;
    }
  }
}
