# my-forum: the forum server's domain rules in Dafny

This project models the request handlers of the my-forum server (`my-forum/server/src/index.ts`).
The server runs a small web forum: users register, log in through a session cookie, write
posts, comment on posts, and lock their own posts against further comments.

The model is a state machine over:

- three tables that only grow: users keyed by id with unique emails, posts with an author
  and a `locked` flag, and comments tied to a post and an author. A stored row never
  changes, except that a post's `locked` flag can go from false to true;
- one session slot that holds an optional user id.

The Dafny files:

- `credentials.dfy` (module `Credentials`): the salted password hash and its verify function.
  The real key-derivation function is abstract here. The stand-in is injective, so a stored
  hash accepts exactly the password it was made from.
- `tables.dfy` (module `Tables`): the rows, the store, and lookups by unique key (id or
  email). It also holds the three orderings the server returns:
  - all posts, newest first;
  - one author's posts, newest first;
  - one post's comments, oldest first.

  Its `Consistent` invariant says:
  - ids are autoincrement keys;
  - every post and comment refers to an existing user and post;
  - emails are unique;
  - creation stamps increase;
  - the session, if set, names an existing user.
- `routes.dfy` (module `Routes`): every route handler as a function from the state and the
  parsed request to the next state and the response. The response is a status code with a
  projection, or an error message. Each contract states:
  - the handler's error precedence, with the exact status and message;
  - that every error path leaves store and session unchanged;
  - the write made on success;
  - that `Consistent` is preserved.
- `server.dfy` (module `Server`): class `Forum`. Its tables and session slot are fields that
  the handlers register, login, logout, create post, add comment and lock update in place.
  Each method checks its conditions and then writes, like the source. Each is proved to
  produce exactly the state and the response that its `Routes` function describes.
- `properties.dfy` (module `Properties`): three groups of results.
  - The route table as a dispatch function, and runs of arbitrary request sequences.
  - The rules that hold over every run: tables only grow, and a post changes only in
    `locked`, from false to true. A post that is locked never gets another comment, and
    every route behind `requireAuth` answers 401 with nothing changed when there is no
    session.
  - The expected end-to-end scenarios: register twice, login failures that look alike, the
    session lifecycle, lock then comment, and two users on one post.

Modelling choices:

- The creation timestamp is a logical clock shared by all tables, bumped at every insert.
  Rows are stored in creation order, so "newest first" is reverse table order.
- Request body fields are strings, and the empty string stands for a missing or falsy value.
- Path ids are already-parsed integers, and 0 stands for a path id that parses to 0 or NaN.
- The random salt of the password hash is a parameter of registration.
- Whether the session store fails to destroy a session is a parameter of logout.
- Every handler runs atomically, one request after another.
- The database schema is not part of this model. A new post's `locked` flag is assumed to
  default to false, because the create call does not set it. Ids are assumed to be
  autoincrement keys starting at 1, with no deletions.

Notes on the server's behaviour, as `index.ts` implements it:

- Login only sets the user id on the current session. It does not issue a new session.
- The profile route sits behind the session gate.
- The profile's user projection has no email, and the "me" projection does.

## Model

| member | source | states |
|---|---|---|
| `Credentials.Hash` | my-forum/server/src/index.ts:68 | the stored value carries cost factor 10 and the given salt, and the password it was made from verifies against it |
| `Credentials.VerifyExact` | my-forum/server/src/index.ts:89 | comparing an attempt against a stored hash succeeds if and only if the attempt is the registered password |
| `Tables.FindEmail` | my-forum/server/src/index.ts:63 | the lookup by email returns a row holding that email, and finds none exactly when no user has that email |
| `Tables.FindUser` | my-forum/server/src/index.ts:101-104 | the lookup by user id returns a row with that id, and finds none exactly when no user has that id |
| `Tables.FindPost` | my-forum/server/src/index.ts:177 | the lookup by post id returns a row with that id, and finds none exactly when no post has that id |
| `Tables.NewestFirst` | my-forum/server/src/index.ts:122-125 | the listing holds every post exactly once, in reverse creation order |
| `Tables.PostsBy` | my-forum/server/src/index.ts:225-228 | a post is listed if and only if it is in the table and has that author; the list is strictly newest first when the table is in creation order |
| `Tables.CommentsOn` | my-forum/server/src/index.ts:158-161 | a comment is listed if and only if it is in the table and belongs to that post; the list is strictly oldest first when the table is in creation order |
| `Routes.AuthorOf` | my-forum/server/src/index.ts:124 | the joined author carries the referenced id and the name of the user with that id |
| `Routes.PostsWithAuthors` | my-forum/server/src/index.ts:122-125 | each post keeps its place and is paired with the author its authorId names: that user's id and name |
| `Routes.CommentsWithAuthors` | my-forum/server/src/index.ts:158-161 | each comment keeps its place and is paired with the author its authorId names: that user's id and name |
| `Routes.RequireAuth` | my-forum/server/src/index.ts:41-46 | the gate passes if and only if the session holds a (truthy) user id, and yields that id; otherwise 401 "Not authenticated" |
| `Routes.Register` | my-forum/server/src/index.ts:56-76 | 400 if and only if email, name or password is missing. 409 if and only if all are present and the email is taken. Errors change nothing. Registration succeeds if and only if all three fields are present and the email is free. Success appends exactly one user: the given email and name, the password stored only as its hash, an email no one had. Emails stay unique and the store stays consistent |
| `Routes.Login` | my-forum/server/src/index.ts:79-95 | never touches the store. 400 if and only if email or password is missing. Otherwise the identical 401 "Invalid credentials" if and only if no user with that email verifies the password. Errors leave the session unchanged. Login succeeds if and only if both fields are present and a user with that email verifies the password. Success sets the session to the id of the user whose email and password match, and returns that user's id, email and name |
| `Routes.Me` | my-forum/server/src/index.ts:98-107 | null if and only if the session holds no user id; otherwise the public projection (no password) of the user the session names |
| `Routes.Logout` | my-forum/server/src/index.ts:110-116 | 401 without a session, and 500 if the session store fails; both leave everything unchanged. Success happens exactly when signed in and the store works; it clears the session and never touches the store |
| `Routes.ListPosts` | my-forum/server/src/index.ts:121-128 | 401 without a session. Otherwise lists every post exactly once, strictly newest first, each with its author's id and name |
| `Routes.ListingJoined` | my-forum/server/src/index.ts:122-125 | the joined listing holds every post exactly once, strictly newest first, each paired with its author's id and name |
| `Routes.CreatePost` | my-forum/server/src/index.ts:131-147 | 401 without a session, then 400 if and only if title or body is missing; errors change nothing. Creation succeeds if and only if the caller is signed in and gives a title and a body. Success appends exactly one post with the given title and body, the session user as author, unlocked and with a fresh id. Users, comments and the session are unchanged |
| `Routes.GetPost` | my-forum/server/src/index.ts:150-167 | 401, then 400 for id 0, then 404 if and only if no post has the id. It succeeds if and only if the caller is signed in and a post has that (non-zero) id. It then returns that post and its author's id and name, with exactly the comments on it, each paired with its author's id and name, strictly oldest first |
| `Routes.ThreadJoined` | my-forum/server/src/index.ts:157-161 | the joined thread holds exactly the comments on the post, strictly oldest first, each paired with its author's id and name |
| `Routes.AddComment` | my-forum/server/src/index.ts:170-190 | 401, then 400 for id 0, then 400 for an empty body, then 404 for a missing post, then 403 for a locked post, whoever the caller is; each error changes nothing. The comment is accepted if and only if the caller is signed in, the id is non-zero, the body is present, and the post exists and is unlocked. Success appends one comment on an existing unlocked post: the given post id and body, the session user as author. Nothing else changes |
| `Routes.Lock` | my-forum/server/src/index.ts:193-210 | 401, then 400 for id 0, then 404 if and only if the post is missing, then 403 if and only if the caller is not its author; errors change nothing. On success the only change is that this post's `locked` becomes true, and the updated post is returned |
| `Routes.GetUser` | my-forum/server/src/index.ts:215-234 | 401, then 400 for id 0, then 404 if and only if no user has the id. It succeeds if and only if the caller is signed in and a user has that (non-zero) id. It then returns that user's id, name and creation stamp, with a summary of exactly the posts that user wrote, strictly newest first |
| `Server.Forum.Register` | my-forum/server/src/index.ts:56-76 | the in-place handler keeps the server consistent and leaves exactly the state and response `Routes.Register` describes |
| `Server.Forum.Login` | my-forum/server/src/index.ts:79-95 | the in-place handler keeps the server consistent and leaves exactly the state and response `Routes.Login` describes |
| `Server.Forum.Logout` | my-forum/server/src/index.ts:110-116 | the in-place handler keeps the server consistent and leaves exactly the state and response `Routes.Logout` describes |
| `Server.Forum.CreatePost` | my-forum/server/src/index.ts:131-147 | the in-place handler keeps the server consistent and leaves exactly the state and response `Routes.CreatePost` describes |
| `Server.Forum.AddComment` | my-forum/server/src/index.ts:170-190 | the in-place handler keeps the server consistent and leaves exactly the state and response `Routes.AddComment` describes |
| `Server.Forum.Lock` | my-forum/server/src/index.ts:193-210 | the in-place handler keeps the server consistent and leaves exactly the state and response `Routes.Lock` describes |
| `Properties.Serve` | my-forum/server/src/index.ts:56-234 | every route keeps the store consistent and only grows it: rows never change except `locked` going from false to true, and no new comment is on a post that was locked before. The read routes change nothing |
| `Properties.Account` | my-forum/server/src/index.ts:56-116 | register, login and logout keep the store consistent and only grow it |
| `Properties.Content` | my-forum/server/src/index.ts:131-210 | creating a post, commenting and locking keep the store consistent, only grow it, change a post only by locking it, and never add a comment to a post that was already locked |
| `Properties.Run` | my-forum/server/src/index.ts:56-234 | any sequence of requests keeps the store consistent, so emails stay unique and every author id names an existing user |
| `Properties.RunEvolves` | my-forum/server/src/index.ts:131-210 | over any sequence of requests the tables only grow, and posts change only by `locked` going from false to true |
| `Properties.LockIsPermanent` | my-forum/server/src/index.ts:204-207 | once locked, a post stays locked and keeps its title, body and author after any sequence of requests |
| `Properties.NoCommentOnLockedPost` | my-forum/server/src/index.ts:177-187 | after a post is locked, no sequence of requests adds a comment to it |
| `Properties.AnonymousRefused` | my-forum/server/src/index.ts:41-46 | without a session, every route behind the gate answers 401 and changes neither store nor session |
| `Properties.RegisterTwiceConflicts` | my-forum/server/src/index.ts:63-66 | registering again with an email that just registered returns 409 "Email already used" and changes nothing |
| `Properties.LoginFailuresAlike` | my-forum/server/src/index.ts:86-90 | an unknown email and a wrong password for a known email give the identical response and leave the state unchanged |
| `Properties.SessionLifecycle` | my-forum/server/src/index.ts:92-116 | after a successful login, "me" returns that user; after logout it returns null, and a second logout answers 401 |
| `Properties.LockedRefusesEveryone` | my-forum/server/src/index.ts:177-179 | on a locked post, a signed-in caller's non-empty comment is refused with 403 and nothing changes, whoever the caller is (the author included) |
| `Properties.LockByAuthor` | my-forum/server/src/index.ts:197-207 | the author locking an existing post succeeds, and the only change is that post's `locked` flag set to true |
| `Properties.AuthorLockVisible` | my-forum/server/src/index.ts:150-210 | the author's lock succeeds and shows as locked in the post detail; locking again returns the same post and state |
| `Properties.LockThenCommentScenario` | my-forum/server/src/index.ts:56-190 | register, log in, create a post and lock it all succeed, and the comment that follows gets 403 |
| `Properties.TwoUsersScenario` | my-forum/server/src/index.ts:131-210 | B's comment on A's open post succeeds. After A locks it, B's next comment and A's own comment both get 403 |
| `Properties.EmptyProfile` | my-forum/server/src/index.ts:215-233 | the profile of a user with no posts succeeds with an empty post list |
| `Properties.ServerScenario` | my-forum/server/src/index.ts:56-190 | on the in-place server, the register, login, post, lock, comment sequence ends in status 403 |

## Left out

- The browser client (`App.tsx`, the pages, the fetch wrapper) holds no domain logic and is not part of this model.
- Express, CORS, cookie-parser and session middleware setup, environment loading, the health route and the listener are plumbing. The session cookie's name and its clearing at logout are transport and are not modelled.
- The database itself is replaced by sequences. The schema is not part of this model: the `locked` default of false and the autoincrement ids starting at 1 are assumptions. Database errors (connection loss, constraint violations) and the unhandled rejections they would cause are not modelled.
- Credentials.Hash: the key-derivation function is an injective stand-in. It does not model one-wayness, bcrypt's 72-byte input limit or constant-time comparison, which are properties of the foreign library.
- Request bodies are taken to be strings. A non-string body field (a number, an object) is not modelled; the source would hand it on to the database.
- Path ids are already-parsed integers. Fractional ids, which the source would pass to the database, are not modelled.
- Wall-clock creation times are replaced by a logical clock. Two rows never share a stamp, so ties in the ordering are not modelled.
- Concurrency is not modelled: handlers are atomic and sequential. This covers the race between a lock and a comment check, and the race between two registrations with one email.
- Integer widths are not modelled: ids and the clock are unbounded.
