# FeedApp social-interaction layer in Dafny

This project models the data layer of FeedApp, a small social-feed backend.
Users upload posts (an image or a video kept on an external media host).
Other users like posts and comment on them. The model covers:

- the four tables (`User`, `Post`, `Like`, `Comment`) and the integrity rules
  declared on them: primary keys, the unique username, one like per
  (post, user), non-null foreign keys to existing rows, and the cascading
  deletes (`db.dfy`, module `Db`);
- the request handlers, as methods and functions of one in-memory `Store`
  class (`app.dfy`, module `App`). Each handler does its lookups and
  ownership checks, then changes the store as one atomic step;
- the two registration validators, for usernames and passwords
  (`schema.dfy`, module `Schema`);
- the helpers these rest on: order-preserving filters, first-match lookup,
  key uniqueness and fresh keys (`seqs.dfy`, module `Seqs`), and the
  newest-first ordering (`ordering.dfy`, module `Ordering`).

Every state-changing method of `Store` requires and preserves `Valid()`,
which says the tables satisfy every declared constraint. Each such method
states its whole new state in terms of the old one and of the functions in
`Db`. The lemmas in `Db` then prove what those functions mean: cascade
completeness, preserved integrity, how like counts move, and that
like-then-unlike restores the table.

The path identifiers are strings that the handlers parse with `uuid.UUID`.
In the model they arrive as `Option<Id>`, where `None` is a string the parser
rejects. The authenticated caller arrives as the `User` row that the
authentication dependency loaded.

Behaviour of the code that the model keeps on purpose:

- Every handler raises its `HTTPException` (404, 403 or 400) inside a `try`
  whose `except Exception` re-raises it as 500. So the handlers raise
  404/403/400, but the client receives status 500 for every handler error
  (`ObservedStatus`, `ErrorsShareStatus`). On success the status is the
  route's own: 200, or 204 for `delete_account`. The re-raise keeps the
  original error's text in `detail`, so the response body still tells the
  errors apart; the model covers only the status code.
- `unlike_post` and `get_likes_count` never check that the post exists.
  `check_user_liked` turns every failure, a malformed id included, into
  `false`.
- Only the author of a comment may delete it. The owner of the post has no
  extra right.
- `delete_post` calls the media host's delete only after both checks pass,
  and before the local delete. The ghost field `remoteDeletes` logs each call.
  If that call raises, the local rows stay and the error is reported.
- `delete_account` deletes no media asset.
- The `created_at` defaults are computed once, when the module is imported.
  So every row that the handlers insert into a table gets that table's one
  fixed timestamp (`postStamp`, `likeStamp`, `commentStamp`). The ordering
  properties are therefore stated as non-increasing.

## Model

| member | source | states |
|---|---|---|
| Seqs.Find | app/app.py:104-105 | `scalars().first()`: returns None exactly when no row matches, else a row of the table that matches |
| Seqs.Filter | app/app.py:292-293 | a `where` selection: an element is kept exactly when it is in the input and satisfies the condition |
| Seqs.FreshKey | app/db.py:26 | a server-assigned id is larger than every id in the table, so it cannot collide with one |
| Seqs.FilterInjective | app/db.py:34 | deleting rows never breaks a primary-key or unique constraint |
| Seqs.AppendInjective | app/db.py:34 | inserting a row into a table with unique keys keeps the constraint exactly when its key is new |
| Seqs.MapPermutes | app/app.py:79-92 | building one response entry per row from two orderings of the same rows gives the same entries, each as often |
| Seqs.MapPermutation | app/app.py:79-92 | entries built from a reordering of the rows: one per row, every row's entry present, and no entry that comes from no row |
| Seqs.FilterRemovesOne | app/app.py:331 | in a table with unique ids, deleting by an existing id removes exactly one row |
| Ordering.SortDesc | app/app.py:76 | `order_by(created_at.desc())`: the result is a permutation of the input and its timestamps are non-increasing |
| Db.DeletePost | app/db.py:71-72 | deleting a post removes exactly the rows with that id, and exactly the likes and comments on it; users stay; the post's like count becomes 0 |
| Db.DeleteUser | app/db.py:61 | deleting a user removes that user, the user's posts, likes and comments, and every like and comment on those posts; all other rows stay |
| Db.DeletePostKeepsWellFormed | app/db.py:71-72 | the post cascade leaves no like or comment pointing at a missing post, and keeps every constraint |
| Db.DeleteUserKeepsWellFormed | app/db.py:27-28 | the user cascade keeps every constraint: no row is left pointing at the deleted user or at one of the deleted posts |
| Db.DeleteUserLeavesNoTrace | app/db.py:61 | after account deletion, no post, like or comment carries the user's id, and the user's posts have no likes left |
| Db.AddLikeKeepsWellFormed | app/db.py:34 | a like with a fresh id, an existing post and user, and a pair not yet liked keeps every constraint |
| Db.AddCommentKeepsWellFormed | app/db.py:41-44 | a comment with a fresh id, on an existing post, by an existing user, keeps every constraint |
| Db.AddPostKeepsWellFormed | app/db.py:60-61 | a post with a fresh id, owned by an existing user, keeps every constraint |
| Db.RemoveLikeKeepsWellFormed | app/app.py:198 | deleting a like by id keeps every constraint |
| Db.RemoveCommentKeepsWellFormed | app/app.py:331 | deleting a comment by id keeps every constraint |
| Db.LikeCountAfterAdd | app/app.py:168-170 | a new like raises its post's count by exactly 1 and leaves every other post's count unchanged |
| Db.LikeCountAfterRemove | app/app.py:198 | removing an existing like lowers its post's count by exactly 1 and leaves every other count unchanged |
| Db.RemoveAfterAddRestores | app/app.py:188-198 | unliking the like that was just added gives back the likes table as it was before |
| Db.UnlikeClearsPair | app/db.py:34 | with one like per pair, after the pair's like is removed no like for that pair remains |
| Db.UnknownPostHasNoLikes | app/app.py:215-218 | a post id that no post has has a like count of 0, not an error |
| Db.UnknownPostHasNoComments | app/app.py:292-295 | a post id that no post has selects no comments |
| Schema.Search | app/schema.py:35-40 | `re.search` of a one-character class is true exactly when some character of the string is in the class |
| Schema.ValidateUsername | app/schema.py:20-27 | accepts exactly names of length at least 3 that are all alphanumeric, and returns them unchanged; the length error comes first, then the alphanumeric error |
| Schema.ValidatePassword | app/schema.py:29-41 | accepts exactly passwords of length at least 8 with an uppercase letter, a lowercase letter and a digit, returned unchanged; otherwise the first failing check, in the order length, upper, lower, digit, names the message |
| Schema.UsernameRevalidates | app/schema.py:27 | an accepted username is accepted again, unchanged |
| Schema.PasswordRevalidates | app/schema.py:41 | an accepted password is accepted again, unchanged |
| Schema.ShortNameReportsLength | app/schema.py:23-26 | for every name: the length error exactly when it is shorter than 3, whatever its characters; the alphanumeric error exactly when it is long enough but not alphanumeric |
| Schema.PasswordLengthFirst | app/schema.py:33-34 | for every password: the length error exactly when it is shorter than 8, whatever classes it lacks |
| Schema.PasswordUpperBeforeLower | app/schema.py:35-36 | for every password: the upper-case error exactly when it is long enough and has no upper-case letter, whatever else it lacks |
| Schema.PasswordLowerBeforeDigit | app/schema.py:37-38 | for every password: the lower-case error exactly when it is long enough, has an upper-case letter and no lower-case one |
| Schema.PasswordDigitLast | app/schema.py:39-40 | for every password: the number error exactly when it is long enough, has both letter cases and no digit |
| Schema.PasswordAccepted | app/schema.py:41 | for every password: accepted unchanged exactly when all four checks hold |
| App.ObservedStatus | app/app.py:119-120 | the client receives the route's success status (200, or 204 for `delete_account`) on success, and 500 exactly on an error |
| App.ErrorsShareStatus | app/app.py:173-174 | every handler error arrives with the same status code, 500; a NotFound raised as 404 arrives as 500 |
| App.FileType | app/app.py:56 | the stored `file_type` is always `video` or `image` |
| App.FileTypeIsVideoIff | app/app.py:56 | `file_type` is `video` exactly when the content type is `video/` followed by anything, and `image` otherwise |
| App.Store.UploadFile | app/app.py:49-66 | with no result or an empty file id: UploadFailed, no post added; otherwise exactly one post is added, with a fresh id, the caller's id and username, the caption, the host's url, name and file id, the derived `file_type` and the table's timestamp; other tables unchanged |
| App.Store.GetFeed | app/app.py:76-95 | the entries are the posts' entries rearranged (the same multiset, so exactly one per post), with non-increasing timestamps; the owner id and media reference are not exposed |
| App.Store.DeletePost | app/app.py:102-118 | malformed id, NotFound or Forbidden leave all tables and the remote log unchanged; otherwise the post's media id is logged as remotely deleted, then exactly that post with its likes and comments is removed |
| App.Store.DeleteAccount | app/app.py:131-134 | the new state is the declared cascade of deleting the caller; integrity is kept; no media asset is deleted |
| App.Store.LikePost | app/app.py:147-172 | unknown post gives NotFound and an existing (post, caller) like gives AlreadyLiked, both leaving the likes unchanged; otherwise exactly Like(fresh id, post, caller) is appended and the post's count rises by 1 |
| App.Store.UnlikePost | app/app.py:185-201 | no like for (post, caller) gives NotFound whether or not the post exists; otherwise exactly that like is removed, the count drops by 1 and no like for the pair remains |
| App.Store.LikesCount | app/app.py:212-220 | a malformed id is an error; otherwise the number of likes whose post id matches, with no check that the post exists |
| App.Store.UserLiked | app/app.py:231-243 | true exactly when the id parses and a like by the caller on that post exists; false on a malformed id instead of an error |
| App.Store.CommentPost | app/app.py:254-279 | unknown post gives NotFound and adds nothing; otherwise exactly one comment with a fresh id, the post id, the caller's id and username and the content as given is appended, and returned as an entry |
| App.Store.PostComments | app/app.py:290-308 | the entries are the post's comments' entries rearranged (the same multiset, so each comment once), with non-increasing timestamps; a malformed id is an error; an unknown post gives an empty list |
| App.Store.DeleteComment | app/app.py:320-334 | unknown id gives NotFound; a caller other than the author gives Forbidden, even when the caller owns the post; otherwise exactly that one comment is removed and nothing else changes |
| App.LikeUnlikeScenario | app/app.py:147-201 | for every valid store and post the caller has not liked: the like succeeds, the unlike succeeds and restores the likes table, and a second unlike gives NotFound |
| App.LikeTwiceScenario | app/app.py:147-172 | for every valid store and post the caller has not liked: the first like succeeds and raises the count by 1, the second gives AlreadyLiked, and the caller is then reported as having liked it |
| App.OwnerDeleteScenario | app/app.py:102-118 | for every valid store: the owner's delete of an existing post succeeds, logs its asset as remotely deleted, leaves it no likes, and any user's unlike of it then gives NotFound |

## Left out

- The frontend (Streamlit pages, session state, HTTP calls). Its like/unlike
  toggle only calls the handlers modelled here.
- The media host's upload call (app/app.py:42-47). Its result is an input of
  `UploadFile`, and reading and closing the uploaded file are left out. When
  the upload succeeds but the content type is missing, the uploaded asset is
  left orphaned; the model does not track uploaded assets.
- The media host's delete call. It is a ghost log entry plus a flag saying
  whether the call raised.
- FastAPI routing and dependency injection, and the identity library's
  register, login, verify, reset and profile routes. Registration itself,
  and so the creation of users, is not modelled; only its two validators
  are. Profile updates of the username are not modelled.
- The identity library's own columns: password hash, active, verified and
  superuser flags. The unique `email` comes from the library's user table,
  which is not part of this model; the model keeps it as a unique column.
  `EmailStr` validation is left out.
- SQLAlchemy sessions, commit, rollback and refresh, and table creation.
  Each handler is one atomic step, and a failing commit is not modelled.
- Concurrency. Two simultaneous `like_post` calls are settled by the
  database's unique constraint. The model checks likes one at a time.
- `uuid.UUID` parsing. It is abstract: the handlers take `Option<Id>`.
- `uuid4` defaults. A new row gets `FreshKey` of its table, which is one more
  than the largest id there. The model relies only on its freshness.
- Datetime serialisation (`isoformat`, naive or aware values). A timestamp is
  an opaque integer, and ids are not turned into strings.
- `PostCreate` (app/schema.py:6-8), which nothing uses.
- Unicode character classes. `str.isalnum` and `\d` accept non-ASCII letters
  and digits; the model's `IsAlnum` and `IsDigit` are ASCII only.
  `[A-Z]` and `[a-z]` are ASCII in the source too. Pydantic's wrapping of
  the messages is left out.
- The order of rows that share a timestamp. The database leaves it open; the
  model's sort picks one order, and only the non-increasing order is claimed.
- App.Store.DeleteAccount: follows the declared `ondelete="CASCADE"` rules.
  The user's ORM relationships (app/db.py:53-55) declare no ORM cascade and
  the foreign keys are non-null, so the ORM may try to null them and fail
  instead. That behaviour is not visible in the source and is not modelled.
- The error `detail` text of the 500 responses. Only the status code is
  modelled.
