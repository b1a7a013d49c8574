/** The request handlers of app/app.py over an in-memory copy of the
    database. Each handler runs as one atomic step; the authenticated caller
    arrives as the `User` row the authentication dependency loaded, and a
    path identifier arrives already parsed: `None` stands for a string that
    `uuid.UUID` rejects. */
module App {
  import opened Seqs
  import opened Db
  import opened Ordering

  datatype Error =
    | MalformedId         // `uuid.UUID(...)` raised ValueError
    | NotFound            // HTTPException 404
    | Forbidden           // HTTPException 403
    | AlreadyLiked        // HTTPException 400
    | UploadFailed        // the media host's result carried no file id
    | MissingContentType  // the upload had no content type, so `startswith` raised
    | RemoteDeleteFailed  // the media host's delete call raised

  datatype Result<+T> = Ok(value: T) | Err(error: Error)

  /** The result of a handler that answers only "success". */
  type Outcome = Result<()>

  /** The status code named by the `raise` that produces each error. */
  function RaisedStatus(e: Error): int {
    match e
    case NotFound => 404
    case Forbidden => 403
    case AlreadyLiked => 400
    case _ => 500
  }

  /** The success status of every route but `delete_account`. */
  const OkStatus := 200
  /** The `status_code` that `delete_account` declares. */
  const NoContentStatus := 204

  /** The status code the client receives from a handler whose route
      declares `success`: each handler's blanket `except Exception` turns
      every error, including its own 404, 403 and 400 exceptions, into a
      500. The error's text still travels in the response's `detail`; only
      the status is modelled. */
  function ObservedStatus<T>(r: Result<T>, success: int): (code: int)
    requires 200 <= success < 300
    ensures r.Ok? ==> code == success
    ensures r.Err? <==> code == 500
  {
    if r.Ok? then success else 500
  }

  /** The re-raise hides every status the handlers name: any two errors
      arrive with the same status code, and a raised 404 arrives as 500. */
  lemma ErrorsShareStatus(e: Error, f: Error, success: int)
    requires 200 <= success < 300
    ensures ObservedStatus<()>(Err(e), success) == ObservedStatus<()>(Err(f), success) == 500
    ensures RaisedStatus(NotFound) != ObservedStatus<()>(Err(NotFound), success)
  {
  }

  /** What the media host's upload call returns on success. */
  datatype UploadResult = UploadResult(fileId: string, url: string, name: string)

  /** `upload_result and getattr(upload_result, "file_id", None)`: a result is
      there and its file id is non-empty (an empty string is falsy). */
  predicate Uploaded(upload: Option<UploadResult>) {
    upload.Some? && upload.value.fileId != ""
  }

  predicate StartsWith(s: string, prefix: string) {
    |prefix| <= |s| && s[..|prefix|] == prefix
  }

  /** The `file_type` column of a new post, from the upload's content type. */
  function FileType(contentType: string): (kind: string)
    ensures kind == "video" || kind == "image"
  {
    if StartsWith(contentType, "video/") then "video" else "image"
  }

  /** A post is a video exactly when its content type is `video/` followed by
      anything; every other content type, `Video/mp4` and `videos/x` among
      them, gives an image. */
  lemma FileTypeIsVideoIff(contentType: string)
    ensures FileType(contentType) == "video" <==> exists rest :: contentType == "video/" + rest
  {
    if StartsWith(contentType, "video/") {
      assert contentType == "video/" + contentType[6..];
    } else {
      forall rest ensures contentType != "video/" + rest {
      }
    }
  }

  /** One entry of the feed: the post without its owner id and its media
      host reference. */
  datatype FeedEntry = FeedEntry(
    id: Id,
    username: string,
    caption: Option<string>,
    url: string,
    fileType: string,
    fileName: string,
    createdAt: Timestamp)

  function FeedEntryOf(p: Post): FeedEntry {
    FeedEntry(p.id, p.username, p.caption, p.url, p.fileType, p.fileName, p.createdAt)
  }

  /** One comment as the comment endpoints return it. */
  datatype CommentEntry = CommentEntry(id: Id, username: string, content: string, createdAt: Timestamp)

  function CommentEntryOf(c: Comment): CommentEntry {
    CommentEntry(c.id, c.username, c.content, c.createdAt)
  }

  function PostCreatedAt(p: Post): int { p.createdAt }
  function CommentCreatedAt(c: Comment): int { c.createdAt }

  function PostById(posts: seq<Post>, pid: Id): Option<Post> { Find(posts, PostWithId(pid)) }
  function LikeOf(likes: seq<Like>, pid: Id, uid: Id): Option<Like> { Find(likes, LikeBy(pid, uid)) }
  function CommentById(comments: seq<Comment>, cid: Id): Option<Comment> { Find(comments, CommentWithId(cid)) }

  /** `feed` lists the entries of `posts`, each once, newest first: the same
      multiset as the posts' entries, so one entry per post, every post's
      entry present and no other. */
  ghost predicate IsFeedOf(feed: seq<FeedEntry>, posts: seq<Post>) {
    && |feed| == |posts|
    && multiset(feed) == multiset(Map(posts, FeedEntryOf))
    && (forall i, j :: 0 <= i < j < |feed| ==> feed[i].createdAt >= feed[j].createdAt)
    && (forall p :: p in posts ==> FeedEntryOf(p) in feed)
    && (forall e :: e in feed ==> exists p :: p in posts && e == FeedEntryOf(p))
  }

  /** The feed built from `ordered`, a newest-first rearrangement of `posts`. */
  lemma FeedView(ordered: seq<Post>, posts: seq<Post>)
    requires multiset(ordered) == multiset(posts)
    requires NonIncreasing(ordered, PostCreatedAt)
    ensures IsFeedOf(Map(ordered, FeedEntryOf), posts)
  {
    MapPermutation(ordered, posts, FeedEntryOf);
    var feed := Map(ordered, FeedEntryOf);
    forall i, j | 0 <= i < j < |feed| ensures feed[i].createdAt >= feed[j].createdAt {
      MapAt(ordered, FeedEntryOf, i);
      MapAt(ordered, FeedEntryOf, j);
    }
  }

  /** The comment list built from `ordered`, a newest-first rearrangement of `on`. */
  lemma CommentView(ordered: seq<Comment>, on: seq<Comment>)
    requires multiset(ordered) == multiset(on)
    requires NonIncreasing(ordered, CommentCreatedAt)
    ensures var entries := Map(ordered, CommentEntryOf);
      && |entries| == |on|
      && multiset(entries) == multiset(Map(on, CommentEntryOf))
      && (forall i, j :: 0 <= i < j < |entries| ==> entries[i].createdAt >= entries[j].createdAt)
      && (forall c :: c in on ==> CommentEntryOf(c) in entries)
      && (forall e :: e in entries ==> exists c :: c in on && e == CommentEntryOf(c))
  {
    MapPermutation(ordered, on, CommentEntryOf);
    var entries := Map(ordered, CommentEntryOf);
    forall i, j | 0 <= i < j < |entries| ensures entries[i].createdAt >= entries[j].createdAt {
      MapAt(ordered, CommentEntryOf, i);
      MapAt(ordered, CommentEntryOf, j);
    }
  }

  class Store {
    var users: seq<User>
    var posts: seq<Post>
    var likes: seq<Like>
    var comments: seq<Comment>
    /** The asset ids handed to the media host's delete call, in call order. */
    ghost var remoteDeletes: seq<string>
    /** The `created_at` defaults. Each is computed once, when the table's
        class is defined, so every row inserted through the handlers gets the
        same value as every other row of its table. */
    const postStamp: Timestamp
    const likeStamp: Timestamp
    const commentStamp: Timestamp

    function Snapshot(): Tables
      reads this
    {
      Tables(users, posts, likes, comments)
    }

    ghost predicate Valid()
      reads this
    {
      WellFormed(Snapshot())
    }

    constructor (t: Tables, postStamp: Timestamp, likeStamp: Timestamp, commentStamp: Timestamp)
      requires WellFormed(t)
      ensures Valid() && Snapshot() == t && remoteDeletes == []
      ensures this.postStamp == postStamp && this.likeStamp == likeStamp && this.commentStamp == commentStamp
    {
      users, posts, likes, comments := t.users, t.posts, t.likes, t.comments;
      remoteDeletes := [];
      this.postStamp, this.likeStamp, this.commentStamp := postStamp, likeStamp, commentStamp;
    }

    /** `upload_file`, from the moment the media host has answered. */
    method UploadFile(caller: User, caption: string, contentType: Option<string>, upload: Option<UploadResult>)
      returns (r: Result<Post>)
      requires Valid() && caller in users
      modifies this
      ensures Valid()
      ensures users == old(users) && likes == old(likes) && comments == old(comments)
      ensures remoteDeletes == old(remoteDeletes)
      ensures !Uploaded(upload) ==> r == Err(UploadFailed) && posts == old(posts)
      ensures Uploaded(upload) && contentType.None? ==> r == Err(MissingContentType) && posts == old(posts)
      ensures Uploaded(upload) && contentType.Some? ==>
        && r == Ok(Post(FreshKey(old(posts), PostKey), caller.id, caller.username, upload.value.fileId,
                        Some(caption), upload.value.url, FileType(contentType.value), upload.value.name,
                        postStamp))
        && posts == old(posts) + [r.value]
    {
      if !Uploaded(upload) {
        return Err(UploadFailed);
      }
      if contentType.None? {
        return Err(MissingContentType);
      }
      var up := upload.value;
      var post := Post(FreshKey(posts, PostKey), caller.id, caller.username, up.fileId, Some(caption),
                       up.url, FileType(contentType.value), up.name, postStamp);
      AddPostKeepsWellFormed(Snapshot(), post);
      posts := posts + [post];
      r := Ok(post);
    }

    /** `get_feed`: every post, newest first, as feed entries. */
    method GetFeed() returns (feed: seq<FeedEntry>)
      ensures IsFeedOf(feed, posts)
    {
      var ordered := SortDesc(posts, PostCreatedAt);
      feed := [];
      for i := 0 to |ordered|
        invariant |feed| == i
        invariant forall k :: 0 <= k < i ==> feed[k] == FeedEntryOf(ordered[k])
      {
        feed := feed + [FeedEntryOf(ordered[i])];
      }
      MapPointwise(ordered, FeedEntryOf, feed);
      FeedView(ordered, posts);
    }

    /** `delete_post`: only the owner may delete; the media asset is deleted
        after both checks pass and before the local rows go. */
    method DeletePost(caller: User, postId: Option<Id>, remoteOk: bool) returns (r: Outcome)
      requires Valid()
      modifies this
      ensures Valid()
      ensures postId.None? ==> r == Err(MalformedId)
      ensures postId.Some? ==>
        var found := PostById(old(posts), postId.value);
        && (found.None? ==> r == Err(NotFound))
        && (found.Some? && found.value.userId != caller.id ==> r == Err(Forbidden))
        && (found.Some? && found.value.userId == caller.id ==>
              && remoteDeletes == old(remoteDeletes) + [found.value.imagekitFileId]
              && if remoteOk then r == Ok(()) && Snapshot() == Db.DeletePost(old(Snapshot()), postId.value)
                 else r == Err(RemoteDeleteFailed) && Snapshot() == old(Snapshot()))
      ensures r.Err? && r.error != RemoteDeleteFailed ==>
        Snapshot() == old(Snapshot()) && remoteDeletes == old(remoteDeletes)
    {
      if postId.None? {
        return Err(MalformedId);
      }
      var pid := postId.value;
      var found := PostById(posts, pid);
      if found.None? {
        return Err(NotFound);
      }
      if found.value.userId != caller.id {
        return Err(Forbidden);
      }
      remoteDeletes := remoteDeletes + [found.value.imagekitFileId];
      if !remoteOk {
        return Err(RemoteDeleteFailed);
      }
      DeletePostKeepsWellFormed(Snapshot(), pid);
      var t := Db.DeletePost(Snapshot(), pid);
      users, posts, likes, comments := t.users, t.posts, t.likes, t.comments;
      assert Snapshot() == t;
      r := Ok(());
    }

    /** `delete_account`: the user row goes and the declared cascades take
        the rest; no media asset is deleted. */
    method DeleteAccount(caller: User)
      requires Valid()
      modifies this
      ensures Valid()
      ensures Snapshot() == DeleteUser(old(Snapshot()), caller.id)
      ensures remoteDeletes == old(remoteDeletes)
    {
      var t := DeleteUser(Snapshot(), caller.id);
      DeleteUserKeepsWellFormed(Snapshot(), caller.id);
      users, posts, likes, comments := t.users, t.posts, t.likes, t.comments;
      assert Snapshot() == t;
    }

    /** `like_post`. */
    method LikePost(caller: User, postId: Option<Id>) returns (r: Outcome)
      requires Valid() && caller in users
      modifies this
      ensures Valid()
      ensures users == old(users) && posts == old(posts) && comments == old(comments)
      ensures remoteDeletes == old(remoteDeletes)
      ensures postId.None? ==> r == Err(MalformedId) && likes == old(likes)
      ensures postId.Some? ==>
        var pid := postId.value;
        && (PostById(old(posts), pid).None? ==> r == Err(NotFound) && likes == old(likes))
        && (PostById(old(posts), pid).Some? && LikeOf(old(likes), pid, caller.id).Some? ==>
              r == Err(AlreadyLiked) && likes == old(likes))
        && (PostById(old(posts), pid).Some? && LikeOf(old(likes), pid, caller.id).None? ==>
              && r == Ok(())
              && likes == old(likes) + [Like(FreshKey(old(likes), LikeKey), pid, caller.id, likeStamp)]
              && LikeCount(likes, pid) == LikeCount(old(likes), pid) + 1)
    {
      if postId.None? {
        return Err(MalformedId);
      }
      var pid := postId.value;
      if PostById(posts, pid).None? {
        return Err(NotFound);
      }
      if LikeOf(likes, pid, caller.id).Some? {
        return Err(AlreadyLiked);
      }
      var like := Like(FreshKey(likes, LikeKey), pid, caller.id, likeStamp);
      assert forall m :: m in likes ==> !LikeBy(pid, caller.id)(m);
      AddLikeKeepsWellFormed(Snapshot(), like);
      LikeCountAfterAdd(likes, like, pid);
      likes := likes + [like];
      r := Ok(());
    }

    /** `unlike_post`: looks only for the caller's like, so a missing like and
        a missing post give the same NotFound. */
    method UnlikePost(caller: User, postId: Option<Id>) returns (r: Outcome)
      requires Valid()
      modifies this
      ensures Valid()
      ensures users == old(users) && posts == old(posts) && comments == old(comments)
      ensures remoteDeletes == old(remoteDeletes)
      ensures postId.None? ==> r == Err(MalformedId) && likes == old(likes)
      ensures postId.Some? ==>
        var pid := postId.value;
        var found := LikeOf(old(likes), pid, caller.id);
        && (found.None? ==> r == Err(NotFound) && likes == old(likes))
        && (found.Some? ==>
              && r == Ok(())
              && likes == Filter(old(likes), LikeNot(found.value.id))
              && LikeCount(likes, pid) == LikeCount(old(likes), pid) - 1
              && LikeOf(likes, pid, caller.id).None?)
    {
      if postId.None? {
        return Err(MalformedId);
      }
      var pid := postId.value;
      var found := LikeOf(likes, pid, caller.id);
      if found.None? {
        return Err(NotFound);
      }
      var like := found.value;
      RemoveLikeKeepsWellFormed(Snapshot(), like.id);
      LikeCountAfterRemove(likes, like, pid);
      UnlikeClearsPair(likes, like);
      likes := Filter(likes, LikeNot(like.id));
      r := Ok(());
    }

    /** `get_likes_count`: never checks that the post exists. */
    function LikesCount(postId: Option<Id>): (r: Result<nat>)
      reads this
      ensures r.Ok? <==> postId.Some?
      ensures r.Ok? ==> r.value == |Filter(likes, LikeOn(postId.value))|
    {
      if postId.None? then Err(MalformedId) else Ok(LikeCount(likes, postId.value))
    }

    /** `check_user_liked`: fails open, so a malformed id reads as "not liked". */
    function UserLiked(caller: User, postId: Option<Id>): (liked: bool)
      reads this
      ensures liked <==> postId.Some? && exists l :: l in likes && l.postId == postId.value && l.userId == caller.id
    {
      postId.Some? && LikeOf(likes, postId.value, caller.id).Some?
    }

    /** `comment_post`: the content is stored as given. */
    method CommentPost(caller: User, postId: Option<Id>, content: string) returns (r: Result<CommentEntry>)
      requires Valid() && caller in users
      modifies this
      ensures Valid()
      ensures users == old(users) && posts == old(posts) && likes == old(likes)
      ensures remoteDeletes == old(remoteDeletes)
      ensures postId.None? ==> r == Err(MalformedId) && comments == old(comments)
      ensures postId.Some? ==>
        var pid := postId.value;
        var c := Comment(FreshKey(old(comments), CommentKey), pid, caller.id, caller.username, content, commentStamp);
        && (PostById(old(posts), pid).None? ==> r == Err(NotFound) && comments == old(comments))
        && (PostById(old(posts), pid).Some? ==> r == Ok(CommentEntryOf(c)) && comments == old(comments) + [c])
    {
      if postId.None? {
        return Err(MalformedId);
      }
      var pid := postId.value;
      var found := PostById(posts, pid);
      if found.None? {
        return Err(NotFound);
      }
      var c := Comment(FreshKey(comments, CommentKey), pid, caller.id, caller.username, content, commentStamp);
      assert found.value in posts;
      AddCommentKeepsWellFormed(Snapshot(), c);
      comments := comments + [c];
      r := Ok(CommentEntryOf(c));
    }

    /** `get_post_comments`: the post's comments, newest first; an unknown
        post has none. */
    function PostComments(postId: Option<Id>): (r: Result<seq<CommentEntry>>)
      reads this
      ensures r.Ok? <==> postId.Some?
      ensures r.Ok? ==>
        && |r.value| == |Filter(comments, CommentOn(postId.value))|
        && multiset(r.value) == multiset(Map(Filter(comments, CommentOn(postId.value)), CommentEntryOf))
        && (forall i, j :: 0 <= i < j < |r.value| ==> r.value[i].createdAt >= r.value[j].createdAt)
        && (forall c :: c in comments && c.postId == postId.value ==> CommentEntryOf(c) in r.value)
        && (forall e :: e in r.value ==> exists c :: c in comments && c.postId == postId.value && e == CommentEntryOf(c))
    {
      if postId.None? then Err(MalformedId)
      else
        var on := Filter(comments, CommentOn(postId.value));
        var ordered := SortDesc(on, CommentCreatedAt);
        var entries := Map(ordered, CommentEntryOf);
        CommentView(ordered, on);
        Ok(entries)
    }

    /** `delete_comment`: only the comment's author may delete it; the owner
        of the post has no say. */
    method DeleteComment(caller: User, commentId: Option<Id>) returns (r: Outcome)
      requires Valid()
      modifies this
      ensures Valid()
      ensures users == old(users) && posts == old(posts) && likes == old(likes)
      ensures remoteDeletes == old(remoteDeletes)
      ensures commentId.None? ==> r == Err(MalformedId) && comments == old(comments)
      ensures commentId.Some? ==>
        var found := CommentById(old(comments), commentId.value);
        && (found.None? ==> r == Err(NotFound) && comments == old(comments))
        && (found.Some? && found.value.userId != caller.id ==> r == Err(Forbidden) && comments == old(comments))
        && (found.Some? && found.value.userId == caller.id ==>
              && r == Ok(())
              && comments == Filter(old(comments), CommentNot(commentId.value))
              && |comments| == |old(comments)| - 1)
    {
      if commentId.None? {
        return Err(MalformedId);
      }
      var cid := commentId.value;
      var found := CommentById(comments, cid);
      if found.None? {
        return Err(NotFound);
      }
      if found.value.userId != caller.id {
        return Err(Forbidden);
      }
      RemoveCommentKeepsWellFormed(Snapshot(), cid);
      FilterRemovesOne(comments, found.value, CommentKey, CommentNot(cid));
      comments := Filter(comments, CommentNot(cid));
      r := Ok(());
    }
  }

  /** Liking a post twice: the first like is stored and counted, the second
      is refused and changes nothing. */
  method LikeTwiceScenario(store: Store, caller: User, pid: Id) returns (first: Outcome, second: Outcome)
    requires store.Valid() && caller in store.users
    requires PostById(store.posts, pid).Some? && LikeOf(store.likes, pid, caller.id).None?
    modifies store
    ensures first == Ok(()) && second == Err(AlreadyLiked)
    ensures store.Valid() && store.UserLiked(caller, Some(pid))
    ensures store.LikesCount(Some(pid)) == Ok(LikeCount(old(store.likes), pid) + 1)
  {
    ghost var like := Like(FreshKey(store.likes, LikeKey), pid, caller.id, store.likeStamp);
    first := store.LikePost(caller, Some(pid));
    assert like in store.likes && LikeBy(pid, caller.id)(like);
    second := store.LikePost(caller, Some(pid));
  }

  /** The owner deletes a post: its asset goes to the media host, its likes
      go with it, and anyone's unlike of it then finds nothing. */
  method OwnerDeleteScenario(store: Store, owner: User, other: User, pid: Id)
    returns (deleted: Outcome, unliked: Outcome)
    requires store.Valid()
    requires PostById(store.posts, pid).Some? && PostById(store.posts, pid).value.userId == owner.id
    modifies store
    ensures deleted == Ok(()) && unliked == Err(NotFound)
    ensures store.remoteDeletes == old(store.remoteDeletes) + [PostById(old(store.posts), pid).value.imagekitFileId]
    ensures store.Valid() && store.LikesCount(Some(pid)) == Ok(0)
  {
    deleted := store.DeletePost(owner, Some(pid), true);
    unliked := store.UnlikePost(other, Some(pid));
  }

  /** Liking and then unliking gives back the likes table; a second unlike
      finds nothing. */
  method LikeUnlikeScenario(store: Store, caller: User, pid: Id)
    returns (liked: Outcome, unliked: Outcome, again: Outcome)
    requires store.Valid() && caller in store.users
    requires PostById(store.posts, pid).Some? && LikeOf(store.likes, pid, caller.id).None?
    modifies store
    ensures liked == Ok(()) && unliked == Ok(()) && again == Err(NotFound)
    ensures store.Valid() && store.likes == old(store.likes)
  {
    ghost var before := store.likes;
    ghost var like := Like(FreshKey(before, LikeKey), pid, caller.id, store.likeStamp);
    var r := store.LikePost(caller, Some(pid));
    liked := r;
    assert r == Ok(());
    assert store.likes == before + [like];
    ghost var found := LikeOf(store.likes, pid, caller.id);
    assert found == Some(like) by {
      assert like in store.likes && LikeBy(pid, caller.id)(like);
      assert forall m :: m in before ==> !LikeBy(pid, caller.id)(m);
    }
    unliked := store.UnlikePost(caller, Some(pid));
    assert store.likes == before by {
      RemoveAfterAddRestores(before, like);
    }
    again := store.UnlikePost(caller, Some(pid));
  }
}
