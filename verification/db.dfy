/** The four tables of the feed database (app/db.py): their rows, the
    integrity rules the schema declares, and the cascading deletes. */
module Db {
  import opened Seqs

  /** Row identifiers; UUIDs in the database, abstract here. */
  type Id = nat
  /** A `created_at` value, treated as an opaque ordered quantity. */
  type Timestamp = int

  /** A user account. The credential hash and the verification and activity
      flags belong to the identity library and are not modelled. */
  datatype User = User(id: Id, email: string, username: string)

  /** A post; `caption` is the only nullable column. */
  datatype Post = Post(
    id: Id,
    userId: Id,
    username: string,
    imagekitFileId: string,
    caption: Option<string>,
    url: string,
    fileType: string,
    fileName: string,
    createdAt: Timestamp)

  datatype Like = Like(id: Id, postId: Id, userId: Id, createdAt: Timestamp)

  datatype Comment = Comment(
    id: Id,
    postId: Id,
    userId: Id,
    username: string,
    content: string,
    createdAt: Timestamp)

  datatype Tables = Tables(users: seq<User>, posts: seq<Post>, likes: seq<Like>, comments: seq<Comment>)

  // Keys of the primary-key and unique constraints.
  function UserKey(u: User): Id { u.id }
  function UsernameKey(u: User): string { u.username }
  function EmailKey(u: User): string { u.email }
  function PostKey(p: Post): Id { p.id }
  function LikeKey(l: Like): Id { l.id }
  function CommentKey(c: Comment): Id { c.id }
  /** The `unique_post_user_like` constraint's columns. */
  function LikePair(l: Like): (Id, Id) { (l.postId, l.userId) }

  function UserIds(users: seq<User>): set<Id> { set u | u in users :: u.id }
  function PostIds(posts: seq<Post>): set<Id> { set p | p in posts :: p.id }

  /** Every constraint the schema declares: primary keys, the unique
      username and email, one like per (post, user), and non-null foreign
      keys that point at existing rows. */
  ghost predicate WellFormed(t: Tables) {
    && Injective(t.users, UserKey)
    && Injective(t.users, UsernameKey)
    && Injective(t.users, EmailKey)
    && Injective(t.posts, PostKey)
    && Injective(t.likes, LikeKey)
    && Injective(t.comments, CommentKey)
    && Injective(t.likes, LikePair)
    && (forall p :: p in t.posts ==> p.userId in UserIds(t.users))
    && (forall l :: l in t.likes ==> l.postId in PostIds(t.posts) && l.userId in UserIds(t.users))
    && (forall c :: c in t.comments ==> c.postId in PostIds(t.posts) && c.userId in UserIds(t.users))
  }

  // Row selections, named so that every use of one denotes the same function.
  function UserNot(uid: Id): User -> bool { (u: User) => u.id != uid }
  function PostNot(pid: Id): Post -> bool { (p: Post) => p.id != pid }
  function PostNotBy(uid: Id): Post -> bool { (p: Post) => p.userId != uid }
  function LikeNot(lid: Id): Like -> bool { (l: Like) => l.id != lid }
  function LikeOn(pid: Id): Like -> bool { (l: Like) => l.postId == pid }
  function LikeNotOn(pid: Id): Like -> bool { (l: Like) => l.postId != pid }
  function CommentNot(cid: Id): Comment -> bool { (c: Comment) => c.id != cid }
  function CommentOn(pid: Id): Comment -> bool { (c: Comment) => c.postId == pid }
  function CommentNotOn(pid: Id): Comment -> bool { (c: Comment) => c.postId != pid }
  function PostWithId(pid: Id): Post -> bool { (p: Post) => p.id == pid }
  function LikeBy(pid: Id, uid: Id): Like -> bool { (l: Like) => l.postId == pid && l.userId == uid }
  function CommentWithId(cid: Id): Comment -> bool { (c: Comment) => c.id == cid }
  function LikeSurvives(uid: Id, gone: set<Id>): Like -> bool {
    (l: Like) => l.userId != uid && l.postId !in gone
  }
  function CommentSurvives(uid: Id, gone: set<Id>): Comment -> bool {
    (c: Comment) => c.userId != uid && c.postId !in gone
  }

  /** Number of likes on post `pid`: `count(Like.id) where post_id = pid`. */
  function LikeCount(likes: seq<Like>, pid: Id): nat { |Filter(likes, LikeOn(pid))| }

  /** Ids of the posts owned by `uid`. */
  function PostsOf(posts: seq<Post>, uid: Id): set<Id> { set p | p in posts && p.userId == uid :: p.id }

  /** Deleting post `pid`: the ORM's `delete-orphan` cascade on `Post.likes`
      and `Post.comments` (and the `ondelete` rule on their foreign keys)
      removes its likes and comments with it. */
  function DeletePost(t: Tables, pid: Id): (r: Tables)
    ensures r.users == t.users
    ensures forall p :: p in r.posts <==> p in t.posts && p.id != pid
    ensures forall l :: l in r.likes <==> l in t.likes && l.postId != pid
    ensures forall c :: c in r.comments <==> c in t.comments && c.postId != pid
    ensures LikeCount(r.likes, pid) == 0
  {
    var r := Tables(t.users, Filter(t.posts, PostNot(pid)), Filter(t.likes, LikeNotOn(pid)),
                    Filter(t.comments, CommentNotOn(pid)));
    FilterKeepsNone(r.likes, LikeOn(pid));
    r
  }

  /** Deleting user `uid`: the `ondelete="CASCADE"` foreign keys remove the
      user's posts, likes and comments, and the posts' own cascade removes
      every like and comment on those posts, whoever wrote them. */
  function DeleteUser(t: Tables, uid: Id): (r: Tables)
    ensures forall u :: u in r.users <==> u in t.users && u.id != uid
    ensures forall p :: p in r.posts <==> p in t.posts && p.userId != uid
    ensures forall l :: l in r.likes <==>
      l in t.likes && l.userId != uid && l.postId !in PostsOf(t.posts, uid)
    ensures forall c :: c in r.comments <==>
      c in t.comments && c.userId != uid && c.postId !in PostsOf(t.posts, uid)
  {
    var gone := PostsOf(t.posts, uid);
    Tables(Filter(t.users, UserNot(uid)), Filter(t.posts, PostNotBy(uid)),
           Filter(t.likes, LikeSurvives(uid, gone)), Filter(t.comments, CommentSurvives(uid, gone)))
  }

  lemma DeletePostKeepsWellFormed(t: Tables, pid: Id)
    requires WellFormed(t)
    ensures WellFormed(DeletePost(t, pid))
  {
    var r := DeletePost(t, pid);
    FilterInjective(t.posts, PostNot(pid), PostKey);
    FilterInjective(t.likes, LikeNotOn(pid), LikeKey);
    FilterInjective(t.likes, LikeNotOn(pid), LikePair);
    FilterInjective(t.comments, CommentNotOn(pid), CommentKey);
    forall l | l in r.likes ensures l.postId in PostIds(r.posts) {
      var p :| p in t.posts && p.id == l.postId;
      assert p in r.posts;
    }
    forall c | c in r.comments ensures c.postId in PostIds(r.posts) {
      var p :| p in t.posts && p.id == c.postId;
      assert p in r.posts;
    }
  }

  lemma DeleteUserKeepsWellFormed(t: Tables, uid: Id)
    requires WellFormed(t)
    ensures WellFormed(DeleteUser(t, uid))
  {
    var r := DeleteUser(t, uid);
    var gone := PostsOf(t.posts, uid);
    FilterInjective(t.users, UserNot(uid), UserKey);
    FilterInjective(t.users, UserNot(uid), UsernameKey);
    FilterInjective(t.users, UserNot(uid), EmailKey);
    FilterInjective(t.posts, PostNotBy(uid), PostKey);
    FilterInjective(t.likes, LikeSurvives(uid, gone), LikeKey);
    FilterInjective(t.likes, LikeSurvives(uid, gone), LikePair);
    FilterInjective(t.comments, CommentSurvives(uid, gone), CommentKey);
    forall p | p in r.posts ensures p.userId in UserIds(r.users) {
      var u :| u in t.users && u.id == p.userId;
      assert u in r.users;
    }
    forall l | l in r.likes ensures l.postId in PostIds(r.posts) && l.userId in UserIds(r.users) {
      var p :| p in t.posts && p.id == l.postId;
      assert p.userId != uid;
      assert p in r.posts;
      var u :| u in t.users && u.id == l.userId;
      assert u in r.users;
    }
    forall c | c in r.comments ensures c.postId in PostIds(r.posts) && c.userId in UserIds(r.users) {
      var p :| p in t.posts && p.id == c.postId;
      assert p.userId != uid;
      assert p in r.posts;
      var u :| u in t.users && u.id == c.userId;
      assert u in r.users;
    }
  }

  /** After an account is deleted nothing in the database refers to it:
      no post, like or comment carries its id, and no like or comment is left
      on one of its posts. */
  lemma DeleteUserLeavesNoTrace(t: Tables, uid: Id)
    requires WellFormed(t)
    ensures var r := DeleteUser(t, uid);
      && uid !in UserIds(r.users)
      && (forall p :: p in r.posts ==> p.userId != uid)
      && (forall l :: l in r.likes ==> l.userId != uid && l.postId !in PostsOf(t.posts, uid))
      && (forall c :: c in r.comments ==> c.userId != uid && c.postId !in PostsOf(t.posts, uid))
      && (forall p :: p in t.posts && p.userId == uid ==> LikeCount(r.likes, p.id) == 0)
  {
    var r := DeleteUser(t, uid);
    forall p | p in t.posts && p.userId == uid ensures LikeCount(r.likes, p.id) == 0 {
      assert p.id in PostsOf(t.posts, uid);
      FilterKeepsNone(r.likes, LikeOn(p.id));
    }
  }

  /** Inserting a like keeps the schema's rules when its id is new, its post
      and user exist, and the pair is not liked yet. */
  lemma AddLikeKeepsWellFormed(t: Tables, l: Like)
    requires WellFormed(t)
    requires l.postId in PostIds(t.posts) && l.userId in UserIds(t.users)
    requires forall m :: m in t.likes ==> m.id != l.id
    requires forall m :: m in t.likes ==> LikePair(m) != LikePair(l)
    ensures WellFormed(t.(likes := t.likes + [l]))
  {
  }

  lemma AddCommentKeepsWellFormed(t: Tables, c: Comment)
    requires WellFormed(t)
    requires c.postId in PostIds(t.posts) && c.userId in UserIds(t.users)
    requires forall d :: d in t.comments ==> d.id != c.id
    ensures WellFormed(t.(comments := t.comments + [c]))
  {
  }

  lemma AddPostKeepsWellFormed(t: Tables, p: Post)
    requires WellFormed(t)
    requires p.userId in UserIds(t.users)
    requires forall q :: q in t.posts ==> q.id != p.id
    ensures WellFormed(t.(posts := t.posts + [p]))
  {
  }

  lemma RemoveLikeKeepsWellFormed(t: Tables, lid: Id)
    requires WellFormed(t)
    ensures WellFormed(t.(likes := Filter(t.likes, LikeNot(lid))))
  {
    FilterInjective(t.likes, LikeNot(lid), LikeKey);
    FilterInjective(t.likes, LikeNot(lid), LikePair);
  }

  lemma RemoveCommentKeepsWellFormed(t: Tables, cid: Id)
    requires WellFormed(t)
    ensures WellFormed(t.(comments := Filter(t.comments, CommentNot(cid))))
  {
    FilterInjective(t.comments, CommentNot(cid), CommentKey);
  }

  /** A new like on `l.postId` raises that post's count by exactly one and
      leaves every other post's count alone. */
  lemma LikeCountAfterAdd(likes: seq<Like>, l: Like, pid: Id)
    ensures LikeCount(likes + [l], pid) == LikeCount(likes, pid) + (if l.postId == pid then 1 else 0)
  {
    FilterAppend(likes, [l], LikeOn(pid));
  }

  /** Removing an existing like, in a table with unique like ids, lowers its
      post's count by exactly one and leaves every other post's count alone. */
  lemma LikeCountAfterRemove(likes: seq<Like>, l: Like, pid: Id)
    requires Injective(likes, LikeKey)
    requires l in likes
    ensures LikeCount(Filter(likes, LikeNot(l.id)), pid) ==
            LikeCount(likes, pid) - (if l.postId == pid then 1 else 0)
  {
    FilterCommutes(likes, LikeNot(l.id), LikeOn(pid));
    var on := Filter(likes, LikeOn(pid));
    if l.postId == pid {
      FilterInjective(likes, LikeOn(pid), LikeKey);
      FilterRemovesOne(on, l, LikeKey, LikeNot(l.id));
    } else {
      FilterKeepsAll(on, LikeNot(l.id));
    }
  }

  /** Removing, by its id, a like that was just inserted with a fresh id gives
      back the table as it was before the insert. */
  lemma RemoveAfterAddRestores(likes: seq<Like>, l: Like)
    requires forall m :: m in likes ==> m.id != l.id
    ensures Filter(likes + [l], LikeNot(l.id)) == likes
  {
    FilterAppend(likes, [l], LikeNot(l.id));
    FilterKeepsAll(likes, LikeNot(l.id));
  }

  /** With one like per (post, user), removing the like found for a pair
      leaves no like for that pair. */
  lemma UnlikeClearsPair(likes: seq<Like>, l: Like)
    requires Injective(likes, LikePair)
    requires l in likes
    ensures forall m :: m in Filter(likes, LikeNot(l.id)) ==> LikePair(m) != LikePair(l)
  {
  }

  /** A post id that no post has carries no likes: the like's foreign key
      must point at an existing post. */
  lemma UnknownPostHasNoLikes(t: Tables, pid: Id)
    requires WellFormed(t)
    requires pid !in PostIds(t.posts)
    ensures LikeCount(t.likes, pid) == 0
  {
    FilterKeepsNone(t.likes, LikeOn(pid));
  }

  lemma UnknownPostHasNoComments(t: Tables, pid: Id)
    requires WellFormed(t)
    requires pid !in PostIds(t.posts)
    ensures Filter(t.comments, CommentOn(pid)) == []
  {
    FilterKeepsNone(t.comments, CommentOn(pid));
  }
}
