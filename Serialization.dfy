/**
  The `to_dict` serialisers of User, Post and Comment.

  Each serialiser takes a `fuel` bound standing for the interpreter's
  recursion limit: a call made with no fuel left fails with
  `RecursionLimit`, as a Python call beyond the limit raises. Fields are
  evaluated in the order of the dict literal, so the first failing field
  decides the error.
 */
module Serialization {
  import opened Wrappers
  import opened JsonValue
  import opened Tables
  import opened Models

  datatype SerializeError =
    | RecursionLimit     // the recursion limit was reached
    | NoMediaSerializer  // a Media row has no `to_dict`
    | MissingAuthor      // `Comment.user` is absent: its author id names no user
    | MissingPost        // `Comment.post` is absent: its post id names no post

  function IdList(ids: seq<int>): Json {
    JList(seq(|ids|, i requires 0 <= i < |ids| => JInt(ids[i])))
  }

  /** The dict literal of `User.to_dict`, given its serialised parts. */
  function UserObject(u: User, posts: seq<Json>, comments: seq<Json>, followers: seq<int>, following: seq<int>): Json {
    JObject(map[
      "id" := JInt(u.id),
      "username" := JStr(u.username),
      "first_name" := JStr(u.firstName),
      "last_name" := JStr(u.lastName),
      "email" := JStr(u.email),
      "posts" := JList(posts),
      "comments" := JList(comments),
      "followers" := IdList(followers),
      "following" := IdList(following)
    ])
  }

  /** The dict literal of `Post.to_dict`, given its serialised parts. */
  function PostObject(p: Post, comments: seq<Json>, media: seq<Json>): Json {
    JObject(map[
      "id" := JInt(p.id),
      "user_id" := JInt(p.userId),
      "content" := JStr(p.content),
      "comments" := JList(comments),
      "media" := JList(media)
    ])
  }

  /** The dict literal of `Comment.to_dict`: the author serialised in full, the post by id. */
  function CommentObject(c: Comment, author: Json, postId: int): Json {
    JObject(map[
      "id" := JInt(c.id),
      "comment_text" := JStr(c.commentText),
      "author_id" := JInt(c.authorId),
      "post_id" := JInt(c.postId),
      "author" := author,
      "post" := JInt(postId)
    ])
  }

  /** `User.to_dict`. */
  function UserToDict(db: Database, u: User, fuel: nat): Result<Json, SerializeError>
    decreases fuel, 0
  {
    if fuel == 0 then Failure(RecursionLimit)
    else
      match PostsToDicts(db, PostsOf(db, u.id), fuel - 1)
      case Failure(e) => Failure(e)
      case Success(posts) =>
      match CommentsToDicts(db, CommentsBy(db, u.id), fuel - 1)
      case Failure(e) => Failure(e)
      case Success(comments) =>
      Success(UserObject(u, posts, comments, FollowerIds(db, u.id), FollowingIds(db, u.id)))
  }

  /** `Post.to_dict`. */
  function PostToDict(db: Database, p: Post, fuel: nat): Result<Json, SerializeError>
    decreases fuel, 0
  {
    if fuel == 0 then Failure(RecursionLimit)
    else
      match CommentsToDicts(db, CommentsOn(db, p.id), fuel - 1)
      case Failure(e) => Failure(e)
      case Success(comments) =>
      match MediaToDicts(MediaOf(db, p.id))
      case Failure(e) => Failure(e)
      case Success(media) =>
      Success(PostObject(p, comments, media))
  }

  /** `Comment.to_dict`: the author in full, the post by id only. */
  function CommentToDict(db: Database, c: Comment, fuel: nat): Result<Json, SerializeError>
    decreases fuel, 0
  {
    if fuel == 0 then Failure(RecursionLimit)
    else
      match UserById(db, c.authorId)
      case None => Failure(MissingAuthor)
      case Some(author) =>
      match UserToDict(db, author, fuel - 1)
      case Failure(e) => Failure(e)
      case Success(authorDict) =>
      match PostById(db, c.postId)
      case None => Failure(MissingPost)
      case Some(post) =>
      Success(CommentObject(c, authorDict, post.id))
  }

  /** `[post.to_dict() for post in ps]`. */
  function PostsToDicts(db: Database, ps: seq<Post>, fuel: nat): Result<seq<Json>, SerializeError>
    decreases fuel, |ps|
  {
    if ps == [] then Success([])
    else
      match PostToDict(db, ps[0], fuel)
      case Failure(e) => Failure(e)
      case Success(first) =>
      match PostsToDicts(db, ps[1..], fuel)
      case Failure(e) => Failure(e)
      case Success(rest) => Success([first] + rest)
  }

  /** `[comment.to_dict() for comment in cs]`. */
  function CommentsToDicts(db: Database, cs: seq<Comment>, fuel: nat): Result<seq<Json>, SerializeError>
    decreases fuel, |cs|
  {
    if cs == [] then Success([])
    else
      match CommentToDict(db, cs[0], fuel)
      case Failure(e) => Failure(e)
      case Success(first) =>
      match CommentsToDicts(db, cs[1..], fuel)
      case Failure(e) => Failure(e)
      case Success(rest) => Success([first] + rest)
  }

  /** `[media_item.to_dict() for media_item in ms]`: Media defines no `to_dict`, so the first item fails. */
  function MediaToDicts(ms: seq<Media>): Result<seq<Json>, SerializeError>
  {
    if ms == [] then Success([]) else Failure(NoMediaSerializer)
  }

  // ---------------------------------------------------------------------
  // The list comprehensions

  /** A list of posts serialises exactly when each post does, one entry per post, in order. */
  lemma {:induction false} PostsToDictsSpec(db: Database, ps: seq<Post>, fuel: nat)
    ensures PostsToDicts(db, ps, fuel).Success?
        <==> forall i :: 0 <= i < |ps| ==> PostToDict(db, ps[i], fuel).Success?
    ensures PostsToDicts(db, ps, fuel).Success? ==>
      var items := PostsToDicts(db, ps, fuel).value;
      |items| == |ps| && forall i :: 0 <= i < |ps| ==> PostToDict(db, ps[i], fuel) == Success(items[i])
    decreases |ps|
  {
    if ps != [] {
      var head := PostToDict(db, ps[0], fuel);
      var tail := PostsToDicts(db, ps[1..], fuel);
      PostsToDictsSpec(db, ps[1..], fuel);
      assert forall i :: 1 <= i < |ps| ==> ps[1..][i - 1] == ps[i];
      if head.Success? && tail.Success? {
        assert PostsToDicts(db, ps, fuel) == Success([head.value] + tail.value);
      } else {
        assert !PostsToDicts(db, ps, fuel).Success?;
      }
    }
  }

  /** A list of comments serialises exactly when each comment does, one entry per comment, in order. */
  lemma {:induction false} CommentsToDictsSpec(db: Database, cs: seq<Comment>, fuel: nat)
    ensures CommentsToDicts(db, cs, fuel).Success?
        <==> forall i :: 0 <= i < |cs| ==> CommentToDict(db, cs[i], fuel).Success?
    ensures CommentsToDicts(db, cs, fuel).Success? ==>
      var items := CommentsToDicts(db, cs, fuel).value;
      |items| == |cs| && forall i :: 0 <= i < |cs| ==> CommentToDict(db, cs[i], fuel) == Success(items[i])
    decreases |cs|
  {
    if cs != [] {
      var head := CommentToDict(db, cs[0], fuel);
      var tail := CommentsToDicts(db, cs[1..], fuel);
      CommentsToDictsSpec(db, cs[1..], fuel);
      assert forall i :: 1 <= i < |cs| ==> cs[1..][i - 1] == cs[i];
      if head.Success? && tail.Success? {
        assert CommentsToDicts(db, cs, fuel) == Success([head.value] + tail.value);
      } else {
        assert !CommentsToDicts(db, cs, fuel).Success?;
      }
    }
  }

  // ---------------------------------------------------------------------
  // What a serialised record holds

  const UserKeys: set<string> :=
    {"id", "username", "first_name", "last_name", "email", "posts", "comments", "followers", "following"}
  const PostKeys: set<string> := {"id", "user_id", "content", "comments", "media"}
  const CommentKeys: set<string> := {"id", "comment_text", "author_id", "post_id", "author", "post"}

  lemma UserObjectFields(u: User, posts: seq<Json>, comments: seq<Json>, followers: seq<int>, following: seq<int>)
    ensures var j := UserObject(u, posts, comments, followers, following);
      && j.fields.Keys == UserKeys
      && Get(j, "id") == Some(JInt(u.id))
      && Get(j, "username") == Some(JStr(u.username))
      && Get(j, "first_name") == Some(JStr(u.firstName))
      && Get(j, "last_name") == Some(JStr(u.lastName))
      && Get(j, "email") == Some(JStr(u.email))
      && Get(j, "posts") == Some(JList(posts))
      && Get(j, "comments") == Some(JList(comments))
      && Get(j, "followers") == Some(IdList(followers))
      && Get(j, "following") == Some(IdList(following))
  {
  }

  lemma PostObjectFields(p: Post, comments: seq<Json>, media: seq<Json>)
    ensures var j := PostObject(p, comments, media);
      && j.fields.Keys == PostKeys
      && Get(j, "id") == Some(JInt(p.id))
      && Get(j, "user_id") == Some(JInt(p.userId))
      && Get(j, "content") == Some(JStr(p.content))
      && Get(j, "comments") == Some(JList(comments))
      && Get(j, "media") == Some(JList(media))
  {
  }

  lemma CommentObjectFields(c: Comment, author: Json, postId: int)
    ensures var j := CommentObject(c, author, postId);
      && j.fields.Keys == CommentKeys
      && Get(j, "id") == Some(JInt(c.id))
      && Get(j, "comment_text") == Some(JStr(c.commentText))
      && Get(j, "author_id") == Some(JInt(c.authorId))
      && Get(j, "post_id") == Some(JInt(c.postId))
      && Get(j, "author") == Some(author)
      && Get(j, "post") == Some(JInt(postId))
  {
  }

  /**
    A serialised user has exactly the nine keys of `User.to_dict`, copies the
    five scalar columns unchanged and lists its follower and followed ids.
   */
  lemma UserDictFields(db: Database, u: User, fuel: nat, j: Json)
    requires UserToDict(db, u, fuel) == Success(j)
    ensures j.JObject? && j.fields.Keys == UserKeys
    ensures Get(j, "id") == Some(JInt(u.id))
    ensures Get(j, "username") == Some(JStr(u.username))
    ensures Get(j, "first_name") == Some(JStr(u.firstName))
    ensures Get(j, "last_name") == Some(JStr(u.lastName))
    ensures Get(j, "email") == Some(JStr(u.email))
    ensures Get(j, "followers") == Some(IdList(FollowerIds(db, u.id)))
    ensures Get(j, "following") == Some(IdList(FollowingIds(db, u.id)))
  {
    var posts := PostsToDicts(db, PostsOf(db, u.id), fuel - 1).value;
    var comments := CommentsToDicts(db, CommentsBy(db, u.id), fuel - 1).value;
    assert j == UserObject(u, posts, comments, FollowerIds(db, u.id), FollowingIds(db, u.id));
    UserObjectFields(u, posts, comments, FollowerIds(db, u.id), FollowingIds(db, u.id));
  }

  /**
    A serialised user lists, under "posts", one entry per post it owns and,
    under "comments", one entry per comment it wrote, each that row's own
    serialisation one level deeper, in table order.
   */
  lemma UserDictLists(db: Database, u: User, fuel: nat, j: Json)
    requires UserToDict(db, u, fuel) == Success(j)
    ensures fuel >= 1
    ensures var posts := Get(j, "posts"); var ps := PostsOf(db, u.id);
      && posts.Some? && posts.value.JList? && |posts.value.items| == |ps|
      && forall i :: 0 <= i < |ps| ==> PostToDict(db, ps[i], fuel - 1) == Success(posts.value.items[i])
    ensures var comments := Get(j, "comments"); var cs := CommentsBy(db, u.id);
      && comments.Some? && comments.value.JList? && |comments.value.items| == |cs|
      && forall i :: 0 <= i < |cs| ==> CommentToDict(db, cs[i], fuel - 1) == Success(comments.value.items[i])
  {
    var posts := PostsToDicts(db, PostsOf(db, u.id), fuel - 1).value;
    var comments := CommentsToDicts(db, CommentsBy(db, u.id), fuel - 1).value;
    assert j == UserObject(u, posts, comments, FollowerIds(db, u.id), FollowingIds(db, u.id));
    UserObjectFields(u, posts, comments, FollowerIds(db, u.id), FollowingIds(db, u.id));
    PostsToDictsSpec(db, PostsOf(db, u.id), fuel - 1);
    CommentsToDictsSpec(db, CommentsBy(db, u.id), fuel - 1);
  }

  /**
    A serialised post has exactly the five keys of `Post.to_dict`, copies its
    scalar columns, lists one entry per comment made on it (each that
    comment's serialisation) and an empty media list: a post with media
    never serialises.
   */
  lemma PostDictFields(db: Database, p: Post, fuel: nat, j: Json)
    requires PostToDict(db, p, fuel) == Success(j)
    ensures fuel >= 1
    ensures j.JObject? && j.fields.Keys == PostKeys
    ensures Get(j, "id") == Some(JInt(p.id))
    ensures Get(j, "user_id") == Some(JInt(p.userId))
    ensures Get(j, "content") == Some(JStr(p.content))
    ensures var comments := Get(j, "comments"); var cs := CommentsOn(db, p.id);
      && comments.Some? && comments.value.JList? && |comments.value.items| == |cs|
      && forall i :: 0 <= i < |cs| ==> CommentToDict(db, cs[i], fuel - 1) == Success(comments.value.items[i])
    ensures Get(j, "media") == Some(JList([])) && MediaOf(db, p.id) == []
  {
    var comments := CommentsToDicts(db, CommentsOn(db, p.id), fuel - 1).value;
    assert MediaOf(db, p.id) == [];
    assert j == PostObject(p, comments, []);
    PostObjectFields(p, comments, []);
    CommentsToDictsSpec(db, CommentsOn(db, p.id), fuel - 1);
  }

  /**
    A serialised comment has exactly the six keys of `Comment.to_dict`,
    copies its columns, embeds its author's full serialisation (whose "id"
    is the comment's author id) and gives its post by id only.
   */
  lemma CommentDictFields(db: Database, c: Comment, fuel: nat, j: Json)
    requires CommentToDict(db, c, fuel) == Success(j)
    ensures fuel >= 1 && HasUser(db, c.authorId) && HasPost(db, c.postId)
    ensures j.JObject? && j.fields.Keys == CommentKeys
    ensures Get(j, "id") == Some(JInt(c.id))
    ensures Get(j, "comment_text") == Some(JStr(c.commentText))
    ensures Get(j, "author_id") == Some(JInt(c.authorId))
    ensures Get(j, "post_id") == Some(JInt(c.postId))
    ensures Get(j, "post") == Some(JInt(c.postId))
    ensures var author := Get(j, "author");
      && author.Some?
      && UserToDict(db, UserById(db, c.authorId).value, fuel - 1) == Success(author.value)
      && Get(author.value, "id") == Some(JInt(c.authorId))
  {
    var author := UserById(db, c.authorId).value;
    var authorDict := UserToDict(db, author, fuel - 1).value;
    var post := PostById(db, c.postId).value;
    assert j == CommentObject(c, authorDict, post.id);
    CommentObjectFields(c, authorDict, post.id);
    UserDictFields(db, author, fuel - 1, authorDict);
  }

  // ---------------------------------------------------------------------
  // When serialisation returns

  predicate WroteNoComment(db: Database, userId: int) {
    forall c :: c in db.comments ==> c.authorId != userId
  }

  predicate Uncommented(db: Database, postId: int) {
    forall c :: c in db.comments ==> c.postId != postId
  }

  predicate WithoutMedia(db: Database, postId: int) {
    forall m :: m in db.media ==> m.postId != postId
  }

  /**
    `User.to_dict` never returns for a user who wrote a stored comment: the
    user's dict embeds the comment, whose dict embeds its author in full,
    which is the same user again. No recursion limit is large enough.
   */
  lemma {:induction false} AuthorNeverSerialises(db: Database, c: Comment, u: User, fuel: nat)
    requires c in db.comments && c.authorId == u.id
    ensures !UserToDict(db, u, fuel).Success?
    decreases fuel
  {
    if fuel > 0 {
      var cs := CommentsBy(db, u.id);
      assert c in cs;
      var k :| 0 <= k < |cs| && cs[k] == c;
      assert !CommentToDict(db, c, fuel - 1).Success? by {
        if fuel >= 2 {
          var author := UserById(db, c.authorId);
          if author.Some? {
            AuthorNeverSerialises(db, c, author.value, fuel - 2);
          }
        }
      }
      CommentsToDictsSpec(db, cs, fuel - 1);
    }
  }

  /** Hence `Comment.to_dict` never returns for a stored comment. */
  lemma StoredCommentNeverSerialises(db: Database, c: Comment, fuel: nat)
    requires c in db.comments
    ensures !CommentToDict(db, c, fuel).Success?
  {
    if fuel > 0 {
      var author := UserById(db, c.authorId);
      if author.Some? {
        AuthorNeverSerialises(db, c, author.value, fuel - 1);
      }
    }
  }

  /** `Post.to_dict` returns exactly for a post with no comments and no media, given one level of depth. */
  lemma PostSerialises(db: Database, p: Post, fuel: nat)
    ensures PostToDict(db, p, fuel).Success?
        <==> fuel >= 1 && Uncommented(db, p.id) && WithoutMedia(db, p.id)
  {
    if fuel >= 1 {
      var cs := CommentsOn(db, p.id);
      var ms := MediaOf(db, p.id);
      CommentsToDictsSpec(db, cs, fuel - 1);
      if cs != [] {
        assert cs[0] in cs;
        StoredCommentNeverSerialises(db, cs[0], fuel - 1);
      } else {
        assert Uncommented(db, p.id);
      }
      if ms != [] {
        assert ms[0] in ms;
      } else {
        assert WithoutMedia(db, p.id);
      }
    }
  }

  /** The posts of a user serialise exactly when none of them has comments or media. */
  lemma OwnPostsSerialise(db: Database, userId: int, fuel: nat)
    ensures PostsToDicts(db, PostsOf(db, userId), fuel).Success?
        <==> forall p :: p in db.posts && p.userId == userId ==>
               fuel >= 1 && Uncommented(db, p.id) && WithoutMedia(db, p.id)
  {
    var ps := PostsOf(db, userId);
    PostsToDictsSpec(db, ps, fuel);
    forall p | p in ps
      ensures PostToDict(db, p, fuel).Success? <==> fuel >= 1 && Uncommented(db, p.id) && WithoutMedia(db, p.id)
    {
      PostSerialises(db, p, fuel);
    }
  }

  /** The comments of a user serialise exactly when there are none. */
  lemma OwnCommentsSerialise(db: Database, userId: int, fuel: nat)
    ensures CommentsToDicts(db, CommentsBy(db, userId), fuel).Success? <==> WroteNoComment(db, userId)
  {
    var cs := CommentsBy(db, userId);
    if WroteNoComment(db, userId) {
      FilterEmpty(db.comments, (c: Comment) => c.authorId == userId);
    } else {
      var c :| c in db.comments && c.authorId == userId;
      assert c in cs;
      var k :| 0 <= k < |cs| && cs[k] == c;
      StoredCommentNeverSerialises(db, c, fuel);
      CommentsToDictsSpec(db, cs, fuel);
    }
  }

  /**
    `User.to_dict` returns exactly for a user who wrote no comment and whose
    posts have neither comments nor media, given enough depth to reach
    those posts.
   */
  lemma UserSerialises(db: Database, u: User, fuel: nat)
    ensures UserToDict(db, u, fuel).Success?
        <==> && fuel >= 1
             && WroteNoComment(db, u.id)
             && forall p :: p in db.posts && p.userId == u.id ==>
                  fuel >= 2 && Uncommented(db, p.id) && WithoutMedia(db, p.id)
  {
    if fuel >= 1 {
      OwnPostsSerialise(db, u.id, fuel - 1);
      OwnCommentsSerialise(db, u.id, fuel - 1);
    }
  }

  // ---------------------------------------------------------------------
  // How serialisation fails

  /** A comment whose author id names no user fails when its author is read. */
  lemma CommentMissingAuthor(db: Database, c: Comment, fuel: nat)
    requires fuel >= 1 && !HasUser(db, c.authorId)
    ensures CommentToDict(db, c, fuel) == Failure(MissingAuthor)
  {
  }

  /** A comment whose author serialises but whose post id names no post fails when its post is read. */
  lemma CommentMissingPost(db: Database, c: Comment, fuel: nat)
    requires fuel >= 1 && HasUser(db, c.authorId)
    requires UserToDict(db, UserById(db, c.authorId).value, fuel - 1).Success?
    requires !HasPost(db, c.postId)
    ensures CommentToDict(db, c, fuel) == Failure(MissingPost)
  {
  }

  /** A post without comments but with a media item fails on the media item, which has no `to_dict`. */
  lemma PostWithMediaFails(db: Database, p: Post, fuel: nat)
    requires fuel >= 1 && Uncommented(db, p.id) && !WithoutMedia(db, p.id)
    ensures PostToDict(db, p, fuel) == Failure(NoMediaSerializer)
  {
    FilterEmpty(db.comments, (c: Comment) => c.postId == p.id);
    var m :| m in db.media && m.postId == p.id;
    assert m in MediaOf(db, p.id);
  }

  predicate NotDangling<T>(r: Result<T, SerializeError>) {
    r.Failure? ==> r.error == RecursionLimit || r.error == NoMediaSerializer
  }

  /**
    In a database that meets the schema constraints every lookup succeeds,
    so serialisation can only fail by the recursion limit or on a media item.
   */
  lemma {:induction false} ValidUserNoDangling(db: Database, u: User, fuel: nat)
    requires Valid(db)
    ensures NotDangling(UserToDict(db, u, fuel))
    decreases fuel, 0
  {
    if fuel > 0 {
      ValidPostsNoDangling(db, PostsOf(db, u.id), fuel - 1);
      ValidCommentsNoDangling(db, CommentsBy(db, u.id), fuel - 1);
    }
  }

  lemma {:induction false} ValidPostNoDangling(db: Database, p: Post, fuel: nat)
    requires Valid(db)
    ensures NotDangling(PostToDict(db, p, fuel))
    decreases fuel, 0
  {
    if fuel > 0 {
      ValidCommentsNoDangling(db, CommentsOn(db, p.id), fuel - 1);
    }
  }

  lemma {:induction false} ValidCommentNoDangling(db: Database, c: Comment, fuel: nat)
    requires Valid(db) && c in db.comments
    ensures NotDangling(CommentToDict(db, c, fuel))
    decreases fuel, 0
  {
    if fuel > 0 {
      assert HasUser(db, c.authorId) && HasPost(db, c.postId);
      var author := UserById(db, c.authorId);
      ValidUserNoDangling(db, author.value, fuel - 1);
    }
  }

  lemma {:induction false} ValidPostsNoDangling(db: Database, ps: seq<Post>, fuel: nat)
    requires Valid(db)
    ensures NotDangling(PostsToDicts(db, ps, fuel))
    decreases fuel, |ps|
  {
    if ps != [] {
      ValidPostNoDangling(db, ps[0], fuel);
      ValidPostsNoDangling(db, ps[1..], fuel);
    }
  }

  lemma {:induction false} ValidCommentsNoDangling(db: Database, cs: seq<Comment>, fuel: nat)
    requires Valid(db) && forall c :: c in cs ==> c in db.comments
    ensures NotDangling(CommentsToDicts(db, cs, fuel))
    decreases fuel, |cs|
  {
    if cs != [] {
      assert cs[0] in cs;
      ValidCommentNoDangling(db, cs[0], fuel);
      ValidCommentsNoDangling(db, cs[1..], fuel);
    }
  }

  // ---------------------------------------------------------------------
  // A user without relations

  /**
    A user with no posts, no comments and no Follower rows on either side
    serialises to its five scalar columns and four empty lists.
   */
  lemma UnrelatedUserSerialises(db: Database, u: User, fuel: nat)
    requires forall p :: p in db.posts ==> p.userId != u.id
    requires WroteNoComment(db, u.id)
    requires forall f :: f in db.followers ==> f.userFromId != u.id && f.userToId != u.id
    ensures UserToDict(db, u, fuel) == if fuel == 0 then Failure(RecursionLimit) else Success(JObject(map[
        "id" := JInt(u.id),
        "username" := JStr(u.username),
        "first_name" := JStr(u.firstName),
        "last_name" := JStr(u.lastName),
        "email" := JStr(u.email),
        "posts" := JList([]),
        "comments" := JList([]),
        "followers" := JList([]),
        "following" := JList([])
      ]))
  {
    var ps, cs := PostsOf(db, u.id), CommentsBy(db, u.id);
    var fs, gs := FollowersOf(db, u.id), FollowingOf(db, u.id);
    FilterEmpty(db.posts, (p: Post) => p.userId == u.id);
    FilterEmpty(db.comments, (c: Comment) => c.authorId == u.id);
    FilterEmpty(db.followers, (f: Follower) => f.userToId == u.id);
    FilterEmpty(db.followers, (f: Follower) => f.userFromId == u.id);
    assert FollowerIds(db, u.id) == [] && FollowingIds(db, u.id) == [];
    assert IdList([]) == JList([]);
    if fuel > 0 {
      assert PostsToDicts(db, ps, fuel - 1) == Success([]);
      assert CommentsToDicts(db, cs, fuel - 1) == Success([]);
    }
  }

  // ---------------------------------------------------------------------
  // A worked example

  /** The database of the worked example: user 1 follows user 2, and nothing else is stored. */
  function FollowExampleDb(): Database {
    Database([Follower(1, 2)], [User(1, "ana", "Ana", "Diaz", "a@x.com"), User(2, "bo", "Bo", "Lee", "b@x.com")], [], [], [])
  }

  /** In the example, user 2 serialises with follower 1 and follows nobody. */
  lemma FollowedExample()
    ensures var r := UserToDict(FollowExampleDb(), User(2, "bo", "Bo", "Lee", "b@x.com"), 1);
      && r.Success?
      && Get(r.value, "followers") == Some(JList([JInt(1)]))
      && Get(r.value, "following") == Some(JList([]))
  {
    var db := FollowExampleDb();
    var empty := db.(followers := []);
    assert db == empty.(followers := empty.followers + [Follower(1, 2)]);
    FollowerIdsAppend(empty, Follower(1, 2), 2);
    FollowingIdsAppend(empty, Follower(1, 2), 2);
    assert FollowerIds(empty, 2) == [] && FollowingIds(empty, 2) == [];
    assert FollowerIds(db, 2) == [1] && FollowingIds(db, 2) == [];
    assert IdList([1]) == JList([JInt(1)]) && IdList([]) == JList([]);
    assert PostsOf(db, 2) == [] && CommentsBy(db, 2) == [];
  }

  /** In the example, user 1 serialises with no follower and follows user 2. */
  lemma FollowerExample()
    ensures var r := UserToDict(FollowExampleDb(), User(1, "ana", "Ana", "Diaz", "a@x.com"), 1);
      && r.Success?
      && Get(r.value, "followers") == Some(JList([]))
      && Get(r.value, "following") == Some(JList([JInt(2)]))
  {
    var db := FollowExampleDb();
    var empty := db.(followers := []);
    assert db == empty.(followers := empty.followers + [Follower(1, 2)]);
    FollowerIdsAppend(empty, Follower(1, 2), 1);
    FollowingIdsAppend(empty, Follower(1, 2), 1);
    assert FollowerIds(empty, 1) == [] && FollowingIds(empty, 1) == [];
    assert FollowerIds(db, 1) == [] && FollowingIds(db, 1) == [2];
    assert IdList([2]) == JList([JInt(2)]) && IdList([]) == JList([]);
    assert PostsOf(db, 1) == [] && CommentsBy(db, 1) == [];
  }
}
