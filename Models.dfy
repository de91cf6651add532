/**
  The five record types of the schema and the relationships between them.
  Storage is an explicit in-memory database: one sequence of rows per table.
  Each relationship is a selection over a table by foreign key, and each
  many-to-one link is a lookup by primary key.
 */
module Models {
  import opened Wrappers
  import opened Tables

  /** "user_from follows user_to"; the pair is the composite primary key. */
  datatype Follower = Follower(userFromId: int, userToId: int)

  datatype User = User(id: int, username: string, firstName: string, lastName: string, email: string)

  datatype Post = Post(id: int, userId: int, content: string)

  datatype Comment = Comment(id: int, commentText: string, authorId: int, postId: int)

  datatype Media = Media(id: int, mediaType: string, url: string, postId: int)

  datatype Database = Database(
    followers: seq<Follower>,
    users: seq<User>,
    posts: seq<Post>,
    comments: seq<Comment>,
    media: seq<Media>)

  // ---------------------------------------------------------------------
  // Relationships

  /** `User.posts`: the posts whose owner is `userId`. */
  function PostsOf(db: Database, userId: int): (r: seq<Post>)
    ensures forall p :: p in r <==> p in db.posts && p.userId == userId
  {
    Filter(db.posts, (p: Post) => p.userId == userId)
  }

  /** `User.comments`: the comments whose author is `userId`. */
  function CommentsBy(db: Database, userId: int): (r: seq<Comment>)
    ensures forall c :: c in r <==> c in db.comments && c.authorId == userId
  {
    Filter(db.comments, (c: Comment) => c.authorId == userId)
  }

  /** `User.followers`: the Follower rows that point at `userId`. */
  function FollowersOf(db: Database, userId: int): (r: seq<Follower>)
    ensures forall f :: f in r <==> f in db.followers && f.userToId == userId
  {
    Filter(db.followers, (f: Follower) => f.userToId == userId)
  }

  /** `User.following`: the Follower rows that start at `userId`. */
  function FollowingOf(db: Database, userId: int): (r: seq<Follower>)
    ensures forall f :: f in r <==> f in db.followers && f.userFromId == userId
  {
    Filter(db.followers, (f: Follower) => f.userFromId == userId)
  }

  /** `Post.comments`: the comments made on `postId`. */
  function CommentsOn(db: Database, postId: int): (r: seq<Comment>)
    ensures forall c :: c in r <==> c in db.comments && c.postId == postId
  {
    Filter(db.comments, (c: Comment) => c.postId == postId)
  }

  /** `Post.media`: the media items attached to `postId`. */
  function MediaOf(db: Database, postId: int): (r: seq<Media>)
    ensures forall m :: m in r <==> m in db.media && m.postId == postId
  {
    Filter(db.media, (m: Media) => m.postId == postId)
  }

  /** `Comment.user`: the user with primary key `id`, or `None` when the key dangles. */
  function UserById(db: Database, id: int): (r: Option<User>)
    ensures r.Some? ==> r.value in db.users && r.value.id == id
    ensures r.None? <==> forall u :: u in db.users ==> u.id != id
  {
    First(db.users, (u: User) => u.id == id)
  }

  /** `Comment.post`: the post with primary key `id`, or `None` when the key dangles. */
  function PostById(db: Database, id: int): (r: Option<Post>)
    ensures r.Some? ==> r.value in db.posts && r.value.id == id
    ensures r.None? <==> forall p :: p in db.posts ==> p.id != id
  {
    First(db.posts, (p: Post) => p.id == id)
  }

  /** The follower side of each row: `[follower.user_from_id for follower in rows]`. */
  function FromIds(rows: seq<Follower>): seq<int> {
    seq(|rows|, i requires 0 <= i < |rows| => rows[i].userFromId)
  }

  /** The followed side of each row: `[follow.user_to_id for follow in rows]`. */
  function ToIds(rows: seq<Follower>): seq<int> {
    seq(|rows|, i requires 0 <= i < |rows| => rows[i].userToId)
  }

  /** The ids a user's `to_dict` lists under "followers": one per Follower row pointing at it. */
  function FollowerIds(db: Database, userId: int): seq<int> {
    FromIds(FollowersOf(db, userId))
  }

  /** The ids a user's `to_dict` lists under "following": one per Follower row starting at it. */
  function FollowingIds(db: Database, userId: int): seq<int> {
    ToIds(FollowingOf(db, userId))
  }

  // ---------------------------------------------------------------------
  // Schema constraints

  predicate HasUser(db: Database, id: int) {
    exists u :: u in db.users && u.id == id
  }

  predicate HasPost(db: Database, id: int) {
    exists p :: p in db.posts && p.id == id
  }

  /**
    The constraints the schema declares: primary keys (including the
    composite key of Follower) are unique, email is unique, and every
    foreign key names an existing row.
   */
  predicate Valid(db: Database) {
    && (forall i, j :: 0 <= i < j < |db.users| ==> db.users[i].id != db.users[j].id)
    && (forall i, j :: 0 <= i < j < |db.users| ==> db.users[i].email != db.users[j].email)
    && (forall i, j :: 0 <= i < j < |db.posts| ==> db.posts[i].id != db.posts[j].id)
    && (forall i, j :: 0 <= i < j < |db.comments| ==> db.comments[i].id != db.comments[j].id)
    && (forall i, j :: 0 <= i < j < |db.media| ==> db.media[i].id != db.media[j].id)
    && NoDuplicates(db.followers)
    && (forall f :: f in db.followers ==> HasUser(db, f.userFromId) && HasUser(db, f.userToId))
    && (forall p :: p in db.posts ==> HasUser(db, p.userId))
    && (forall c :: c in db.comments ==> HasUser(db, c.authorId) && HasPost(db, c.postId))
    && (forall m :: m in db.media ==> HasPost(db, m.postId))
  }

  // ---------------------------------------------------------------------
  // Properties of the follower lists

  /** "followers" holds exactly the followers of the user, one entry per Follower row. */
  lemma FollowerIdsExact(db: Database, userId: int)
    ensures |FollowerIds(db, userId)| == |FollowersOf(db, userId)|
    ensures forall x :: x in FollowerIds(db, userId) <==> Follower(x, userId) in db.followers
  {
    var rows := FollowersOf(db, userId);
    var ids := FollowerIds(db, userId);
    forall x ensures x in ids <==> Follower(x, userId) in db.followers {
      if x in ids {
        var i :| 0 <= i < |ids| && ids[i] == x;
        assert rows[i] in rows;
        assert rows[i] == Follower(x, userId);
      }
      if Follower(x, userId) in db.followers {
        assert Follower(x, userId) in rows;
        var i :| 0 <= i < |rows| && rows[i] == Follower(x, userId);
        assert ids[i] == x;
      }
    }
  }

  /** "following" holds exactly the users the user follows, one entry per Follower row. */
  lemma FollowingIdsExact(db: Database, userId: int)
    ensures |FollowingIds(db, userId)| == |FollowingOf(db, userId)|
    ensures forall x :: x in FollowingIds(db, userId) <==> Follower(userId, x) in db.followers
  {
    var rows := FollowingOf(db, userId);
    var ids := FollowingIds(db, userId);
    forall x ensures x in ids <==> Follower(userId, x) in db.followers {
      if x in ids {
        var i :| 0 <= i < |ids| && ids[i] == x;
        assert rows[i] in rows;
        assert rows[i] == Follower(userId, x);
      }
      if Follower(userId, x) in db.followers {
        assert Follower(userId, x) in rows;
        var i :| 0 <= i < |rows| && rows[i] == Follower(userId, x);
        assert ids[i] == x;
      }
    }
  }

  lemma FromIdsAppend(a: seq<Follower>, b: seq<Follower>)
    ensures FromIds(a + b) == FromIds(a) + FromIds(b)
  {
  }

  lemma ToIdsAppend(a: seq<Follower>, b: seq<Follower>)
    ensures ToIds(a + b) == ToIds(a) + ToIds(b)
  {
  }

  /** The lists keep table order: a Follower row appended to the table lands at the end. */
  lemma FollowerIdsAppend(db: Database, row: Follower, userId: int)
    ensures FollowerIds(db.(followers := db.followers + [row]), userId)
         == FollowerIds(db, userId) + (if row.userToId == userId then [row.userFromId] else [])
  {
    var db' := db.(followers := db.followers + [row]);
    var extra := if row.userToId == userId then [row] else [];
    FilterAppend(db.followers, [row], (f: Follower) => f.userToId == userId);
    assert FollowersOf(db', userId) == FollowersOf(db, userId) + extra;
    FromIdsAppend(FollowersOf(db, userId), extra);
  }

  /** The lists keep table order: a Follower row appended to the table lands at the end. */
  lemma FollowingIdsAppend(db: Database, row: Follower, userId: int)
    ensures FollowingIds(db.(followers := db.followers + [row]), userId)
         == FollowingIds(db, userId) + (if row.userFromId == userId then [row.userToId] else [])
  {
    var db' := db.(followers := db.followers + [row]);
    var extra := if row.userFromId == userId then [row] else [];
    FilterAppend(db.followers, [row], (f: Follower) => f.userFromId == userId);
    assert FollowingOf(db', userId) == FollowingOf(db, userId) + extra;
    ToIdsAppend(FollowingOf(db, userId), extra);
  }

  /** The composite primary key rules out a repeated id in "followers". */
  lemma FollowerIdsDistinct(db: Database, userId: int)
    requires Valid(db)
    ensures NoDuplicates(FollowerIds(db, userId))
  {
    var rows := FollowersOf(db, userId);
    var ids := FollowerIds(db, userId);
    FilterNoDuplicates(db.followers, (f: Follower) => f.userToId == userId);
    forall i, j | 0 <= i < j < |ids| ensures ids[i] != ids[j] {
      assert rows[i] in rows && rows[j] in rows;
      assert rows[i] != rows[j];
    }
  }

  /** The composite primary key rules out a repeated id in "following". */
  lemma FollowingIdsDistinct(db: Database, userId: int)
    requires Valid(db)
    ensures NoDuplicates(FollowingIds(db, userId))
  {
    var rows := FollowingOf(db, userId);
    var ids := FollowingIds(db, userId);
    FilterNoDuplicates(db.followers, (f: Follower) => f.userFromId == userId);
    forall i, j | 0 <= i < j < |ids| ensures ids[i] != ids[j] {
      assert rows[i] in rows && rows[j] in rows;
      assert rows[i] != rows[j];
    }
  }
}
