# Instagram-style schema and its `to_dict` serialisers, in Dafny

This project models `src/models.py` of a small Instagram-like data model: five
record types (Follower, User, Post, Comment, Media), the relationships the ORM
declares between them, and the `to_dict` serialisers of User, Post and Comment.

The storage layer is replaced by an explicit in-memory `Database`, with one
sequence of rows per table. Each ORM relationship becomes an explicit query
over a table:

- `User.posts`, `User.comments`, `User.followers`, `User.following`,
  `Post.comments` and `Post.media` select rows by foreign key, in table order
  (`Models.PostsOf`, `CommentsBy`, `FollowersOf`, `FollowingOf`, `CommentsOn`,
  `MediaOf`, all built on `Tables.Filter`).
- `Comment.user` and `Comment.post` look a row up by primary key
  (`Models.UserById`, `PostById`, built on `Tables.First`). When the key names
  no row, the lookup gives `None`.

`Models.Valid` states the schema constraints: unique primary keys (including
the composite key of Follower), unique email, and foreign keys that resolve.

The serialisers are functions `UserToDict`, `PostToDict` and `CommentToDict`.
Each produces a JSON-like value (`JsonValue.Json`: integer, string, list, or
object from string keys to values). Each returns a `Result`, so the ways the
Python code fails are modelled, not excluded:

- `RecursionLimit`: each serialiser takes a `fuel` bound that stands for the
  interpreter's recursion limit. A call made with no fuel left fails, as a
  Python call beyond the limit raises `RecursionError`.
- `NoMediaSerializer`: `Post.to_dict` calls `to_dict` on each media item, but
  `Media` defines none (`src/models.py:62`, `src/models.py:88-96`). A post
  with media therefore raises `AttributeError`.
- `MissingAuthor` and `MissingPost`: `self.user` or `self.post` is `None`
  in `Comment.to_dict` when the foreign key dangles.

Fields are evaluated in the order of the dict literal, so the first failing
field decides the error.

The serialisers recurse without end. `User.to_dict` embeds the user's
comments (`src/models.py:40`), and `Comment.to_dict` embeds its author in
full (`src/models.py:83`). The Comment-to-Post edge is reduced to an id,
which suggests the recursion was meant to be broken. It is not: the cycle
User → Comment → the same User remains. The model follows the code:

- `AuthorNeverSerialises`: no recursion limit lets a user who wrote a stored
  comment serialise.
- `StoredCommentNeverSerialises`: no stored comment serialises.
- `UserSerialises` and `PostSerialises` give the exact conditions under which
  serialisation returns.

The positive properties are stated under "the result is `Success`", as the
code promises them whenever it returns.

## Model

| member | source | states |
|---|---|---|
| `Tables.Filter` | src/models.py:23-30 | a relationship selects exactly the table's rows that satisfy its foreign-key condition, and no more rows than the table holds |
| `Tables.First` | src/models.py:74-75 | a many-to-one lookup returns a row of the table with the key, and returns nothing exactly when no row has it |
| `Tables.FilterAppend` | src/models.py:23-30 | selection keeps table order: selecting from two concatenated tables concatenates the selections |
| `Tables.FilterNoDuplicates` | src/models.py:12-13 | selecting from a table without repeated rows yields no repeated rows |
| `Tables.FilterEmpty` | src/models.py:23-30 | a relationship is empty exactly when no row of the table satisfies its condition |
| `Models.PostsOf` | src/models.py:23 | `User.posts` holds exactly the stored posts whose `user_id` is the user's id |
| `Models.CommentsBy` | src/models.py:24 | `User.comments` holds exactly the stored comments whose `author_id` is the user's id |
| `Models.FollowersOf` | src/models.py:25-27 | `User.followers` holds exactly the Follower rows whose `user_to_id` is the user's id |
| `Models.FollowingOf` | src/models.py:28-30 | `User.following` holds exactly the Follower rows whose `user_from_id` is the user's id |
| `Models.CommentsOn` | src/models.py:53 | `Post.comments` holds exactly the stored comments whose `post_id` is the post's id |
| `Models.MediaOf` | src/models.py:54 | `Post.media` holds exactly the stored media whose `post_id` is the post's id |
| `Models.UserById` | src/models.py:74 | `Comment.user` is a stored user whose id is the comment's `author_id`, and is absent exactly when no user has that id |
| `Models.PostById` | src/models.py:75 | `Comment.post` is a stored post whose id is the comment's `post_id`, and is absent exactly when no post has that id |
| `Models.FollowerIdsExact` | src/models.py:41 | the "followers" ids have one entry per Follower row pointing at the user, and x is among them exactly when the row (x, user) is stored |
| `Models.FollowingIdsExact` | src/models.py:42 | the "following" ids have one entry per Follower row starting at the user, and x is among them exactly when the row (user, x) is stored |
| `Models.FollowerIdsAppend` | src/models.py:41 | "followers" is in row order: storing a new Follower row that points at the user appends its `user_from_id` at the end, and any other row leaves the list unchanged |
| `Models.FollowingIdsAppend` | src/models.py:42 | "following" is in row order: storing a new Follower row that starts at the user appends its `user_to_id` at the end, and any other row leaves the list unchanged |
| `Models.FollowerIdsDistinct` | src/models.py:12-13 | because (`user_from_id`, `user_to_id`) is the primary key, the "followers" ids of a user contain no duplicate |
| `Models.FollowingIdsDistinct` | src/models.py:12-13 | because (`user_from_id`, `user_to_id`) is the primary key, the "following" ids of a user contain no duplicate |
| `Serialization.PostsToDictsSpec` | src/models.py:39 | the posts comprehension succeeds exactly when every post's `to_dict` does, giving one entry per post in order, each equal to that post's `to_dict` |
| `Serialization.CommentsToDictsSpec` | src/models.py:40 | the comments comprehension succeeds exactly when every comment's `to_dict` does, giving one entry per comment in order, each equal to that comment's `to_dict` |
| `Serialization.UserDictFields` | src/models.py:32-43 | a returned `User.to_dict` has exactly its nine keys. It copies id, username, first_name, last_name and email unchanged, and lists the follower and followed ids |
| `Serialization.UserDictLists` | src/models.py:39-40 | a returned `User.to_dict` has one "posts" entry per post the user owns and one "comments" entry per comment the user wrote, each equal to that row's own `to_dict` |
| `Serialization.PostDictFields` | src/models.py:56-63 | a returned `Post.to_dict` has exactly its five keys and copies id, user_id and content. Its "comments" has one entry per comment on the post, each equal to that comment's `to_dict`. Its "media" is empty, and so is the post's media |
| `Serialization.CommentDictFields` | src/models.py:77-85 | a returned `Comment.to_dict` has exactly its six keys and copies its columns. "post" equals `post_id`. "author" is the author's full `to_dict`, and its "id" equals `author_id`. Both foreign keys resolve |
| `Serialization.AuthorNeverSerialises` | src/models.py:40 | for a user who wrote a stored comment, `User.to_dict` fails at every recursion limit (this records what the code does) |
| `Serialization.StoredCommentNeverSerialises` | src/models.py:83 | `Comment.to_dict` of a stored comment fails at every recursion limit (this records what the code does) |
| `Serialization.PostSerialises` | src/models.py:56-63 | `Post.to_dict` returns exactly when there is depth left and the post has no comments and no media |
| `Serialization.OwnPostsSerialise` | src/models.py:39 | a user's posts serialise exactly when none of them has comments or media, given one level of depth |
| `Serialization.OwnCommentsSerialise` | src/models.py:40 | a user's comments serialise exactly when the user wrote none |
| `Serialization.UserSerialises` | src/models.py:32-43 | `User.to_dict` returns exactly when the user wrote no comment and each of the user's posts has neither comments nor media, given enough depth |
| `Serialization.CommentMissingAuthor` | src/models.py:83 | a comment whose `author_id` names no user fails with the missing-author error |
| `Serialization.CommentMissingPost` | src/models.py:84 | a comment whose author serialises but whose `post_id` names no post fails with the missing-post error |
| `Serialization.PostWithMediaFails` | src/models.py:62 | a post without comments but with a media item fails because Media has no serialiser |
| `Serialization.ValidUserNoDangling` | src/models.py:32-43 | in a database that meets the schema constraints, `User.to_dict` fails only by the recursion limit or on a media item |
| `Serialization.ValidPostNoDangling` | src/models.py:56-63 | in a database that meets the schema constraints, `Post.to_dict` fails only by the recursion limit or on a media item |
| `Serialization.ValidCommentNoDangling` | src/models.py:77-85 | in a database that meets the schema constraints, `Comment.to_dict` of a stored comment fails only by the recursion limit or on a media item |
| `Serialization.ValidPostsNoDangling` | src/models.py:39 | the same for the posts comprehension |
| `Serialization.ValidCommentsNoDangling` | src/models.py:40 | the same for the comments comprehension over stored comments |
| `Serialization.UnrelatedUserSerialises` | src/models.py:32-43 | a user with no posts, no comments and no Follower row on either side serialises to its five scalar fields and four empty lists |
| `Serialization.FollowedExample` | src/models.py:41 | with the single row "1 follows 2", user 2 serialises with followers [1] and following [] |
| `Serialization.FollowerExample` | src/models.py:42 | with the single row "1 follows 2", user 1 serialises with followers [] and following [2] |

The serialisers themselves (`UserToDict`, `PostToDict`, `CommentToDict`,
`PostsToDicts`, `CommentsToDicts`, `MediaToDicts`), the dict literals
(`UserObject`, `PostObject`, `CommentObject`), the id lists (`FollowerIds`,
`FollowingIds`) and `Valid` carry no contract of their own. The lemmas
above state their properties.

## Left out

- The entity-relationship diagram rendered through `render_er` when the module loads, with its message and re-raise (`src/models.py:98-104`). It is file I/O through an external library.
- The ORM machinery: the declarative base, engine, sessions and lazy loading. Also the `backref` attributes `followed_by` and `following` that the relationships generate on Follower. Relationships are modelled only as explicit queries over the in-memory tables.
- Storage-side column constraints: `String(n)` length limits and `nullable` flags. Foreign keys are plain integers, so a foreign key holding `None` is not modelled. The Python code never checks `Valid`; it is a hypothesis of the lemmas that need it.
- The unused imports `os`, `sys` and `Enum`.
- The key order of the dicts: a JSON object is a map from keys to values, so the insertion order of a Python dict is not modelled.
- The exact depth at which Python raises `RecursionError`: the fuel counts nested `to_dict` calls, not interpreter frames.
- The order in which the database returns related rows: SQL without `ORDER BY` promises none, and the model uses table order.
- Exception types and messages: `AttributeError` and `RecursionError` become values of `SerializeError`.
- The missing `Media.to_dict` is modelled at the level of the media list, which fails on its first item; no per-item function is modelled.
