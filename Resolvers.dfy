/**
 * The field resolvers of backend/src/resolvers/index.ts: `User.posts` maps the
 * owner's posts to the API shape, and `Post.author` and `Message.author` look
 * up the author row and drop its password.
 */
module Resolvers {
  import opened Types
  import opened Seqs
  import opened Order
  import opened Db

  /** `rows.map(row => ({...}))`: the column-by-column renaming of every row, in order. */
  function PostsOf(rows: seq<PostRow>): (r: seq<Post>)
    ensures |r| == |rows|
    ensures forall k :: 0 <= k < |r| ==>
      && r[k].id == rows[k].id && r[k].content == rows[k].content && r[k].userId == rows[k].user_id
      && r[k].createdAt == rows[k].created_at && r[k].updatedAt == rows[k].updated_at
    decreases |rows|
  {
    if |rows| == 0 then [] else [PostOf(rows[0])] + PostsOf(rows[1..])
  }

  /** `User.posts(parent)`: the parent's posts from `findByUserId`, newest first, in the API shape. */
  function UserPosts(posts: seq<PostRow>, parentId: string): (r: seq<Post>)
    ensures r == PostsOf(PostFindByUserId(posts, parentId))
    ensures |r| <= |posts|
    ensures forall k :: 0 <= k < |r| ==> r[k].userId == parentId
    ensures forall i, j :: 0 <= i < j < |r| ==> Le(r[j].createdAt, r[i].createdAt)
  {
    var rows := PostFindByUserId(posts, parentId);
    assert |rows| <= |posts| by {
      var all := PostFindAll(posts);
      assert |all| == |multiset(all)| == |multiset(posts)| == |posts|;
    }
    PostsOf(rows)
  }

  /** Every post of the parent in the table, and no other post, is in `User.posts`. */
  lemma UserPostsComplete(posts: seq<PostRow>, parentId: string, p: PostRow)
    requires p in posts
    ensures PostOf(p) in UserPosts(posts, parentId) <==> p.user_id == parentId
  {
    var rows := PostFindByUserId(posts, parentId);
    var r := UserPosts(posts, parentId);
    PostFindByUserIdCount(posts, parentId, p);
    if p.user_id == parentId {
      assert p in multiset(rows);
      var k :| 0 <= k < |rows| && rows[k] == p;
      assert r[k] == PostOf(p);
    }
  }

  /**
   * `Post.author` and `Message.author`: `userQueries.findById.get(parent.userId)`,
   * null when there is no such row, otherwise its id, name and creation time.
   */
  function Author(users: seq<UserRow>, userId: string): (r: Option<User>)
    ensures r.None? <==> forall k :: 0 <= k < |users| ==> users[k].id != userId
    ensures r.Some? ==> r.value.id == userId
    ensures r.Some? ==> exists k :: 0 <= k < |users| && users[k].id == userId
                                   && r.value.username == users[k].username && r.value.createdAt == users[k].created_at
  {
    match UserFindById(users, userId)
    case None => None
    case Some(row) => Some(UserOf(row))
  }

  /** With unique user ids, the author of a post is exactly its owner's row minus the password. */
  lemma AuthorOfOwner(users: seq<UserRow>, k: nat)
    requires k < |users|
    requires forall i, j :: 0 <= i < j < |users| ==> users[i].id != users[j].id
    ensures Author(users, users[k].id) == Some(User(users[k].id, users[k].username, users[k].created_at))
  {
    UserFindByIdUnique(users, k);
  }
}
