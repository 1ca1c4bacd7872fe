/**
 * backend/src/resolvers/Query.ts: the resolvers of the minimal demo, which read
 * an in-memory `data` object and a `currentUserId` from their context.
 */
module Query {
  import opened Types
  import opened Seqs

  /** The in-memory arrays of the demo. */
  datatype DemoData = DemoData(users: seq<User>, posts: seq<Post>)

  /** The demo context: its data and the id of the signed-in user. */
  datatype DemoContext = DemoContext(data: DemoData, currentUserId: string)

  function UserIdIs(id: string): User -> bool {
    (u: User) => u.id == id
  }

  function PostUserIdIs(userId: string): Post -> bool {
    (p: Post) => p.userId == userId
  }

  /** `currentUser`: `data.users.find(u => u.id === currentUserId)`. */
  function CurrentUser(ctx: DemoContext): (r: Option<User>)
    ensures r.None? <==> forall k :: 0 <= k < |ctx.data.users| ==> ctx.data.users[k].id != ctx.currentUserId
    ensures r.Some? ==> exists k :: 0 <= k < |ctx.data.users| && ctx.data.users[k] == r.value
                                   && r.value.id == ctx.currentUserId
                                   && (forall j :: 0 <= j < k ==> ctx.data.users[j].id != ctx.currentUserId)
  {
    var r := FindFirst(ctx.data.users, UserIdIs(ctx.currentUserId));
    var k := FirstIndex(ctx.data.users, UserIdIs(ctx.currentUserId));
    assert r.Some? ==> k < |ctx.data.users| && ctx.data.users[k] == r.value;
    r
  }

  /** `data.posts.filter(p => p.userId === userId)`, shared by `postsByUser` and `User.posts`. */
  function PostsWithUserId(posts: seq<Post>, userId: string): (r: seq<Post>)
    ensures |r| <= |posts|
    ensures forall k :: 0 <= k < |r| ==> r[k].userId == userId
  {
    Filter(posts, PostUserIdIs(userId))
  }

  /** `postsByUser(userId)`: the posts of that user. */
  function PostsByUser(ctx: DemoContext, userId: string): (r: seq<Post>)
    ensures |r| <= |ctx.data.posts|
    ensures forall k :: 0 <= k < |r| ==> r[k].userId == userId
  {
    PostsWithUserId(ctx.data.posts, userId)
  }

  /** Every post of the user is returned, as often as it occurs, and no other post. */
  lemma PostsWithUserIdCount(posts: seq<Post>, userId: string, p: Post)
    ensures multiset(PostsWithUserId(posts, userId))[p] == if p.userId == userId then multiset(posts)[p] else 0
  {
    FilterCount(posts, PostUserIdIs(userId), p);
  }

  /** The posts keep their order: the result over `a + b` is the result over `a`, then over `b`. */
  lemma PostsWithUserIdOrder(a: seq<Post>, b: seq<Post>, userId: string)
    ensures PostsWithUserId(a + b, userId) == PostsWithUserId(a, userId) + PostsWithUserId(b, userId)
  {
    FilterAppend(a, b, PostUserIdIs(userId));
  }

  /** When every post belongs to the user, all of them come back unchanged. */
  lemma {:induction false} PostsWithUserIdAll(posts: seq<Post>, userId: string)
    requires forall k :: 0 <= k < |posts| ==> posts[k].userId == userId
    ensures PostsWithUserId(posts, userId) == posts
    decreases |posts|
  {
    if |posts| > 0 {
      PostsWithUserIdAll(posts[1..], userId);
      assert posts == [posts[0]] + posts[1..];
      FilterCons(posts[0], posts[1..], PostUserIdIs(userId));
    }
  }
}
