/** backend/src/resolvers/User.ts: the `posts` field of a user in the minimal demo. */
module UserResolver {
  import opened Types
  import opened Query

  /**
   * `UserResolvers.posts(parent)`: `data.posts.filter(p => p.userId === parent.id)`,
   * the same list `postsByUser(parent.id)` gives.
   */
  function Posts(parent: User, ctx: DemoContext): (r: seq<Post>)
    ensures |r| <= |ctx.data.posts|
    ensures forall k :: 0 <= k < |r| ==> r[k].userId == parent.id
    ensures r == PostsByUser(ctx, parent.id)
  {
    PostsWithUserId(ctx.data.posts, parent.id)
  }

  /** Every post of the parent in `data.posts`, and no other, is in the field, once per occurrence. */
  lemma PostsComplete(parent: User, ctx: DemoContext, p: Post)
    ensures multiset(Posts(parent, ctx))[p] == if p.userId == parent.id then multiset(ctx.data.posts)[p] else 0
  {
    PostsWithUserIdCount(ctx.data.posts, parent.id, p);
  }
}
