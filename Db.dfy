/**
 * backend/src/db/index.ts: the prepared statements of `userQueries`,
 * `postQueries` and `messageQueries` over the three tables, and the seed-once
 * initial state. Reads are pure functions of a table's rows (in table order);
 * inserts, the UPDATE, the DELETE and the seed change a Database in place.
 */
module Db {
  import opened Types
  import opened Seqs
  import opened Order

  // ---------------------------------------------------------------------
  // row tests and sort keys

  function UserIdIs(id: string): UserRow -> bool {
    (u: UserRow) => u.id == id
  }

  function UsernameIs(username: string): UserRow -> bool {
    (u: UserRow) => u.username == username
  }

  function PostIdIs(id: string): PostRow -> bool {
    (p: PostRow) => p.id == id
  }

  function PostOwnedBy(userId: string): PostRow -> bool {
    (p: PostRow) => p.user_id == userId
  }

  function PostCreatedAt(p: PostRow): string {
    p.created_at
  }

  function MessageCreatedAt(m: MessageRow): string {
    m.created_at
  }

  // ---------------------------------------------------------------------
  // userQueries

  /**
   * `SELECT * FROM users WHERE id = ?` with `.get`: the first matching row in
   * table order, or undefined when no row has that id.
   */
  function UserFindById(users: seq<UserRow>, id: string): (r: Option<UserRow>)
    ensures r.None? <==> forall k :: 0 <= k < |users| ==> users[k].id != id
    ensures r.Some? ==> r.value in users && r.value.id == id
  {
    FindFirst(users, UserIdIs(id))
  }

  /** `SELECT * FROM users WHERE username = ?` with `.get`. */
  function UserFindByUsername(users: seq<UserRow>, username: string): (r: Option<UserRow>)
    ensures r.None? <==> forall k :: 0 <= k < |users| ==> users[k].username != username
    ensures r.Some? ==> r.value in users && r.value.username == username
  {
    FindFirst(users, UsernameIs(username))
  }

  /** When ids are unique, the row found by id is the one row with that id. */
  lemma UserFindByIdUnique(users: seq<UserRow>, k: nat)
    requires k < |users|
    requires forall i, j :: 0 <= i < j < |users| ==> users[i].id != users[j].id
    ensures UserFindById(users, users[k].id) == Some(users[k])
  {
    var i := FirstIndex(users, UserIdIs(users[k].id));
    assert i <= k;
  }

  /** A row appended to the table is found by its id unless an earlier row has that id. */
  lemma UserFindByIdAppend(users: seq<UserRow>, row: UserRow)
    ensures UserFindById(users + [row], row.id)
         == if UserFindById(users, row.id).Some? then UserFindById(users, row.id) else Some(row)
  {
    FindFirstAppend(users, row, UserIdIs(row.id));
  }

  /** The three columns of `SELECT id, username, created_at FROM users`. */
  datatype UserListRow = UserListRow(id: string, username: string, created_at: string)

  /** `userQueries.findAll`: every user, in table order, without the password column. */
  function UserFindAll(users: seq<UserRow>): (r: seq<UserListRow>)
    ensures |r| == |users|
    ensures forall k :: 0 <= k < |r| ==>
      r[k].id == users[k].id && r[k].username == users[k].username && r[k].created_at == users[k].created_at
    decreases |users|
  {
    if |users| == 0 then []
    else [UserListRow(users[0].id, users[0].username, users[0].created_at)] + UserFindAll(users[1..])
  }

  // ---------------------------------------------------------------------
  // postQueries

  /** `SELECT * FROM posts WHERE id = ?` with `.get`. */
  function PostFindById(posts: seq<PostRow>, id: string): (r: Option<PostRow>)
    ensures r.None? <==> forall k :: 0 <= k < |posts| ==> posts[k].id != id
    ensures r.Some? ==> r.value in posts && r.value.id == id
  {
    FindFirst(posts, PostIdIs(id))
  }

  /** A row appended to the table is found by its id unless an earlier row has that id. */
  lemma PostFindByIdAppend(posts: seq<PostRow>, row: PostRow)
    ensures PostFindById(posts + [row], row.id)
         == if PostFindById(posts, row.id).Some? then PostFindById(posts, row.id) else Some(row)
  {
    FindFirstAppend(posts, row, PostIdIs(row.id));
  }

  /** `SELECT * FROM posts ORDER BY created_at DESC`: every post, newest first. */
  function PostFindAll(posts: seq<PostRow>): (r: seq<PostRow>)
    ensures multiset(r) == multiset(posts)
    ensures SortedDesc(r, PostCreatedAt)
  {
    SortDescSorted(posts, PostCreatedAt);
    SortDesc(posts, PostCreatedAt)
  }

  /**
   * `SELECT * FROM posts WHERE user_id = ? ORDER BY created_at DESC`: exactly
   * the rows of `findAll` that have that owner, in `findAll`'s order.
   */
  function PostFindByUserId(posts: seq<PostRow>, userId: string): (r: seq<PostRow>)
    ensures r == Filter(PostFindAll(posts), PostOwnedBy(userId))
    ensures SortedDesc(r, PostCreatedAt)
  {
    FilterSortDesc(posts, PostCreatedAt, PostOwnedBy(userId));
    SortDescSorted(Filter(posts, PostOwnedBy(userId)), PostCreatedAt);
    SortDesc(Filter(posts, PostOwnedBy(userId)), PostCreatedAt)
  }

  /** Every post of the owner occurs in `findByUserId`, as often as in the table, and no other post does. */
  lemma PostFindByUserIdCount(posts: seq<PostRow>, userId: string, p: PostRow)
    ensures multiset(PostFindByUserId(posts, userId))[p]
         == if p.user_id == userId then multiset(posts)[p] else 0
  {
    FilterCount(PostFindAll(posts), PostOwnedBy(userId), p);
  }

  /** The row `UPDATE posts SET content = ?, updated_at = CURRENT_TIMESTAMP WHERE id = ? AND user_id = ?` leaves. */
  function UpdatedRow(p: PostRow, id: string, userId: string, content: string, now: string): PostRow {
    if p.id == id && p.user_id == userId then p.(content := content, updated_at := now) else p
  }

  /**
   * `postQueries.update`: each row matching both the id and the owner gets the
   * new content and `updated_at`; every other row, and every other column, is kept.
   */
  function UpdateWhere(posts: seq<PostRow>, id: string, userId: string, content: string, now: string): (r: seq<PostRow>)
    ensures |r| == |posts|
    ensures forall k :: 0 <= k < |r| ==> r[k] == UpdatedRow(posts[k], id, userId, content, now)
    decreases |posts|
  {
    if |posts| == 0 then []
    else [UpdatedRow(posts[0], id, userId, content, now)] + UpdateWhere(posts[1..], id, userId, content, now)
  }

  /** An UPDATE whose WHERE clause matches no row changes nothing. */
  lemma UpdateWhereNoMatch(posts: seq<PostRow>, id: string, userId: string, content: string, now: string)
    requires forall k :: 0 <= k < |posts| ==> !(posts[k].id == id && posts[k].user_id == userId)
    ensures UpdateWhere(posts, id, userId, content, now) == posts
  {
    var r := UpdateWhere(posts, id, userId, content, now);
    assert forall k :: 0 <= k < |r| ==> r[k] == posts[k];
  }

  /** The UPDATE keeps every row's id, owner and creation time. */
  lemma UpdateWhereKeepsKeys(posts: seq<PostRow>, id: string, userId: string, content: string, now: string, k: nat)
    requires k < |posts|
    ensures var r := UpdateWhere(posts, id, userId, content, now);
      r[k].id == posts[k].id && r[k].user_id == posts[k].user_id && r[k].created_at == posts[k].created_at
  {
  }

  /**
   * When the row found by id belongs to `userId`, it is the updated row that the
   * id finds afterwards.
   */
  lemma {:induction false} UpdateWhereFindById(posts: seq<PostRow>, id: string, userId: string, content: string, now: string)
    requires PostFindById(posts, id).Some? && PostFindById(posts, id).value.user_id == userId
    ensures PostFindById(UpdateWhere(posts, id, userId, content, now), id)
         == Some(PostFindById(posts, id).value.(content := content, updated_at := now))
  {
    var r := UpdateWhere(posts, id, userId, content, now);
    var f := PostIdIs(id);
    var i := FirstIndex(posts, f);
    var j := FirstIndex(r, f);
    assert r[i] == UpdatedRow(posts[i], id, userId, content, now);
    assert j <= i;
    assert f(posts[j]) by {
      assert r[j] == UpdatedRow(posts[j], id, userId, content, now);
    }
    assert j == i;
  }

  /** `p` matches `DELETE FROM posts WHERE id = ? AND user_id = ?`. */
  function Survives(id: string, userId: string): PostRow -> bool {
    (p: PostRow) => !(p.id == id && p.user_id == userId)
  }

  /** `postQueries.delete`: the rows not matching both the id and the owner, in table order. */
  function DeleteWhere(posts: seq<PostRow>, id: string, userId: string): (r: seq<PostRow>)
    ensures |r| <= |posts|
    ensures forall k :: 0 <= k < |r| ==> !(r[k].id == id && r[k].user_id == userId)
  {
    Filter(posts, Survives(id, userId))
  }

  /** DELETE removes every matching row and keeps every other row, each as often as before. */
  lemma DeleteWhereCount(posts: seq<PostRow>, id: string, userId: string, p: PostRow)
    ensures multiset(DeleteWhere(posts, id, userId))[p]
         == if p.id == id && p.user_id == userId then 0 else multiset(posts)[p]
  {
    FilterCount(posts, Survives(id, userId), p);
  }

  /** A DELETE whose WHERE clause matches no row changes nothing. */
  lemma {:induction false} DeleteWhereNoMatch(posts: seq<PostRow>, id: string, userId: string)
    requires forall k :: 0 <= k < |posts| ==> !(posts[k].id == id && posts[k].user_id == userId)
    ensures DeleteWhere(posts, id, userId) == posts
    decreases |posts|
  {
    if |posts| > 0 {
      DeleteWhereNoMatch(posts[1..], id, userId);
      assert posts == [posts[0]] + posts[1..];
      FilterCons(posts[0], posts[1..], Survives(id, userId));
    }
  }

  // ---------------------------------------------------------------------
  // messageQueries

  /**
   * `SELECT * FROM messages ORDER BY created_at DESC LIMIT ?`: the newest
   * `limit` messages, newest first; a negative limit means no limit.
   */
  function MessageFindAll(messages: seq<MessageRow>, limit: int): (r: seq<MessageRow>)
    ensures limit >= 0 ==> |r| == if limit < |messages| then limit else |messages|
    ensures limit < 0 ==> |r| == |messages|
    ensures r == SortDesc(messages, MessageCreatedAt)[..|r|]
    ensures SortedDesc(r, MessageCreatedAt)
  {
    var all := SortDesc(messages, MessageCreatedAt);
    SortDescSorted(messages, MessageCreatedAt);
    Limit(all, limit)
  }

  /** The first message returned has the latest `created_at` of the table. */
  lemma MessageFindAllHeadIsNewest(messages: seq<MessageRow>, limit: int, m: MessageRow)
    requires m in messages && limit != 0
    ensures |MessageFindAll(messages, limit)| > 0
    ensures Le(m.created_at, MessageFindAll(messages, limit)[0].created_at)
  {
    SortDescHeadIsMax(messages, MessageCreatedAt, m);
  }

  /** Every message returned is a row of the table. */
  lemma MessageFindAllFromTable(messages: seq<MessageRow>, limit: int, k: nat)
    requires k < |MessageFindAll(messages, limit)|
    ensures MessageFindAll(messages, limit)[k] in messages
  {
    var all := SortDesc(messages, MessageCreatedAt);
    assert MessageFindAll(messages, limit)[k] == all[k];
    assert all[k] in multiset(messages);
  }

  // ---------------------------------------------------------------------
  // referential integrity

  /** Every post and every message names the id of some user. */
  ghost predicate OwnersExist(users: seq<UserRow>, posts: seq<PostRow>, messages: seq<MessageRow>) {
    && (forall k :: 0 <= k < |posts| ==> posts[k].user_id in UserIds(users))
    && (forall k :: 0 <= k < |messages| ==> messages[k].user_id in UserIds(users))
  }

  /** The UPDATE and the DELETE of a post never leave a post or message without its user. */
  lemma WritesKeepOwners(users: seq<UserRow>, posts: seq<PostRow>, messages: seq<MessageRow>,
                         id: string, userId: string, content: string, now: string)
    requires OwnersExist(users, posts, messages)
    ensures OwnersExist(users, UpdateWhere(posts, id, userId, content, now), messages)
    ensures OwnersExist(users, DeleteWhere(posts, id, userId), messages)
  {
    var d := DeleteWhere(posts, id, userId);
    forall k | 0 <= k < |d| ensures d[k].user_id in UserIds(users) {
      FilterMember(posts, Survives(id, userId), d[k]);
    }
  }

  /** Inserting a post or message owned by an existing user, or any user, keeps every owner present. */
  lemma InsertsKeepOwners(users: seq<UserRow>, posts: seq<PostRow>, messages: seq<MessageRow>,
                          p: PostRow, m: MessageRow, u: UserRow)
    requires OwnersExist(users, posts, messages)
    requires p.user_id in UserIds(users) && m.user_id in UserIds(users)
    ensures OwnersExist(users, posts + [p], messages)
    ensures OwnersExist(users, posts, messages + [m])
    ensures OwnersExist(users + [u], posts, messages)
  {
    UserIdsAppend(users, u);
  }

  /** The ids of a user table, in table order. */
  function UserIds(users: seq<UserRow>): (r: seq<string>)
    ensures |r| == |users|
    ensures forall k :: 0 <= k < |r| ==> r[k] == users[k].id
    decreases |users|
  {
    if |users| == 0 then [] else [users[0].id] + UserIds(users[1..])
  }

  lemma UserIdsAppend(users: seq<UserRow>, u: UserRow)
    ensures UserIds(users + [u]) == UserIds(users) + [u.id]
  {
  }

  // ---------------------------------------------------------------------
  // seed data

  /** The three demo users of `seedDatabase`, all with the hash of "password123". */
  function SeedUsers(hashedPassword: string, now: string): (r: seq<UserRow>)
    ensures |r| == 3
    ensures UserIds(r) == ["user-1", "user-2", "user-3"]
    ensures forall k :: 0 <= k < |r| ==> r[k].password == hashedPassword
  {
    [ UserRow("user-1", "andy25", hashedPassword, now),
      UserRow("user-2", "sarah_dev", hashedPassword, now),
      UserRow("user-3", "mike_codes", hashedPassword, now) ]
  }

  /** The four demo posts of `seedDatabase`, each owned by a seeded user. */
  function SeedPosts(now: string): (r: seq<PostRow>)
    ensures |r| == 4
    ensures forall k :: 0 <= k < |r| ==> r[k].user_id in ["user-1", "user-2", "user-3"]
  {
    [ PostRow("post-1", "Hello world! This is my first post.", "user-1", now, now),
      PostRow("post-2", "Learning GraphQL is fun!", "user-1", now, now),
      PostRow("post-3", "Just deployed my first app \U{1F680}", "user-2", now, now),
      PostRow("post-4", "Coffee and code - perfect combo ☕", "user-3", now, now) ]
  }

  /** The three demo chat messages of `seedDatabase`, each sent by a seeded user. */
  function SeedMessages(now: string): (r: seq<MessageRow>)
    ensures |r| == 3
    ensures forall k :: 0 <= k < |r| ==> r[k].user_id in ["user-1", "user-2", "user-3"]
  {
    [ MessageRow("msg-1", "Hey everyone! Welcome to the chat!", "user-1", now),
      MessageRow("msg-2", "Hi Andy! Great to be here.", "user-2", now),
      MessageRow("msg-3", "Hello folks! \U{1F44B}", "user-3", now) ]
  }

  /** Every seeded post and message belongs to a seeded user. */
  lemma SeedOwnersExist(hashedPassword: string, now: string)
    ensures OwnersExist(SeedUsers(hashedPassword, now), SeedPosts(now), SeedMessages(now))
  {
  }

  const SeedPassword: string := "password123"

  // ---------------------------------------------------------------------
  // the database

  /** The `users`, `posts` and `messages` tables, each in insertion order. */
  class Database {
    var users: seq<UserRow>
    var posts: seq<PostRow>
    var messages: seq<MessageRow>

    /** A freshly created schema: three empty tables. */
    constructor ()
      ensures users == [] && posts == [] && messages == []
    {
      users := [];
      posts := [];
      messages := [];
    }

    /** `userQueries.create.run(id, username, password)`; `created_at` takes its default, the current timestamp. */
    method CreateUser(id: string, username: string, password: string, now: string)
      modifies this
      ensures users == old(users) + [UserRow(id, username, password, now)]
      ensures posts == old(posts) && messages == old(messages)
    {
      users := users + [UserRow(id, username, password, now)];
    }

    /** `postQueries.create.run(id, content, userId)`; both timestamps take the current time. */
    method CreatePost(id: string, content: string, userId: string, now: string)
      modifies this
      ensures posts == old(posts) + [PostRow(id, content, userId, now, now)]
      ensures users == old(users) && messages == old(messages)
    {
      posts := posts + [PostRow(id, content, userId, now, now)];
    }

    /** `postQueries.update.run(content, id, userId)`. */
    method UpdatePost(content: string, id: string, userId: string, now: string)
      modifies this
      ensures posts == UpdateWhere(old(posts), id, userId, content, now)
      ensures users == old(users) && messages == old(messages)
    {
      posts := UpdateWhere(posts, id, userId, content, now);
    }

    /** `postQueries.delete.run(id, userId)`. */
    method DeletePost(id: string, userId: string)
      modifies this
      ensures posts == DeleteWhere(old(posts), id, userId)
      ensures users == old(users) && messages == old(messages)
    {
      posts := DeleteWhere(posts, id, userId);
    }

    /** `messageQueries.create.run(id, content, userId)`. */
    method CreateMessage(id: string, content: string, userId: string, now: string)
      modifies this
      ensures messages == old(messages) + [MessageRow(id, content, userId, now)]
      ensures users == old(users) && posts == old(posts)
    {
      messages := messages + [MessageRow(id, content, userId, now)];
    }

    /** `seedDatabase`: three users, then four posts, then three messages, in that order. */
    method Seed(hash: string -> string, now: string)
      modifies this
      ensures users == old(users) + SeedUsers(hash(SeedPassword), now)
      ensures posts == old(posts) + SeedPosts(now)
      ensures messages == old(messages) + SeedMessages(now)
    {
      var hashedPassword := hash(SeedPassword);
      CreateUser("user-1", "andy25", hashedPassword, now);
      CreateUser("user-2", "sarah_dev", hashedPassword, now);
      CreateUser("user-3", "mike_codes", hashedPassword, now);
      CreatePost("post-1", "Hello world! This is my first post.", "user-1", now);
      CreatePost("post-2", "Learning GraphQL is fun!", "user-1", now);
      CreatePost("post-3", "Just deployed my first app \U{1F680}", "user-2", now);
      CreatePost("post-4", "Coffee and code - perfect combo ☕", "user-3", now);
      CreateMessage("msg-1", "Hey everyone! Welcome to the chat!", "user-1", now);
      CreateMessage("msg-2", "Hi Andy! Great to be here.", "user-2", now);
      CreateMessage("msg-3", "Hello folks! \U{1F44B}", "user-3", now);
    }

    /**
     * `initDatabase`: seeds only when the users table is empty, so afterwards it
     * is never empty and a second call changes nothing.
     */
    method InitDatabase(hash: string -> string, now: string)
      modifies this
      ensures |users| > 0
      ensures old(users) == [] ==>
        users == SeedUsers(hash(SeedPassword), now)
        && posts == old(posts) + SeedPosts(now)
        && messages == old(messages) + SeedMessages(now)
      ensures old(users) != [] ==> users == old(users) && posts == old(posts) && messages == old(messages)
    {
      if |users| == 0 {
        Seed(hash, now);
      }
    }
  }

  /** Initialising a fresh database seeds it, and a second call leaves it as the first call left it. */
  method InitDatabaseTwice(hash: string -> string, now1: string, now2: string) returns (db: Database)
    ensures fresh(db)
    ensures db.users == SeedUsers(hash(SeedPassword), now1)
    ensures db.posts == SeedPosts(now1) && db.messages == SeedMessages(now1)
    ensures OwnersExist(db.users, db.posts, db.messages)
  {
    db := new Database();
    db.InitDatabase(hash, now1);
    db.InitDatabase(hash, now2);
    SeedOwnersExist(hash(SeedPassword), now1);
  }
}
