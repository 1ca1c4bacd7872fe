/**
 * backend/src/resolvers/Mutation.ts: the six mutation resolvers over the
 * database and the publish log. Each one validates its arguments in a fixed
 * order and either fails with nothing written or performs its one write.
 * Clock, randomness and timestamp come in as an Instant, the library calls
 * as a Crypto.
 */
module Mutation {
  import opened Types
  import opened Js
  import opened Seqs
  import opened Order
  import opened Auth
  import opened Db
  import opened PubSub

  const UsernameTooShort: string := "Username must be at least 3 characters"
  const PasswordTooShort: string := "Password must be at least 6 characters"
  const UsernameTaken: string := "Username already taken"
  const InvalidCredentials: string := "Invalid username or password"
  const LoginToCreatePost: string := "You must be logged in to create a post"
  const LoginToUpdatePost: string := "You must be logged in to update a post"
  const LoginToDeletePost: string := "You must be logged in to delete a post"
  const LoginToSendMessage: string := "You must be logged in to send messages"
  const EmptyPost: string := "Post content cannot be empty"
  const EmptyMessage: string := "Message cannot be empty"
  const PostNotFound: string := "Post not found"
  const NotYourPostToUpdate: string := "You can only update your own posts"
  const NotYourPostToDelete: string := "You can only delete your own posts"

  /** `!s.trim()`: the text is empty once trimmed. */
  predicate Blank(s: string) {
    Trim(s) == ""
  }

  // ---------------------------------------------------------------------
  // auth

  /**
   * `register`: the username length, then the password length, then the
   * username's availability; on success one user row with the hashed password
   * is added, and the token carries that user's id and name.
   */
  method Register(db: Database, crypto: Crypto, now: Instant, username: string, password: string)
    returns (r: Result<AuthPayload, GqlError>)
    modifies db
    ensures |username| < 3 ==> r == Err(UserInputError(UsernameTooShort))
    ensures |username| >= 3 && |password| < 6 ==> r == Err(UserInputError(PasswordTooShort))
    ensures |username| >= 3 && |password| >= 6 && UserFindByUsername(old(db.users), username).Some?
            ==> r == Err(UserInputError(UsernameTaken))
    ensures r.Ok? <==> |username| >= 3 && |password| >= 6 && UserFindByUsername(old(db.users), username).None?
    ensures r.Err? ==> db.users == old(db.users)
    ensures db.posts == old(db.posts) && db.messages == old(db.messages)
    ensures r.Ok? ==>
      var id := GenerateId("user", now.millis, now.random36);
      && db.users == old(db.users) + [UserRow(id, username, crypto.hash(password), now.timestamp)]
      && UserFindById(db.users, id).Some?
      && r.value.user == UserOf(UserFindById(db.users, id).value)
      && r.value.token == crypto.sign(JwtPayload(r.value.user.id, r.value.user.username))
    ensures r.Ok? && UserFindById(old(db.users), GenerateId("user", now.millis, now.random36)).None?
            ==> r.value.user == User(GenerateId("user", now.millis, now.random36), username, now.timestamp)
  {
    if |username| < 3 {
      return Err(UserInputError(UsernameTooShort));
    }
    if |password| < 6 {
      return Err(UserInputError(PasswordTooShort));
    }
    var existing := UserFindByUsername(db.users, username);
    if existing.Some? {
      return Err(UserInputError(UsernameTaken));
    }
    var before := db.users;
    var id := GenerateId("user", now.millis, now.random36);
    var hashedPassword := crypto.hash(password);
    db.CreateUser(id, username, hashedPassword, now.timestamp);
    UserFindByIdAppend(before, UserRow(id, username, hashedPassword, now.timestamp));
    var row := UserFindById(db.users, id);
    var user := UserOf(row.value);
    var token := crypto.sign(JwtPayload(user.id, user.username));
    return Ok(AuthPayload(token, user));
  }

  /**
   * `login`: an unknown username and a wrong password fail with the same
   * message; on success the user row found by name is projected without its
   * password. Nothing is written.
   */
  method Login(db: Database, crypto: Crypto, username: string, password: string)
    returns (r: Result<AuthPayload, GqlError>)
    ensures r.Ok? <==> UserFindByUsername(db.users, username).Some?
                       && crypto.compare(password, UserFindByUsername(db.users, username).value.password)
    ensures r.Err? ==> r.error == AuthenticationError(InvalidCredentials)
    ensures r.Ok? ==>
      var row := UserFindByUsername(db.users, username).value;
      && r.value.user == User(row.id, username, row.created_at)
      && r.value.token == crypto.sign(JwtPayload(row.id, username))
  {
    var row := UserFindByUsername(db.users, username);
    if row.None? {
      return Err(AuthenticationError(InvalidCredentials));
    }
    if !crypto.compare(password, row.value.password) {
      return Err(AuthenticationError(InvalidCredentials));
    }
    var user := UserOf(row.value);
    var token := crypto.sign(JwtPayload(user.id, user.username));
    return Ok(AuthPayload(token, user));
  }

  /**
   * A successful `register` followed by `login` with the same credentials
   * succeeds and signs in the identity just created, given a password check
   * that accepts a password against its own hash.
   */
  method RegisterThenLogin(db: Database, crypto: Crypto, now: Instant, username: string, password: string)
    returns (registered: Result<AuthPayload, GqlError>, loggedIn: Result<AuthPayload, GqlError>)
    requires crypto.compare(password, crypto.hash(password))
    modifies db
    ensures registered.Ok? ==> loggedIn.Ok? && loggedIn.value.user.id == registered.value.user.id
                               && loggedIn.value.user.username == username
  {
    ghost var before := db.users;
    registered := Register(db, crypto, now, username, password);
    if registered.Ok? {
      var row := UserRow(GenerateId("user", now.millis, now.random36), username, crypto.hash(password), now.timestamp);
      FindFirstAppend(before, row, UsernameIs(username));
    }
    loggedIn := Login(db, crypto, username, password);
  }

  // ---------------------------------------------------------------------
  // posts

  /**
   * `createPost`: a signed-in user and non-blank content; the post stores the
   * trimmed content under the user's id and is read back by its id.
   */
  method CreatePost(db: Database, ctx: Context, now: Instant, content: string)
    returns (r: Result<Post, GqlError>)
    modifies db
    ensures ctx.user.None? ==> r == Err(AuthenticationError(LoginToCreatePost))
    ensures ctx.user.Some? && Blank(content) ==> r == Err(UserInputError(EmptyPost))
    ensures r.Ok? <==> ctx.user.Some? && !Blank(content)
    ensures r.Err? ==> db.posts == old(db.posts)
    ensures db.users == old(db.users) && db.messages == old(db.messages)
    ensures r.Ok? ==>
      var id := GenerateId("post", now.millis, now.random36);
      && db.posts == old(db.posts) + [PostRow(id, Trim(content), ctx.user.value.id, now.timestamp, now.timestamp)]
      && PostFindById(db.posts, id).Some?
      && r.value == PostOf(PostFindById(db.posts, id).value)
    ensures r.Ok? && PostFindById(old(db.posts), GenerateId("post", now.millis, now.random36)).None?
            ==> r.value == Post(GenerateId("post", now.millis, now.random36), Trim(content),
                                ctx.user.value.id, now.timestamp, now.timestamp)
  {
    if ctx.user.None? {
      return Err(AuthenticationError(LoginToCreatePost));
    }
    if Blank(content) {
      return Err(UserInputError(EmptyPost));
    }
    var before := db.posts;
    var id := GenerateId("post", now.millis, now.random36);
    db.CreatePost(id, Trim(content), ctx.user.value.id, now.timestamp);
    PostFindByIdAppend(before, PostRow(id, Trim(content), ctx.user.value.id, now.timestamp, now.timestamp));
    var row := PostFindById(db.posts, id);
    return Ok(PostOf(row.value));
  }

  /**
   * `updatePost`: signed in, then non-blank content, then the post exists,
   * then it is the user's own; on success only that post's content and
   * `updated_at` change, and the updated row is returned.
   */
  method UpdatePost(db: Database, ctx: Context, now: Instant, id: string, content: string)
    returns (r: Result<Post, GqlError>)
    modifies db
    ensures ctx.user.None? ==> r == Err(AuthenticationError(LoginToUpdatePost))
    ensures ctx.user.Some? && Blank(content) ==> r == Err(UserInputError(EmptyPost))
    ensures ctx.user.Some? && !Blank(content) && PostFindById(old(db.posts), id).None?
            ==> r == Err(UserInputError(PostNotFound))
    ensures ctx.user.Some? && !Blank(content) && PostFindById(old(db.posts), id).Some?
            && PostFindById(old(db.posts), id).value.user_id != ctx.user.value.id
            ==> r == Err(AuthenticationError(NotYourPostToUpdate))
    ensures r.Ok? <==> ctx.user.Some? && !Blank(content) && PostFindById(old(db.posts), id).Some?
                       && PostFindById(old(db.posts), id).value.user_id == ctx.user.value.id
    ensures r.Err? ==> db.posts == old(db.posts)
    ensures db.users == old(db.users) && db.messages == old(db.messages)
    ensures r.Ok? ==>
      && db.posts == UpdateWhere(old(db.posts), id, ctx.user.value.id, Trim(content), now.timestamp)
      && r.value == PostOf(PostFindById(old(db.posts), id).value.(content := Trim(content), updated_at := now.timestamp))
  {
    if ctx.user.None? {
      return Err(AuthenticationError(LoginToUpdatePost));
    }
    if Blank(content) {
      return Err(UserInputError(EmptyPost));
    }
    var existing := PostFindById(db.posts, id);
    if existing.None? {
      return Err(UserInputError(PostNotFound));
    }
    if existing.value.user_id != ctx.user.value.id {
      return Err(AuthenticationError(NotYourPostToUpdate));
    }
    var before := db.posts;
    db.UpdatePost(Trim(content), id, ctx.user.value.id, now.timestamp);
    UpdateWhereFindById(before, id, ctx.user.value.id, Trim(content), now.timestamp);
    var row := PostFindById(db.posts, id);
    return Ok(PostOf(row.value));
  }

  /**
   * `deletePost`: signed in, then the post exists, then it is the user's own;
   * on success the rows with that id and owner are removed and the result is true.
   */
  method DeletePost(db: Database, ctx: Context, id: string)
    returns (r: Result<bool, GqlError>)
    modifies db
    ensures ctx.user.None? ==> r == Err(AuthenticationError(LoginToDeletePost))
    ensures ctx.user.Some? && PostFindById(old(db.posts), id).None? ==> r == Err(UserInputError(PostNotFound))
    ensures ctx.user.Some? && PostFindById(old(db.posts), id).Some?
            && PostFindById(old(db.posts), id).value.user_id != ctx.user.value.id
            ==> r == Err(AuthenticationError(NotYourPostToDelete))
    ensures r.Ok? <==> ctx.user.Some? && PostFindById(old(db.posts), id).Some?
                       && PostFindById(old(db.posts), id).value.user_id == ctx.user.value.id
    ensures r.Ok? ==> r.value && db.posts == DeleteWhere(old(db.posts), id, ctx.user.value.id)
    ensures r.Err? ==> db.posts == old(db.posts)
    ensures db.users == old(db.users) && db.messages == old(db.messages)
  {
    if ctx.user.None? {
      return Err(AuthenticationError(LoginToDeletePost));
    }
    var existing := PostFindById(db.posts, id);
    if existing.None? {
      return Err(UserInputError(PostNotFound));
    }
    if existing.value.user_id != ctx.user.value.id {
      return Err(AuthenticationError(NotYourPostToDelete));
    }
    db.DeletePost(id, ctx.user.value.id);
    return Ok(true);
  }

  /** After a successful delete no post with that id and owner is left, and the post is gone. */
  lemma DeletedPostIsGone(posts: seq<PostRow>, id: string, userId: string)
    requires PostFindById(posts, id).Some? && PostFindById(posts, id).value.user_id == userId
    ensures PostFindById(posts, id).value !in DeleteWhere(posts, id, userId)
    ensures |DeleteWhere(posts, id, userId)| < |posts|
  {
    var p := PostFindById(posts, id).value;
    DeleteWhereCount(posts, id, userId, p);
    var k :| 0 <= k < |posts| && posts[k] == p;
    FilterDrops(posts, Survives(id, userId), k);
  }

  // ---------------------------------------------------------------------
  // chat

  /** The row the statement `messageQueries.findAll.all(1)[0]` reads. */
  function NewestMessage(messages: seq<MessageRow>): (m: MessageRow)
    requires |messages| > 0
    ensures m in messages
    ensures forall k :: 0 <= k < |messages| ==> Le(messages[k].created_at, m.created_at)
  {
    MessageFindAllFromTable(messages, 1, 0);
    forall k | 0 <= k < |messages| ensures Le(messages[k].created_at, MessageFindAll(messages, 1)[0].created_at) {
      MessageFindAllHeadIsNewest(messages, 1, messages[k]);
    }
    MessageFindAll(messages, 1)[0]
  }

  /**
   * `sendMessage`: a signed-in user and non-blank content; the trimmed content
   * is stored, the newest message of the table is read back, and that message
   * is published once on MESSAGE_ADDED and returned. Which row that is, by
   * how the new timestamp compares with the stored ones, is
   * NewestMessageAfterInsert.
   */
  method SendMessage(db: Database, bus: Bus, ctx: Context, now: Instant, content: string)
    returns (r: Result<Message, GqlError>)
    modifies db, bus
    ensures ctx.user.None? ==> r == Err(AuthenticationError(LoginToSendMessage))
    ensures ctx.user.Some? && Blank(content) ==> r == Err(UserInputError(EmptyMessage))
    ensures r.Ok? <==> ctx.user.Some? && !Blank(content)
    ensures r.Err? ==> db.messages == old(db.messages) && bus.published == old(bus.published)
    ensures db.users == old(db.users) && db.posts == old(db.posts)
    ensures r.Ok? ==>
      && db.messages == old(db.messages)
           + [MessageRow(GenerateId("msg", now.millis, now.random36), Trim(content), ctx.user.value.id, now.timestamp)]
      && r.value == MessageOf(NewestMessage(db.messages))
      && bus.published == old(bus.published) + [Event(MESSAGE_ADDED, MessageAdded(r.value))]
  {
    if ctx.user.None? {
      return Err(AuthenticationError(LoginToSendMessage));
    }
    if Blank(content) {
      return Err(UserInputError(EmptyMessage));
    }
    var message := StoreAndPublishNewest(db, bus, now, Trim(content), ctx.user.value.id);
    return Ok(message);
  }

  /** The success path of `sendMessage`: the insert, the read of the newest row, the publish. */
  method StoreAndPublishNewest(db: Database, bus: Bus, now: Instant, text: string, userId: string)
    returns (message: Message)
    modifies db, bus
    ensures db.messages == old(db.messages) + [MessageRow(GenerateId("msg", now.millis, now.random36), text, userId, now.timestamp)]
    ensures db.users == old(db.users) && db.posts == old(db.posts)
    ensures message == MessageOf(NewestMessage(db.messages))
    ensures bus.published == old(bus.published) + [Event(MESSAGE_ADDED, MessageAdded(message))]
  {
    var id := GenerateId("msg", now.millis, now.random36);
    db.CreateMessage(id, text, userId, now.timestamp);
    var row := NewestMessage(db.messages);
    message := MessageOf(row);
    bus.Publish(MESSAGE_ADDED, MessageAdded(message));
  }

  /** Which row `findAll.all(1)[0]` reads after an insert, by how the new timestamp compares. */
  lemma NewestMessageAfterInsert(before: seq<MessageRow>, x: MessageRow)
    ensures (forall k :: 0 <= k < |before| ==> Lt(before[k].created_at, x.created_at))
            ==> NewestMessage(before + [x]) == x
    ensures (exists k :: 0 <= k < |before| && Le(x.created_at, before[k].created_at))
            ==> exists k :: 0 <= k < |before| && NewestMessage(before + [x]) == before[k]
  {
    var s := before + [x];
    assert NewestMessage(s) == SortDesc(s, MessageCreatedAt)[0];
    if forall k :: 0 <= k < |before| ==> Lt(before[k].created_at, x.created_at) {
      SortDescStrictMaxFirst(before, x, MessageCreatedAt);
    }
    if exists k :: 0 <= k < |before| && Le(x.created_at, before[k].created_at) {
      var k :| 0 <= k < |before| && Le(x.created_at, before[k].created_at);
      assert before[k] in before;
      SortDescTieGoesToOlder(before, x, MessageCreatedAt);
    }
  }

  /**
   * Two messages sent within the same second of CURRENT_TIMESTAMP: after the
   * seed, a message stored with the seed's own timestamp is not the row that
   * `findAll.all(1)[0]` reads back; the first seeded message is.
   */
  lemma SameSecondReturnsOlderMessage(now: string, x: MessageRow)
    requires x.created_at == now
    ensures NewestMessage(SeedMessages(now) + [x]) == SeedMessages(now)[0]
    ensures NewestMessage(SeedMessages(now) + [x]) != x || x == SeedMessages(now)[0]
  {
    var s := SeedMessages(now) + [x];
    forall i, j | 0 <= i < |s| && 0 <= j < |s| ensures MessageCreatedAt(s[i]) == MessageCreatedAt(s[j]) {
    }
    SortDescAllTies(s, MessageCreatedAt);
  }

  function MessageIdIs(id: string): MessageRow -> bool {
    (m: MessageRow) => m.id == id
  }

  /** `SELECT * FROM messages WHERE id = ?` with `.get`, the read that returns the inserted row. */
  function MessageFindById(messages: seq<MessageRow>, id: string): (r: Option<MessageRow>)
    ensures r.None? <==> forall k :: 0 <= k < |messages| ==> messages[k].id != id
    ensures r.Some? ==> r.value in messages && r.value.id == id
  {
    FindFirst(messages, MessageIdIs(id))
  }

  /** After an insert, the read by the new row's id finds a row, and finds that row when its id is new to the table. */
  lemma MessageFindByIdAfterInsert(before: seq<MessageRow>, x: MessageRow)
    ensures MessageFindById(before + [x], x.id).Some?
    ensures MessageFindById(before, x.id).None? ==> MessageFindById(before + [x], x.id) == Some(x)
  {
    FindFirstAppend(before, x, MessageIdIs(x.id));
  }

  /**
   * `sendMessage` reading the new row back by its id, as `createPost` does:
   * whenever the generated id is new to the table, the message returned and
   * published is exactly the one stored, whatever the timestamps of the others.
   */
  method SendMessageById(db: Database, bus: Bus, ctx: Context, now: Instant, content: string)
    returns (r: Result<Message, GqlError>)
    modifies db, bus
    ensures ctx.user.None? ==> r == Err(AuthenticationError(LoginToSendMessage))
    ensures ctx.user.Some? && Blank(content) ==> r == Err(UserInputError(EmptyMessage))
    ensures r.Ok? <==> ctx.user.Some? && !Blank(content)
    ensures r.Err? ==> db.messages == old(db.messages) && bus.published == old(bus.published)
    ensures db.users == old(db.users) && db.posts == old(db.posts)
    ensures r.Ok? ==>
      && db.messages == old(db.messages)
           + [MessageRow(GenerateId("msg", now.millis, now.random36), Trim(content), ctx.user.value.id, now.timestamp)]
      && bus.published == old(bus.published) + [Event(MESSAGE_ADDED, MessageAdded(r.value))]
    ensures r.Ok? && MessageFindById(old(db.messages), GenerateId("msg", now.millis, now.random36)).None?
            ==> r.value == Message(GenerateId("msg", now.millis, now.random36), Trim(content),
                                   ctx.user.value.id, now.timestamp)
  {
    if ctx.user.None? {
      return Err(AuthenticationError(LoginToSendMessage));
    }
    if Blank(content) {
      return Err(UserInputError(EmptyMessage));
    }
    var message := StoreAndPublishById(db, bus, now, Trim(content), ctx.user.value.id);
    return Ok(message);
  }

  /** The success path of SendMessageById: the insert, the read of the row by its id, the publish. */
  method StoreAndPublishById(db: Database, bus: Bus, now: Instant, text: string, userId: string)
    returns (message: Message)
    modifies db, bus
    ensures db.messages == old(db.messages) + [MessageRow(GenerateId("msg", now.millis, now.random36), text, userId, now.timestamp)]
    ensures db.users == old(db.users) && db.posts == old(db.posts)
    ensures MessageFindById(old(db.messages), GenerateId("msg", now.millis, now.random36)).None?
            ==> message == Message(GenerateId("msg", now.millis, now.random36), text, userId, now.timestamp)
    ensures bus.published == old(bus.published) + [Event(MESSAGE_ADDED, MessageAdded(message))]
  {
    var id := GenerateId("msg", now.millis, now.random36);
    var inserted := MessageRow(id, text, userId, now.timestamp);
    MessageFindByIdAfterInsert(db.messages, inserted);
    db.CreateMessage(id, text, userId, now.timestamp);
    var row := MessageFindById(db.messages, id);
    message := MessageOf(row.value);
    bus.Publish(MESSAGE_ADDED, MessageAdded(message));
  }
}
