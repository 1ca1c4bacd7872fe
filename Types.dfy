/**
 * Row and record types of the backend (backend/src/types/index.ts), the
 * error kinds the resolvers throw, and the Option/Result wrappers used for
 * "undefined or a value" and "throws or returns".
 */
module Types {

  datatype Option<+T> = None | Some(value: T)

  datatype Result<+T, +E> = Ok(value: T) | Err(error: E)

  /** A row of the `users` table: the only record that carries the password hash. */
  datatype UserRow = UserRow(id: string, username: string, password: string, created_at: string)

  /** A row of the `posts` table. */
  datatype PostRow = PostRow(id: string, content: string, user_id: string, created_at: string, updated_at: string)

  /** A row of the `messages` table. */
  datatype MessageRow = MessageRow(id: string, content: string, user_id: string, created_at: string)

  /** The API view of a user: it has no password field at all. */
  datatype User = User(id: string, username: string, createdAt: string)

  /** The API view of a post. */
  datatype Post = Post(id: string, content: string, userId: string, createdAt: string, updatedAt: string)

  /** The API view of a chat message. */
  datatype Message = Message(id: string, content: string, userId: string, createdAt: string)

  datatype AuthPayload = AuthPayload(token: string, user: User)

  /** The resolver context of the authenticated backend. */
  datatype Context = Context(user: Option<User>)

  /** The two error classes of apollo-server-express the resolvers throw. */
  datatype GqlError = UserInputError(message: string) | AuthenticationError(message: string)

  /** `{id: row.id, username: row.username, createdAt: row.created_at}`: the password is dropped. */
  function UserOf(row: UserRow): User {
    User(row.id, row.username, row.created_at)
  }

  /** The snake_case to camelCase renaming of a post row. */
  function PostOf(row: PostRow): Post {
    Post(row.id, row.content, row.user_id, row.created_at, row.updated_at)
  }

  /** The snake_case to camelCase renaming of a message row. */
  function MessageOf(row: MessageRow): Message {
    Message(row.id, row.content, row.user_id, row.created_at)
  }

  /**
   * What one call observes from its environment: `Date.now()`, the base-36 text
   * of `Math.random()`, and SQLite's `CURRENT_TIMESTAMP`.
   */
  datatype Instant = Instant(millis: nat, random36: string, timestamp: string)
}
