# GraphQL-Server: a verified model of the write path, identity handling and client logic

This project models the core of FADL285/GraphQL-Server, a GraphQL backend with posts and chat and a Vue client. The model covers:

- the mutation resolvers (`register`, `login`, `createPost`, `updatePost`, `deletePost`, `sendMessage`);
- the prepared SQLite statements they run, and the seed-once initial data;
- Bearer-header parsing and the two request contexts;
- the field resolvers;
- the resolvers of the minimal in-memory demo;
- on the client: error-message cleaning, the router guard, and the Pinia auth store over `localStorage`.

The model is split into these modules:

- `Types` holds the row and API records.
- `Js` holds the slice of JavaScript semantics the code relies on: `split(" ")`, `trim()` and `\s`, `substring`, integer rendering, truthiness and `String(v)`.
- `Seqs` holds `filter`, `find` and SQL `LIMIT`.
- `Order` holds `ORDER BY <text> DESC` under SQLite's BINARY collation, as a stable insertion sort.
- `Auth`, `Db`, `PubSub`, `Mutation`, `Server`, `Resolvers`, `Query`, `UserResolver`, `Errors`, `Router` and `AuthStore` follow the source files of the same role.

How the source maps onto Dafny:

- A `Database` class holds the three tables as sequences. The statements that write change it in place.
- The reads are functions of a table's rows.
- A `Bus` class holds the log of published events.
- The resolvers of `Mutation.ts` are methods that validate in the source's order. They then either change nothing or make the one change the source makes.
- bcrypt and jsonwebtoken are the four uninterpreted functions of a `Crypto` value.
- `Date.now()`, `Math.random().toString(36)` and SQLite's `CURRENT_TIMESTAMP` arrive as an `Instant` parameter.
- `JSON.stringify` and `JSON.parse` on the stored user are uninterpreted functions of a `UserJson` value.

Three places follow the code where other descriptions of the system differ:

- A taken username fails with `UserInputError("Username already taken")`. There is no separate conflict error type (backend/src/resolvers/Mutation.ts:28-31).
- `initFromStorage` assigns the stored token before it parses the stored user. A parse failure therefore leaves the restored token in place and the user as it was. It does not leave the state unchanged (vue/src/stores/auth.ts:28-32).
- `sendMessage` does not read back the row it inserted. It reads the newest row of the table (see Findings).

## Model

| member | source | states |
|---|---|---|
| Js.TrimStart | vue/src/utils/errors.ts:14 | the `\s*` after the tag removes exactly the longest leading whitespace run: what remains is a suffix of the input that does not start with whitespace |
| Js.TrimEnd | vue/src/utils/errors.ts:14 | the end half of `trim()`: a prefix of the input without trailing whitespace, and only whitespace is removed |
| Js.Trim | vue/src/utils/errors.ts:14 | `trim()` gives an infix of the input with no whitespace at either end, and everything removed from either end is whitespace |
| Js.TrimSpacesBefore | vue/src/utils/errors.ts:14 | whitespace put in front of a text does not change its trim |
| Js.TrimAllSpace | backend/src/resolvers/Mutation.ts:86 | content made only of whitespace trims to the empty string, so it counts as blank |
| Js.Split | backend/src/utils/auth.ts:37 | `split(" ")` never gives an empty array, no part contains the separator, and joining the parts gives the header back |
| Js.SplitJoin | backend/src/utils/auth.ts:37 | splitting the join of separator-free parts gives exactly those parts, so the split of a string is unique |
| Js.Substring | backend/src/utils/auth.ts:61 | `substring(start, end)` with indices in order keeps exactly the characters between the two indices, each cut back to the length; with indices reversed, the same between the swapped indices; never more than `end - start` characters |
| Js.DecimalRoundTrip | backend/src/utils/auth.ts:61 | the decimal text of `Date.now()` reads back as the same number, so the rendering is injective |
| Seqs.Filter | backend/src/resolvers/Query.ts:13 | `filter` keeps only elements that pass the test and is never longer than its input |
| Seqs.FilterMember | backend/src/resolvers/Query.ts:13 | an element is in the result exactly when it is in the input and passes the test |
| Seqs.FilterCount | backend/src/resolvers/Query.ts:13 | each element that passes occurs as often as in the input; each element that fails does not occur |
| Seqs.FilterAppend | backend/src/resolvers/Query.ts:13 | the filter of `a + b` is the filter of `a` followed by the filter of `b`, so the input order is kept |
| Seqs.FindFirst | backend/src/resolvers/Query.ts:5 | `find` is undefined exactly when no element passes; otherwise it is the element at the first passing index |
| Seqs.FindFirstAppend | backend/src/db/index.ts:79 | appending a row never changes which earlier row a `get` finds; the new row is found only when no earlier row matches |
| Seqs.Limit | backend/src/db/index.ts:105-107 | `LIMIT n` keeps the first `min(n, |s|)` rows, and a negative limit keeps every row |
| Order.LtTotal | backend/src/db/index.ts:90 | two different `created_at` texts are always ordered one way or the other |
| Order.LeTransitive | backend/src/db/index.ts:90 | the BINARY collation order is transitive |
| Order.SortDesc | backend/src/db/index.ts:90 | `ORDER BY created_at DESC` returns a permutation of the table: same length, same multiset of rows |
| Order.InsertSorted | backend/src/db/index.ts:90 | inserting a row into a sequence in descending order keeps it in descending order |
| Order.SortDescSorted | backend/src/db/index.ts:90 | the sorted rows have non-increasing `created_at` |
| Order.SortDescHeadIsMax | backend/src/db/index.ts:105-107 | the first sorted row has a `created_at` at least that of every row of the table |
| Order.SortDescAllTies | backend/src/db/index.ts:105-107 | when every row has the same `created_at`, the sort keeps table order |
| Order.SortDescStrictMaxFirst | backend/src/db/index.ts:105-107 | a row appended with a strictly later `created_at` than every other row sorts first |
| Order.SortDescTieGoesToOlder | backend/src/db/index.ts:105-107 | a row appended with a `created_at` no later than some earlier row's is not first; an earlier row is |
| Order.FilterSortDesc | backend/src/db/index.ts:91-93 | filtering the sorted rows gives the same result as sorting the filtered rows |
| Db.UserFindById | backend/src/db/index.ts:79 | `findById.get` is undefined exactly when no user has the id; otherwise it is a row of the table with that id |
| Db.UserFindByUsername | backend/src/db/index.ts:80 | `findByUsername.get` is undefined exactly when no user has the name; otherwise it is a row with that name |
| Db.UserFindByIdUnique | backend/src/db/index.ts:79 | with unique ids, the id of a row finds exactly that row |
| Db.UserFindByIdAppend | backend/src/db/index.ts:79-84 | after `create.run`, the new id finds the new row unless an earlier row has that id |
| Db.UserFindAll | backend/src/db/index.ts:81 | `userQueries.findAll` lists every user in table order with id, username and `created_at` only, never the password |
| Db.PostFindById | backend/src/db/index.ts:89 | `findById.get` is undefined exactly when no post has the id; otherwise it is a row of the table with that id |
| Db.PostFindByIdAppend | backend/src/db/index.ts:89-96 | after `create.run`, the new id finds the new row unless an earlier row has that id |
| Db.PostFindAll | backend/src/db/index.ts:90 | `findAll` returns every post exactly once per occurrence, with `created_at` non-increasing |
| Db.PostFindByUserId | backend/src/db/index.ts:91-93 | `findByUserId` is exactly `findAll`'s rows with that `user_id`, in `findAll`'s order, newest first |
| Db.PostFindByUserIdCount | backend/src/db/index.ts:91-93 | every post of the owner is returned as often as it is stored, and no other post is returned |
| Db.UpdateWhere | backend/src/db/index.ts:97-99 | the UPDATE keeps the number of rows; each row matching both id and `user_id` gets the new content and `updated_at`, and every other row is kept as it was |
| Db.UpdateWhereNoMatch | backend/src/db/index.ts:97-99 | an UPDATE that matches no row changes no row |
| Db.UpdateWhereKeepsKeys | backend/src/db/index.ts:97-99 | the UPDATE never changes any row's id, `user_id` or `created_at` |
| Db.UpdateWhereFindById | backend/src/db/index.ts:97-99 | when the row the id finds belongs to the user, the id then finds that row with the new content and `updated_at` |
| Db.DeleteWhere | backend/src/db/index.ts:100 | after the DELETE, no row matches both the id and `user_id`, and the table is no longer than before |
| Db.DeleteWhereCount | backend/src/db/index.ts:100 | the DELETE removes every matching row and keeps every other row as often as before |
| Db.DeleteWhereNoMatch | backend/src/db/index.ts:100 | a DELETE that matches no row changes nothing |
| Db.MessageFindAll | backend/src/db/index.ts:105-107 | `findAll.all(n)` returns at most `n` messages, all of them when `n` is negative; they are the first rows of the table sorted newest first, in that order |
| Db.MessageFindAllHeadIsNewest | backend/src/db/index.ts:105-107 | with a limit other than 0 the result is non-empty, and its first message is at least as new as every stored message |
| Db.MessageFindAllFromTable | backend/src/db/index.ts:105-107 | every message returned is a stored row |
| Db.WritesKeepOwners | backend/src/db/index.ts:97-100 | the UPDATE and the DELETE of posts never leave a post or message whose user does not exist |
| Db.InsertsKeepOwners | backend/src/db/index.ts:82-110 | inserting a user, or a post or message owned by an existing user, keeps every owner present |
| Db.SeedUsers | backend/src/db/index.ts:44-54 | the seed has three users, `user-1` to `user-3`, all with the same hash of "password123" |
| Db.SeedPosts | backend/src/db/index.ts:56-63 | the seed has four posts, each owned by one of `user-1` to `user-3` |
| Db.SeedMessages | backend/src/db/index.ts:65-72 | the seed has three messages, each sent by one of `user-1` to `user-3` |
| Db.SeedOwnersExist | backend/src/db/index.ts:51-72 | every seeded post and message names a seeded user |
| Db.Database.constructor | backend/src/db/index.ts:20-27 | a new schema has three empty tables |
| Db.Database.CreateUser | backend/src/db/index.ts:82-84 | exactly one user row with the given fields is appended; the other tables are unchanged |
| Db.Database.CreatePost | backend/src/db/index.ts:94-96 | exactly one post row is appended, with both timestamps set to the current time; the other tables are unchanged |
| Db.Database.UpdatePost | backend/src/db/index.ts:97-99 | the posts table becomes its UPDATE; the other tables are unchanged |
| Db.Database.DeletePost | backend/src/db/index.ts:100 | the posts table becomes its DELETE; the other tables are unchanged |
| Db.Database.CreateMessage | backend/src/db/index.ts:108-110 | exactly one message row is appended; the other tables are unchanged |
| Db.Database.Seed | backend/src/db/index.ts:43-75 | `seedDatabase` appends the three users, then the four posts, then the three messages |
| Db.Database.InitDatabase | backend/src/db/index.ts:30-40 | the tables are seeded exactly when the users table is empty; otherwise nothing changes, and afterwards the users table is never empty |
| Db.InitDatabaseTwice | backend/src/db/index.ts:30-40 | a second `initDatabase` leaves the seeded state of the first, and that state names only existing owners |
| PubSub.Bus.Publish | backend/src/resolvers/Mutation.ts:184 | `pubsub.publish` appends exactly one event with the given topic and payload |
| Auth.ExtractToken | backend/src/utils/auth.ts:34-41 | a missing or empty header gives null; a returned token is exactly what follows "Bearer " in the header and contains no space |
| Auth.ExtractTokenRoundTrip | backend/src/utils/auth.ts:37-40 | the header `"Bearer " + t` gives back `t` for every `t` without a space |
| Auth.ExtractTokenAfterScheme | backend/src/utils/auth.ts:37-40 | whatever follows "Bearer ", the result is either that text or null |
| Auth.ExtractTokenExactly | backend/src/utils/auth.ts:37-40 | a header gives `t` if and only if it is `"Bearer " + t` and `t` has no space |
| Auth.ExtractTokenSchemeCase | backend/src/utils/auth.ts:38 | "bearer x" gives null: the scheme is case-sensitive |
| Auth.ExtractTokenExtraField | backend/src/utils/auth.ts:38 | "Bearer a b" gives null |
| Auth.ExtractTokenDoubleSpace | backend/src/utils/auth.ts:38 | "Bearer  x" (two spaces) gives null |
| Auth.ExtractTokenSchemeOnly | backend/src/utils/auth.ts:38 | "Bearer" alone gives null |
| Auth.ExtractTokenEmptyCredential | backend/src/utils/auth.ts:37-40 | "Bearer " gives the empty token, not null |
| Auth.GenerateId | backend/src/utils/auth.ts:60-62 | an id starts with its prefix and "-", and ends with "-" followed by characters 2 to 9 of the random text, as many as it has |
| Auth.GenerateIdDistinctMillis | backend/src/utils/auth.ts:61 | ids generated with the same prefix in different milliseconds differ, whatever the random parts |
| Mutation.Register | backend/src/resolvers/Mutation.ts:15-50 | checks the username length, then the password length, then availability; the exact error for each; no write on failure; on success exactly one user row with the hashed password, a result without the password, and a token signed over the user's id and name |
| Mutation.Login | backend/src/resolvers/Mutation.ts:52-77 | succeeds exactly when the username exists and the password matches; an unknown user and a wrong password fail with the same error; on success the projection and token of the row found by name; never writes |
| Mutation.RegisterThenLogin | backend/src/resolvers/Mutation.ts:15-77 | after a successful `register`, `login` with the same credentials succeeds and signs in the same identity |
| Mutation.CreatePost | backend/src/resolvers/Mutation.ts:81-101 | not signed in, then blank content, each with its error and no write; on success exactly one post with the trimmed content and the user's id, read back by its id, and it is that post when the id is new |
| Mutation.UpdatePost | backend/src/resolvers/Mutation.ts:103-136 | signed in, then non-blank, then found, then owned, each with its error and no write; on success the posts table is the UPDATE, and the result is the found post with the trimmed content and new `updated_at` |
| Mutation.DeletePost | backend/src/resolvers/Mutation.ts:138-155 | signed in, then found, then owned, each with its error and no write; on success the posts table is the DELETE and the result is true |
| Mutation.DeletedPostIsGone | backend/src/resolvers/Mutation.ts:152-154 | after a successful delete, the post is no longer in the table and the table is shorter |
| Mutation.NewestMessage | backend/src/resolvers/Mutation.ts:175 | `findAll.all(1)[0]` is a stored message at least as new as every stored message |
| Mutation.SendMessage | backend/src/resolvers/Mutation.ts:159-187 | not signed in, then blank content, each with its error, no write and no publish; on success one message with the trimmed content is stored, the newest stored row is returned, and exactly that message is published once on MESSAGE_ADDED |
| Mutation.StoreAndPublishNewest | backend/src/resolvers/Mutation.ts:172-184 | the insert, then the read of the newest row, then exactly one publish of that row |
| Mutation.NewestMessageAfterInsert | backend/src/resolvers/Mutation.ts:172-175 | the newest row after the insert is the new message when every stored message is strictly older; it is an earlier row when some message has the same or a later timestamp |
| Mutation.SameSecondReturnsOlderMessage | backend/src/resolvers/Mutation.ts:175 | after the seed, a message stored in the seed's second is not the row read back; the first seeded message is |
| Mutation.MessageFindById | backend/src/resolvers/Mutation.ts:173-175 | a read by id is undefined exactly when no message has the id; otherwise it is a stored message with that id |
| Mutation.MessageFindByIdAfterInsert | backend/src/resolvers/Mutation.ts:173-175 | after the insert, the new id always finds a row, and it finds the new row when the id was not already stored |
| Mutation.SendMessageById | backend/src/resolvers/Mutation.ts:159-187 | the same checks and writes as `sendMessage`, but the returned and published message is the stored one whenever its id is new |
| Mutation.StoreAndPublishById | backend/src/resolvers/Mutation.ts:172-184 | the insert, then the read by id, then one publish; the message is the stored one whenever its id is new |
| Server.UserForToken | backend/src/server.ts:82-92 | a user is found exactly when the token verifies and a row has the payload's id; that user has the payload's id and is the projection of a stored row |
| Server.HttpContext | backend/src/server.ts:77-98 | no user without a truthy Bearer token; any user found comes from the token that follows "Bearer " in the header |
| Server.HttpContextRejectedToken | backend/src/server.ts:82-97 | a token that does not verify gives `{user: null}` |
| Server.HttpContextUnknownUser | backend/src/server.ts:84-97 | a verified token whose user id has no row gives `{user: null}` |
| Server.HttpContextResolves | backend/src/server.ts:79-92 | a well-formed header with a verified token whose row exists gives that row's id, username and creation time |
| Server.WsContext | backend/src/server.ts:48-69 | no user without a truthy string `authToken`; with a truthy string, exactly the user that string resolves to as it is, with no Bearer parsing |
| Server.WsMatchesHttp | backend/src/server.ts:48-98 | the same token gives the same context as the WebSocket `authToken` and after "Bearer " in the HTTP header |
| Server.WsTokenUsedAsIs | backend/src/server.ts:50-53 | the WebSocket context does no Bearer parsing: a "Bearer …" `authToken` is verified whole |
| Resolvers.PostsOf | backend/src/resolvers/index.ts:11-17 | the mapping keeps the length and renames every column of every row, keeping its value |
| Resolvers.UserPosts | backend/src/resolvers/index.ts:9-18 | `User.posts` is the `findByUserId` rows in their order, each renamed to the API shape; no more entries than the table holds, all owned by the parent, newest first |
| Resolvers.UserPostsComplete | backend/src/resolvers/index.ts:9-10 | a stored post appears in `User.posts` exactly when it belongs to the parent |
| Resolvers.Author | backend/src/resolvers/index.ts:21-43 | `Post.author` and `Message.author` are null exactly when no user has the id; otherwise the id, name and creation time of such a user |
| Resolvers.AuthorOfOwner | backend/src/resolvers/index.ts:22-29 | with unique ids, the author is exactly the owner's row without the password |
| Query.CurrentUser | backend/src/resolvers/Query.ts:4-7 | `currentUser` is undefined exactly when no user has the id; otherwise it is the first such user |
| Query.PostsWithUserId | backend/src/resolvers/Query.ts:13 | every post returned has the given `userId`, and there are no more than in `data.posts` |
| Query.PostsByUser | backend/src/resolvers/Query.ts:8-15 | `postsByUser` returns only posts of that user, no more than `data.posts` holds |
| Query.PostsWithUserIdCount | backend/src/resolvers/Query.ts:13 | every post of that user is returned as often as it is stored, and no other post is returned |
| Query.PostsWithUserIdOrder | backend/src/resolvers/Query.ts:13 | the filter keeps the order of `data.posts` |
| Query.PostsWithUserIdAll | backend/src/resolvers/Query.ts:13 | when every post belongs to the user, `data.posts` comes back unchanged |
| UserResolver.Posts | backend/src/resolvers/User.ts:4-6 | `posts` returns only the parent's posts, no more than `data.posts` holds, and the same list `postsByUser(parent.id)` gives |
| UserResolver.PostsComplete | backend/src/resolvers/User.ts:5 | every post of the parent appears as often as it is stored, and no other post appears |
| Errors.StripGraphQLPrefix | vue/src/utils/errors.ts:14 | the replace leaves a suffix of the message; when the tag matches at the start, everything removed after the tag is whitespace and the result does not start with whitespace; without the tag the message is unchanged |
| Errors.CleanGraphQLError | vue/src/utils/errors.ts:10-15 | an empty message gives the default text; any other message gives a trimmed result: the trim of the text after the tag, or of the whole message when there is no tag |
| Errors.CleanKeepsCleanMessage | vue/src/utils/errors.ts:14 | a message without the tag or edge whitespace comes back unchanged |
| Errors.CleanTagSpace | vue/src/utils/errors.ts:14 | "[GraphQL] " + t gives t for any already clean t |
| Errors.CleanRemovesOneTag | vue/src/utils/errors.ts:14 | only one tag is removed, so cleaning is not idempotent |
| Errors.CleanBareTag | vue/src/utils/errors.ts:11-14 | "[GraphQL]" gives the empty string, not the default text |
| Errors.CleanTagOnlyAtStart | vue/src/utils/errors.ts:14 | a tag behind leading whitespace is kept: "  [GraphQL] x" gives "[GraphQL] x" |
| Errors.CleanTagAnyCase | vue/src/utils/errors.ts:14 | the tag matches in any ASCII case: every spelling of "[GraphQL]" that differs only in letter case, followed by a space and a clean text, cleans to that text |
| Errors.GetErrorMessage | vue/src/utils/errors.ts:22-38 | a falsy value gives the default text; a string, an Error, and an object with `message` give the cleaned text; any other value gives the default text |
| Errors.GetErrorMessageTrimmed | vue/src/utils/errors.ts:22-38 | the text shown never has whitespace at either end |
| Errors.GetErrorMessageKindsAgree | vue/src/utils/errors.ts:25-35 | an Error and an object whose `message` is a string read the same as that string |
| Errors.GetErrorMessageEmptyError | vue/src/utils/errors.ts:29-31 | an Error with an empty message gives the default text |
| Router.BeforeEach | vue/src/router/index.ts:47-63 | a redirect to login carrying the target path exactly when the route needs auth and there is none; a redirect home exactly when the route is guest-only and the user is signed in; otherwise proceed, so `next` is called once, with the auth check first |
| Router.GuardDirections | vue/src/router/index.ts:47-63 | a signed-in user is never sent to login, and a guest is never sent home |
| Router.RouteNamed | vue/src/router/index.ts:13-43 | a found route is in the table and has that name |
| Router.RedirectNamesResolve | vue/src/router/index.ts:14-24 | the names "home" and "login" the guard redirects to are the first and second routes |
| Router.RedirectTargetProceeds | vue/src/router/index.ts:47-63 | a redirect never loops: navigation to the route redirected to proceeds |
| Router.RouteTableBehaviour | vue/src/router/index.ts:13-63 | `/` always proceeds; `/login` and `/register` send signed-in users home; `/posts` and `/chat` send guests to login with the redirect path |
| AuthStore.LocalStorage.GetItem | vue/src/stores/auth.ts:22-23 | `getItem` gives the stored string exactly when the key is present, and null otherwise |
| AuthStore.LocalStorage.SetItem | vue/src/stores/auth.ts:41-42 | `setItem` stores the value under the key and changes no other key |
| AuthStore.LocalStorage.RemoveItem | vue/src/stores/auth.ts:56-57 | `removeItem` removes the key and changes no other key |
| AuthStore.Store.constructor | vue/src/stores/auth.ts:10-12 | the store starts with no token, no user and not loading |
| AuthStore.Store.IsAuthenticated | vue/src/stores/auth.ts:15 | true exactly when the token is a non-empty string and there is a user |
| AuthStore.Store.UserId | vue/src/stores/auth.ts:16 | the user's id, or null exactly when there is no user |
| AuthStore.Store.Username | vue/src/stores/auth.ts:17 | the user's name, or null exactly when there is no user |
| AuthStore.Store.ClearStorage | vue/src/stores/auth.ts:54-61 | both storage keys are removed and nothing else changes |
| AuthStore.Store.InitFromStorage | vue/src/stores/auth.ts:20-33 | without both stored values non-empty nothing changes; otherwise the stored token is taken, and the parsed user is taken, or on a parse failure both keys are cleared and the user is kept |
| AuthStore.Store.SetAuth | vue/src/stores/auth.ts:35-46 | token and user take the given values, and both keys are written |
| AuthStore.Store.ClearAuth | vue/src/stores/auth.ts:48-52 | token and user become null, both keys are removed, and the store is signed out |
| AuthStore.Store.SetLoading | vue/src/stores/auth.ts:63-65 | only `isLoading` changes |
| AuthStore.SetAuthThenRestore | vue/src/stores/auth.ts:20-46 | after `setAuth(t, u)`, a fresh store over the same storage restores `t` and `u` and is signed in, when parsing the stored text of `u` gives `u` |

## Left out

- Password hashing, password comparison, and JWT signing and verification (backend/src/utils/auth.ts:16-29, 46-55). They are library calls, passed in as uninterpreted functions. Nothing is proved about signatures, the 7-day expiry or hash strength. `verify` is total, which models `verifyToken` catching every exception and returning null.
- The clock and randomness. `Date.now()`, `Math.random().toString(36)` and `CURRENT_TIMESTAMP` are parameters. One `Instant` is used per call, so every timestamp written by one call is the same value.
- SQLite itself: the connection, the pragma, loading `schema.sql`, the data directory (backend/src/db/index.ts:1-27), and the `console.log` calls. `schema.sql` is not part of this model. So the model assumes no primary key, uniqueness or foreign-key constraint. It also assumes that `created_at` and `updated_at` default to the current timestamp. `get` returns the first matching row in table order.
- Tie order of `ORDER BY created_at DESC`. SQL leaves the order of equal keys unspecified. The model fixes it as table order (a stable sort). Properties that depend on ties (Order.SortDescAllTies, Order.SortDescTieGoesToOlder, Mutation.SameSecondReturnsOlderMessage) hold for that choice.
- Db.Database.Seed: all ten seed rows get one timestamp. In the source, `seedDatabase` runs one INSERT per row (backend/src/db/index.ts:48-72), and each evaluates `CURRENT_TIMESTAMP` on its own. The seed rows therefore share a timestamp only when no second boundary passes during the seed. The model does not capture seed rows with different timestamps.
- Pub/sub delivery, subscriptions and async iterators (backend/src/pubsub.ts, backend/src/resolvers/Subscription.ts). Only the publish call is modelled, as an append to a log.
- Server bootstrapping: Express, CORS, the WebSocket server, Apollo plugins and listen. This is transport plumbing. Only the two `context` functions are modelled.
- Concurrency: concurrent requests, concurrent registrations of one name, and the storage engine's serialisation. The model is sequential.
- Exceptions thrown by `localStorage` when it is full or unavailable. The `try`/`catch` around `setItem` and `removeItem` and the logged errors are not modelled (vue/src/stores/auth.ts:40-45, 55-60).
- AuthStore.Store.InitFromStorage: `JSON.parse` is modelled as giving a User, null or a SyntaxError. Stored text that parses to another kind of JSON value is not modelled.
- Errors.CleanGraphQLError: the `/i` flag is modelled as ASCII case folding on the tag. No Unicode case folding is done.
- String lengths count Unicode code points, not the UTF-16 code units of JavaScript's `.length`. The checks `username.length < 3` and `password.length < 6` differ from the model for text outside the Basic Multilingual Plane.
- Server.WsContext: `authToken` is a JavaScript value. A truthy non-string makes `jwt.verify` throw, which `verifyToken` turns into null, so no user is found. The model states that outcome without modelling the exception.
- Numbers are integers in `JsValue`. `String(v)` of a fractional number is not modelled.
- The default `generateId` prefix `"id"` is the constant `Auth.DefaultIdPrefix`. No caller in the core relies on it.
- Query and User resolvers of the minimal demo read `data` and `currentUserId` from a context that the backend's `Context` type does not declare. They get their own `DemoContext` datatype.

## Findings

| source | as written | input that shows it | evidently intended | confidence | as-written member | corrected member |
|---|---|---|---|---|---|---|
| backend/src/resolvers/Mutation.ts:175 | after the insert, `sendMessage` reads `messageQueries.findAll.all(1)[0]`. That is the newest row by `created_at`, which has a resolution of one second. It returns and publishes that row instead of the one just stored. | seed the database at timestamp T, then send a message whose `CURRENT_TIMESTAMP` is also T: the row read back is seeded message "msg-1", not the new message | return and publish the row just inserted, read back by its id as `createPost` does at line 93 | medium: SQL leaves the order of rows with equal `created_at` unspecified, so the row returned within the same second depends on the engine; not executed | Mutation.SendMessage, Mutation.SameSecondReturnsOlderMessage | Mutation.SendMessageById |
