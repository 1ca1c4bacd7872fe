/**
 * vue/src/stores/auth.ts: the Pinia auth store as an object with its three
 * refs, computed getters as functions of them, and actions that update them
 * and the browser's localStorage, a map from keys to strings.
 */
module AuthStore {
  import opened Types

  const TokenKey: string := "graphql_auth_token"
  const UserKey: string := "graphql_auth_user"

  /** `window.localStorage`. */
  class LocalStorage {
    var items: map<string, string>

    constructor ()
      ensures items == map[]
    {
      items := map[];
    }

    /** `getItem(key)`: the stored string, or null. */
    function GetItem(key: string): (r: Option<string>)
      reads this
      ensures r.Some? <==> key in items
      ensures r.Some? ==> r.value == items[key]
    {
      if key in items then Some(items[key]) else None
    }

    /** `setItem(key, value)`. */
    method SetItem(key: string, value: string)
      modifies this
      ensures items == old(items)[key := value]
    {
      items := items[key := value];
    }

    /** `removeItem(key)`. */
    method RemoveItem(key: string)
      modifies this
      ensures items == old(items) - {key}
    {
      items := items - {key};
    }
  }

  /** What `JSON.parse` gives for the stored user: a User or null, or a thrown SyntaxError. */
  datatype ParseResult = SyntaxError | Parsed(value: Option<User>)

  /** `JSON.stringify` and `JSON.parse` on the stored user, uninterpreted. */
  datatype UserJson = UserJson(stringify: User -> string, parse: string -> ParseResult)

  /** A stored value that is neither null nor the empty string: truthy, as `initFromStorage` tests it. */
  predicate Present(s: Option<string>) {
    s.Some? && s.value != ""
  }

  class Store {
    var token: Option<string>
    var user: Option<User>
    var isLoading: bool
    const storage: LocalStorage
    const json: UserJson

    /** The store's initial state: no token, no user, not loading. */
    constructor (storage: LocalStorage, json: UserJson)
      ensures token == None && user == None && !isLoading
      ensures this.storage == storage && this.json == json
    {
      token := None;
      user := None;
      isLoading := false;
      this.storage := storage;
      this.json := json;
    }

    /** `isAuthenticated`: `!!token && !!user`. */
    function IsAuthenticated(): (b: bool)
      reads this
      ensures b <==> token.Some? && token.value != "" && user.Some?
    {
      Present(token) && user.Some?
    }

    /** `userId`: `user?.id ?? null`. */
    function UserId(): (r: Option<string>)
      reads this
      ensures r.Some? <==> user.Some?
      ensures r.Some? ==> r.value == user.value.id
    {
      if user.Some? then Some(user.value.id) else None
    }

    /** `username`: `user?.username ?? null`. */
    function Username(): (r: Option<string>)
      reads this
      ensures r.Some? <==> user.Some?
      ensures r.Some? ==> r.value == user.value.username
    {
      if user.Some? then Some(user.value.username) else None
    }

    /** `clearStorage`: both keys are removed. */
    method ClearStorage()
      modifies storage
      ensures storage.items == old(storage.items) - {TokenKey, UserKey}
    {
      storage.RemoveItem(TokenKey);
      storage.RemoveItem(UserKey);
      assert storage.items == old(storage.items) - {TokenKey} - {UserKey};
    }

    /**
     * `initFromStorage`: when both stored values are non-empty, the token is
     * taken and then the user is parsed. A parse failure clears both keys; the
     * token has by then already been taken, and the user is left as it was.
     * Without both values nothing changes.
     */
    method InitFromStorage()
      modifies this, storage
      ensures isLoading == old(isLoading)
      ensures var t := old(storage.GetItem(TokenKey));
              var u := old(storage.GetItem(UserKey));
        if !(Present(t) && Present(u)) then
          token == old(token) && user == old(user) && storage.items == old(storage.items)
        else
          && token == t
          && match json.parse(u.value)
             case SyntaxError => user == old(user) && storage.items == old(storage.items) - {TokenKey, UserKey}
             case Parsed(v) => user == v && storage.items == old(storage.items)
    {
      var storedToken := storage.GetItem(TokenKey);
      var storedUser := storage.GetItem(UserKey);
      if Present(storedToken) && Present(storedUser) {
        token := storedToken;
        match json.parse(storedUser.value)
        case SyntaxError =>
          ClearStorage();
        case Parsed(v) =>
          user := v;
      }
    }

    /** `setAuth(authToken, authUser)`: both refs are set and both keys written. */
    method SetAuth(authToken: string, authUser: User)
      modifies this, storage
      ensures token == Some(authToken) && user == Some(authUser) && isLoading == old(isLoading)
      ensures storage.items == old(storage.items)[TokenKey := authToken][UserKey := json.stringify(authUser)]
    {
      token := Some(authToken);
      user := Some(authUser);
      storage.SetItem(TokenKey, authToken);
      storage.SetItem(UserKey, json.stringify(authUser));
    }

    /** `clearAuth`: both refs are nulled and both keys removed, so the store is signed out. */
    method ClearAuth()
      modifies this, storage
      ensures token == None && user == None && isLoading == old(isLoading)
      ensures !IsAuthenticated()
      ensures storage.items == old(storage.items) - {TokenKey, UserKey}
    {
      token := None;
      user := None;
      ClearStorage();
    }

    /** `setLoading(loading)`: only `isLoading` changes. */
    method SetLoading(loading: bool)
      modifies this
      ensures isLoading == loading && token == old(token) && user == old(user)
    {
      isLoading := loading;
    }
  }

  /**
   * Persisting and restoring: after `setAuth(t, u)`, a fresh store over the same
   * storage restores `t` and `u` and is signed in, given that `t` is non-empty
   * and parsing the stored text of `u` gives `u` back.
   */
  method SetAuthThenRestore(json: UserJson, t: string, u: User) returns (restored: Store)
    requires t != "" && json.stringify(u) != ""
    requires json.parse(json.stringify(u)) == Parsed(Some(u))
    ensures restored.token == Some(t) && restored.user == Some(u)
    ensures restored.IsAuthenticated()
  {
    var storage := new LocalStorage();
    var first := new Store(storage, json);
    first.SetAuth(t, u);
    restored := new Store(storage, json);
    restored.InitFromStorage();
  }
}
