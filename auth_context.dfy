/** frontend/src/context/AuthContext.jsx: the signed-in user, the loading flag
    and the storage keys that keep a session across reloads. The outcome of
    the `getMe` request and `JSON.stringify` are parameters. */
module AuthContext {
  import opened Wrappers
  import opened Models
  import opened BrowserStorage
  import opened AuthRouter
  import ThemeContext

  const AttToken: string := "att_token"
  const AttUser: string := "att_user"
  const AttTheme: string := "att_theme"

  /** `user?.role === 'admin'`. */
  function IsAdminUser(user: Option<UserResponse>): (r: bool)
    ensures r <==> user.Some? && user.value.role == Admin
  {
    match user
    case Some(u) => u.role == Admin
    case None => false
  }

  /** A stored, non-empty token (`!token` is false). */
  predicate HasToken(items: map<string, string>)
  {
    AttToken in items && items[AttToken] != ""
  }

  /** Logging out does not change which occupation a reload selects. */
  lemma LogoutKeepsOccupation(items: map<string, string>)
    ensures ThemeContext.StoredOccupation(items - {AttToken, AttUser, AttTheme})
         == ThemeContext.StoredOccupation(items)
  {
  }

  class AuthProvider {
    var user: Option<UserResponse>
    var loading: bool
    var storage: Storage

    /** The initial state: no user, loading. */
    constructor (storage: Storage)
      ensures this.storage == storage && user == None && loading
    {
      this.storage := storage;
      user := None;
      loading := true;
    }

    /** `isAdmin`. */
    function IsAdmin(): (r: bool)
      reads this
      ensures r <==> user.Some? && user.value.role == Admin
      ensures user.None? ==> !r
    {
      IsAdminUser(user)
    }

    /** The mount effect, with `getMe` already settled: `fetched` is the user
        it returned, or None when it failed. Without a (non-empty) token the
        request is not made at all. */
    method Mount(fetched: Option<UserResponse>)
      requires loading
      modifies this, storage
      ensures storage == old(storage) && !loading
      ensures !HasToken(old(storage.items)) ==> user == old(user) && storage.items == old(storage.items)
      ensures HasToken(old(storage.items)) ==>
        if fetched.Some? then user == fetched && storage.items == old(storage.items)
        else user == old(user) && storage.items == old(storage.items) - {AttToken, AttUser}
    {
      var token := storage.GetItem(AttToken);
      if token.None? || token.value == "" {
        loading := false;
        return;
      }
      if fetched.Some? {
        user := fetched;
      } else {
        storage.RemoveItem(AttToken);
        storage.RemoveItem(AttUser);
      }
      loading := false;
    }

    /** `loginUser`: stores the token and the serialised user, and sets the user. */
    method LoginUser(token: string, userData: UserResponse, stringify: UserResponse -> string)
      modifies this, storage
      ensures storage == old(storage) && loading == old(loading)
      ensures user == Some(userData)
      ensures storage.items == old(storage.items)[AttToken := token][AttUser := stringify(userData)]
    {
      storage.SetItem(AttToken, token);
      storage.SetItem(AttUser, stringify(userData));
      user := Some(userData);
    }

    /** `logout`: clears the user and the token, user and theme keys; every
        other key, the selected occupation among them, stays. */
    method Logout()
      modifies this, storage
      ensures storage == old(storage) && loading == old(loading)
      ensures user == None && !IsAdmin()
      ensures storage.items == old(storage.items) - {AttToken, AttUser, AttTheme}
      ensures forall k :: k in old(storage.items) && k !in {AttToken, AttUser, AttTheme} ==>
        k in storage.items && storage.items[k] == old(storage.items)[k]
    {
      storage.RemoveItem(AttToken);
      storage.RemoveItem(AttUser);
      storage.RemoveItem(AttTheme);
      user := None;
    }
  }
}
