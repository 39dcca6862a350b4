/**
 An in-memory store satisfying the storage contract the service relies on:
 users keyed by email with store-assigned ids, an admin flag per id, and apps
 keyed by id. Lookups that miss answer the bare storage sentinels; saving an
 email that is already present answers `ErrUserExists`. It stands in for the
 SQL storage package, which is not part of this model, so that the service
 can be exercised end to end.
 */
module MemoryStorage {
  import opened Errors
  import opened ServiceAuth

  datatype Store = Store(
    users: map<string, User>,
    admins: map<int, bool>,
    apps: map<int, App>,
    nextID: int)

  /** The service wired to this store, with the given token lifetime. */
  function AuthOver(s: Store, tokenTTL: int): Auth
  {
    Auth(
      UserSaver((email, hash) => if email in s.users then Err(ErrUserExists) else Ok(s.nextID)),
      UserProvider(
        email => if email in s.users then Ok(s.users[email]) else Err(ErrUserNotFound),
        id => if id in s.admins then Ok(s.admins[id]) else Err(ErrUserNotFound)),
      AppProvider(id => if id in s.apps then Ok(s.apps[id]) else Err(ErrStorageAppNotFound)),
      tokenTTL)
  }

  /** The store after a successful save of a new, non-admin user. */
  function Insert(s: Store, email: string, hash: Bytes): (s': Store)
    requires email !in s.users
    ensures s'.users.Keys == s.users.Keys + {email}
    ensures s'.users[email] == User(s.nextID, email, hash)
    ensures forall e :: e in s.users ==> s'.users[e] == s.users[e]
    ensures s'.admins.Keys == s.admins.Keys + {s.nextID} && !s'.admins[s.nextID]
    ensures s'.apps == s.apps && s'.nextID > s.nextID
  {
    Store(
      s.users[email := User(s.nextID, email, hash)],
      s.admins[s.nextID := false],
      s.apps,
      s.nextID + 1)
  }
}
