/** The session store: a map from session id to the stored log path,
    with save, lookup and removal. The mutex around it and the deletion of
    the file on removal are not part of this model. */
module LogStorage {
  import opened Wrappers

  type Store = map<string, string>

  /** `get_user_log`. */
  function GetUserLog(store: Store, sessionId: string): Option<string>
  {
    if sessionId in store then Some(store[sessionId]) else None
  }

  /** The count the store logs after each change (`LOG_STORAGE.len()`). */
  function StoredCount(store: Store): nat
  {
    |store|
  }

  /** `save_user_log`: afterwards the session reads back the new path,
      whether or not it had one before; no other session changes. */
  function SaveUserLog(store: Store, sessionId: string, path: string): (store': Store)
    ensures GetUserLog(store', sessionId) == Some(path)
    ensures forall other :: other != sessionId ==> GetUserLog(store', other) == GetUserLog(store, other)
    ensures StoredCount(store') == if sessionId in store then StoredCount(store) else StoredCount(store) + 1
  {
    store[sessionId := path]
  }

  /** The store after a removal, and the path the removal found (the one
      whose file the source then deletes). */
  datatype Removal = Removal(store: Store, removedPath: Option<string>)

  /** `remove_user_log`: afterwards the session reads back nothing; no
      other session changes; removing an unknown session changes nothing. */
  function RemoveUserLog(store: Store, sessionId: string): (r: Removal)
    ensures GetUserLog(r.store, sessionId) == None
    ensures r.removedPath == GetUserLog(store, sessionId)
    ensures forall other :: other != sessionId ==> GetUserLog(r.store, other) == GetUserLog(store, other)
    ensures sessionId !in store ==> r.store == store
    ensures StoredCount(r.store) == if sessionId in store then StoredCount(store) - 1 else StoredCount(store)
  {
    var store' := store - {sessionId};
    assert store'.Keys == store.Keys - {sessionId};
    Removal(store', GetUserLog(store, sessionId))
  }

  /** A change to the store. */
  datatype StoreOp = Save(sessionId: string, path: string) | Remove(sessionId: string)

  function Apply(store: Store, op: StoreOp): Store
  {
    match op
    case Save(id, path) => SaveUserLog(store, id, path)
    case Remove(id) => RemoveUserLog(store, id).store
  }

  /** A sequence of changes, in order. */
  function Run(store: Store, ops: seq<StoreOp>): Store
  {
    if |ops| == 0 then store else Apply(Run(store, ops[..|ops| - 1]), ops[|ops| - 1])
  }

  /** What the last change to `sessionId` in `ops` left behind, or
      `initial` when no change touches it. */
  function LastWrite(ops: seq<StoreOp>, sessionId: string, initial: Option<string>): Option<string>
  {
    if |ops| == 0 then initial
    else
      var op := ops[|ops| - 1];
      if op.sessionId != sessionId then LastWrite(ops[..|ops| - 1], sessionId, initial)
      else match op
        case Save(_, path) => Some(path)
        case Remove(_) => None
  }

  /** After any sequence of saves and removals, a session reads back what
      the last change to that session wrote, and is untouched by changes
      to other sessions. */
  lemma {:induction false} RunReadsLastWrite(store: Store, ops: seq<StoreOp>, sessionId: string)
    ensures GetUserLog(Run(store, ops), sessionId) == LastWrite(ops, sessionId, GetUserLog(store, sessionId))
  {
    if |ops| > 0 {
      RunReadsLastWrite(store, ops[..|ops| - 1], sessionId);
    }
  }
}
