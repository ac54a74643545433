/** The user columns that audited mutations and session checks touch, and those mutations. */
module Accounts {
  import opened ByteStrings
  import RT = RefreshTokens

  datatype Status = Pending | Active | Suspended | Deleted

  datatype Account = Account(status: Status, canInstruct: bool, tokenVersion: int)

  const MAX_VERSION: int := 0x7FFF_FFFF  // token_version is a 32-bit column

  /** `adult` tells whether the activation trigger finds a verified adult identity. */
  datatype Mutation = NoMutation | Suspend | Reinstate(adult: bool) | SetInstructor(grant: bool)

  /** The tables a mutation writes. */
  datatype Db = Db(users: map<Bytes, Account>, tokens: RT.Table)

  /** The statements of one mutation; None when one of them fails. An UPDATE that matches no row is no
      failure, but the version bump must return one. */
  function Mutate(db: Db, id: Bytes, m: Mutation): Option<Db> {
    var users := db.users;
    match m
    case NoMutation => Some(db)
    case Suspend =>
      if id !in users || users[id].tokenVersion >= MAX_VERSION then None
      else Some(Db(users[id := users[id].(status := Suspended, tokenVersion := users[id].tokenVersion + 1)],
                   RT.Exec(db.tokens, RT.RevokeUser(id))))
    case Reinstate(adult) =>
      if id !in users then Some(db)
      else if !adult then None
      else Some(db.(users := users[id := users[id].(status := Active)]))
    case SetInstructor(grant) =>
      if id !in users then Some(db) else Some(db.(users := users[id := users[id].(canInstruct := grant)]))
  }
}
