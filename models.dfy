/** The user record of models/users.py and the credential bag a strategy receives. */
module Models {
  import opened Wrappers

  /**
   * A `User`: `id` keys the directory, `name` is optional, `passwordHash`
   * is empty for federated users, `createdAt`/`updatedAt` are ISO timestamps
   * and `apps` lists the applications the user is entitled to.
   */
  datatype User = User(
    id: string,
    name: Option<string>,
    email: string,
    passwordHash: string,
    createdAt: string,
    updatedAt: string,
    apps: seq<string>)

  /** The strategy-specific fields of a login request (`credentials: dict`). */
  type Credentials = map<string, string>
}
