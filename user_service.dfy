/**
 * The user service (logic/services/user_service.py): registration with id
 * and email uniqueness checks, deletion and update with existence checks,
 * the field-by-field update merge, and lookup by id or email. Password
 * hashing is the function `hashPassword`, supplied at construction.
 */
module UserServices {
  import opened Wrappers
  import opened Errors
  import opened Models
  import opened Dicts
  import opened UserRepository

  /** Python truthiness of an optional string: present and non-empty. */
  predicate Truthy(s: Option<string>)
  {
    s.Some? && |s.value| > 0
  }

  class UserService {
    const userRepository: JsonUserRepository
    const hashPassword: string -> string

    constructor (userRepo: JsonUserRepository, hashPassword: string -> string)
      ensures userRepository == userRepo && this.hashPassword == hashPassword
    {
      userRepository := userRepo;
      this.hashPassword := hashPassword;
    }

    /**
     * `register_user`: the id is checked before the email; on success the
     * directory gains exactly one entry, the input with its plaintext
     * password replaced by its hash, and email uniqueness is kept.
     */
    method RegisterUser(user: User) returns (r: Result<User, Error>)
      requires userRepository.Valid()
      modifies userRepository
      ensures userRepository.Valid()
      ensures Get(old(userRepository.userDict), user.id).Some? ==>
                r == Err(Conflict("User Id already exists")) &&
                userRepository.userDict == old(userRepository.userDict)
      ensures Get(old(userRepository.userDict), user.id).None? &&
              FindByEmail(old(userRepository.userDict), user.email).Some? ==>
                r == Err(Conflict("Email already exists")) &&
                userRepository.userDict == old(userRepository.userDict)
      ensures Get(old(userRepository.userDict), user.id).None? &&
              FindByEmail(old(userRepository.userDict), user.email).None? ==>
                r == Ok(user.(passwordHash := hashPassword(user.passwordHash))) &&
                userRepository.userDict == old(userRepository.userDict) + [(user.id, r.value)]
      ensures UniqueEmails(old(userRepository.userDict)) ==> UniqueEmails(userRepository.userDict)
    {
      var byId := userRepository.GetUserById(user.id);
      if byId.Some? {
        return Err(Conflict("User Id already exists"));
      }
      var byEmail := userRepository.GetUserByEmail(user.email);
      if byEmail.Some? {
        return Err(Conflict("Email already exists"));
      }
      var hashed := hashPassword(user.passwordHash);
      var toStore := user.(passwordHash := hashed);
      ghost var before := userRepository.userDict;
      if UniqueEmails(before) {
        SetKeepsUniqueEmails(before, toStore);
      }
      var created := userRepository.CreateUser(toStore);
      r := Ok(created);
    }

    /** `delete_user`: NotFound when the id is absent, otherwise removes only that id. */
    method DeleteUser(userId: string) returns (r: Result<(), Error>)
      requires userRepository.Valid()
      modifies userRepository
      ensures userRepository.Valid()
      ensures Get(old(userRepository.userDict), userId).None? ==>
                r == Err(NotFound("User not found")) &&
                userRepository.userDict == old(userRepository.userDict)
      ensures Get(old(userRepository.userDict), userId).Some? ==>
                r == Ok(()) &&
                userRepository.userDict == Pop(old(userRepository.userDict), userId)
    {
      var found := userRepository.GetUserById(userId);
      if found.None? {
        return Err(NotFound("User not found"));
      }
      userRepository.DeleteUser(userId);
      r := Ok(());
    }

    /**
     * The field-by-field merge of `update_user_by_id`, applied to the stored
     * user `stored`: a non-empty email replaces the old one; the name always
     * becomes the input's (even None); non-empty apps replace the old ones; a
     * non-empty password that differs from the stored hash is hashed and
     * stored; a non-empty `updatedAt` replaces the old one; `id` and
     * `createdAt` are never touched.
     */
    method MergeUpdate(stored: User, user: User) returns (m: User)
      ensures m.id == stored.id
      ensures m.createdAt == stored.createdAt
      ensures m.email == (if |user.email| > 0 then user.email else stored.email)
      ensures m.name == user.name
      ensures m.apps == (if |user.apps| > 0 then user.apps else stored.apps)
      ensures m.passwordHash == (if |user.passwordHash| > 0 && user.passwordHash != stored.passwordHash
                                 then hashPassword(user.passwordHash) else stored.passwordHash)
      ensures m.updatedAt == (if |user.updatedAt| > 0 then user.updatedAt else stored.updatedAt)
    {
      m := stored;
      if user.email != m.email && |user.email| > 0 {
        m := m.(email := user.email);
      }
      if user.name != m.name {
        m := m.(name := user.name);
      }
      if user.apps != m.apps && |user.apps| > 0 {
        m := m.(apps := user.apps);
      }
      if user.passwordHash != m.passwordHash && |user.passwordHash| > 0 {
        var hashed := hashPassword(user.passwordHash);
        m := m.(passwordHash := hashed);
      }
      if |user.updatedAt| > 0 {
        m := m.(updatedAt := user.updatedAt);
      }
    }

    /**
     * `update_user_by_id`: NotFound when the id is absent; otherwise the
     * stored user `s` is merged with the input (MergeUpdate) and written back
     * under `s.id`. The source returns what `update_user` returns, which for
     * this repository is nothing.
     */
    method UpdateUserById(userId: string, user: User) returns (r: Result<(), Error>)
      requires userRepository.Valid()
      modifies userRepository
      ensures userRepository.Valid()
      ensures Get(old(userRepository.userDict), userId).None? ==>
                r == Err(NotFound("User not found")) &&
                userRepository.userDict == old(userRepository.userDict)
      ensures Get(old(userRepository.userDict), userId).Some? ==>
                var s := Get(old(userRepository.userDict), userId).value;
                r == Ok(()) &&
                Get(userRepository.userDict, s.id).Some? &&
                var m := Get(userRepository.userDict, s.id).value;
                && userRepository.userDict == Set(old(userRepository.userDict), s.id, m)
                && m.id == s.id
                && m.createdAt == s.createdAt
                && m.email == (if |user.email| > 0 then user.email else s.email)
                && m.name == user.name
                && m.apps == (if |user.apps| > 0 then user.apps else s.apps)
                && m.passwordHash == (if |user.passwordHash| > 0 && user.passwordHash != s.passwordHash
                                      then hashPassword(user.passwordHash) else s.passwordHash)
                && m.updatedAt == (if |user.updatedAt| > 0 then user.updatedAt else s.updatedAt)
    {
      var found := userRepository.GetUserById(userId);
      if found.None? {
        return Err(NotFound("User not found"));
      }
      var merged := MergeUpdate(found.value, user);
      userRepository.UpdateUser(merged);
      assert Get(userRepository.userDict, merged.id) == Some(merged);
      r := Ok(());
    }

    /**
     * `get_user_info`: BadRequest when neither an id nor an email is given
     * (None and "" both count as missing); a given id takes precedence over
     * the email; a failed lookup is NotFound.
     */
    method GetUserInfo(userId: Option<string>, userEmail: Option<string>) returns (r: Result<User, Error>)
      ensures !Truthy(userId) && !Truthy(userEmail) ==>
                r == Err(BadRequest("user_id or user_email must be provided"))
      ensures Truthy(userId) ==>
                r == (match Get(userRepository.userDict, userId.value)
                      case Some(u) => Ok(u)
                      case None => Err(NotFound("User not found")))
      ensures !Truthy(userId) && Truthy(userEmail) ==>
                r == (match FindByEmail(userRepository.userDict, userEmail.value)
                      case Some(u) => Ok(u)
                      case None => Err(NotFound("User not found")))
      ensures r.Ok? ==> r.value in Values(userRepository.userDict)
    {
      if !Truthy(userId) && !Truthy(userEmail) {
        return Err(BadRequest("user_id or user_email must be provided"));
      }
      var user: Option<User>;
      if Truthy(userId) {
        user := userRepository.GetUserById(userId.value);
      } else if Truthy(userEmail) {
        user := userRepository.GetUserByEmail(userEmail.value);
      } else {
        user := None;
      }
      if user.None? {
        return Err(NotFound("User not found"));
      }
      r := Ok(user.value);
    }
  }
}
