/**
 * The JSON-file user directory (logic/repository/json_user_repository.py):
 * the in-memory `user_dict`, keyed by user id, that every other part of the
 * core reads and writes. Writing the dict back to the file after each change
 * is I/O and is not modelled.
 */
module UserRepository {
  import opened Wrappers
  import opened Models
  import opened Dicts

  /**
   * The first user, in insertion order, whose email is `email`; this is the
   * user `get_user_by_email` returns.
   */
  function FindByEmail(d: Dict<User>, email: string): (r: Option<User>)
    ensures r.Some? ==> r.value.email == email
    ensures r.None? <==> forall i :: 0 <= i < |d| ==> d[i].1.email != email
    ensures r.Some? ==> exists i :: 0 <= i < |d| && d[i].1 == r.value &&
                          forall j :: 0 <= j < i ==> d[j].1.email != email
  {
    if d == [] then None
    else if d[0].1.email == email then Some(d[0].1)
    else
      var r := FindByEmail(d[1..], email);
      assert r.Some? ==> exists i :: 1 <= i < |d| && d[i].1 == r.value &&
                           forall j :: 0 <= j < i ==> d[j].1.email != email by {
        if r.Some? {
          var i :| 0 <= i < |d[1..]| && d[1..][i].1 == r.value &&
                   forall j :: 0 <= j < i ==> d[1..][j].1.email != email;
          assert d[i + 1].1 == r.value;
          forall j | 0 <= j < i + 1 ensures d[j].1.email != email {
            if j > 0 { assert d[j] == d[1..][j - 1]; }
          }
        }
      }
      r
  }

  /** No two users share an email: the directory's uniqueness invariant on emails. */
  predicate UniqueEmails(d: Dict<User>)
  {
    forall i, j :: 0 <= i < j < |d| ==> d[i].1.email != d[j].1.email
  }

  class JsonUserRepository {
    /** `self.user_dict`: user id to stored user, in insertion order. */
    var userDict: Dict<User>

    ghost predicate Valid()
      reads this
    {
      DistinctKeys(userDict)
    }

    /** `__init__`: `loaded` is what `json.load` read from the records file. */
    constructor (loaded: Dict<User>)
      requires DistinctKeys(loaded)
      ensures Valid() && userDict == loaded
    {
      userDict := loaded;
    }

    /** `create_user`: stores `user` under its id, overwriting any entry there. */
    method CreateUser(user: User) returns (r: User)
      requires Valid()
      modifies this
      ensures Valid()
      ensures userDict == Set(old(userDict), user.id, user)
      ensures r == user
    {
      SetKeepsDistinct(userDict, user.id, user);
      userDict := Set(userDict, user.id, user);
      r := user;
    }

    /** `get_user_by_email`: a scan of the stored users in insertion order. */
    method GetUserByEmail(email: string) returns (r: Option<User>)
      ensures r == FindByEmail(userDict, email)
    {
      var i := 0;
      while i < |userDict|
        invariant 0 <= i <= |userDict|
        invariant FindByEmail(userDict[i..], email) == FindByEmail(userDict, email)
      {
        if userDict[i].1.email == email {
          return Some(userDict[i].1);
        }
        assert userDict[i..][1..] == userDict[i + 1..];
        i := i + 1;
      }
      return None;
    }

    /** `get_user_by_id`. */
    method GetUserById(userId: string) returns (r: Option<User>)
      ensures r == Get(userDict, userId)
    {
      r := Get(userDict, userId);
    }

    /** `update_user`: replaces or inserts the entry at `user.id`; returns nothing. */
    method UpdateUser(user: User)
      requires Valid()
      modifies this
      ensures Valid()
      ensures userDict == Set(old(userDict), user.id, user)
    {
      SetKeepsDistinct(userDict, user.id, user);
      userDict := Set(userDict, user.id, user);
    }

    /** `delete_user`: removes the entry; deleting an absent id changes nothing. */
    method DeleteUser(userId: string)
      requires Valid()
      modifies this
      ensures Valid()
      ensures userDict == Pop(old(userDict), userId)
    {
      PopKeepsDistinct(userDict, userId);
      userDict := Pop(userDict, userId);
    }
  }

  /** After `create_user(u)`, `get_user_by_id(u.id)` returns `u`, and any other id sees what it saw before. */
  lemma CreateThenGet(d: Dict<User>, u: User, other: string)
    requires other != u.id
    ensures Get(Set(d, u.id, u), u.id) == Some(u)
    ensures Get(Set(d, u.id, u), other) == Get(d, other)
  {
  }

  /** Storing a user whose email is not yet in the directory keeps emails unique. */
  lemma SetKeepsUniqueEmails(d: Dict<User>, u: User)
    requires UniqueEmails(d)
    requires FindByEmail(d, u.email).None?
    ensures UniqueEmails(Set(d, u.id, u))
  {
    var r := Set(d, u.id, u);
    var p := SetReplacesOne(d, u.id, u);
    forall i, j | 0 <= i < j < |r| ensures r[i].1.email != r[j].1.email {
      if i != p { assert r[i] == d[i]; }
      if j != p { assert r[j] == d[j]; }
    }
  }

  /** Storing a user under another email leaves a lookup that missed still missing. */
  lemma {:induction false} FindMissAfterSet(d: Dict<User>, u: User, email: string)
    requires FindByEmail(d, email).None?
    requires u.email != email
    ensures FindByEmail(Set(d, u.id, u), email).None?
  {
    var r := Set(d, u.id, u);
    var p := SetReplacesOne(d, u.id, u);
    forall i | 0 <= i < |r| ensures r[i].1.email != email {
      if i != p {
        assert r[i] == d[i];
      }
    }
  }

  /** Two users with the same email stored under different ids break email uniqueness. */
  lemma SameEmailNotUnique(d: Dict<User>, k: string, u: User, k': string, u': User)
    requires k != k'
    requires u.email == u'.email
    ensures !UniqueEmails(Set(Set(d, k, u), k', u'))
  {
    var r := Set(Set(d, k, u), k', u');
    assert Get(r, k) == Some(u) && Get(r, k') == Some(u');
    var i :| 0 <= i < |r| && r[i] == (k, u);
    var j :| 0 <= j < |r| && r[j] == (k', u');
    assert i != j && r[i].1.email == r[j].1.email;
  }

  /** Once a user is stored under a fresh email, the email lookup finds exactly that user. */
  lemma {:induction false} FindAfterSet(d: Dict<User>, u: User)
    requires FindByEmail(d, u.email).None?
    ensures FindByEmail(Set(d, u.id, u), u.email) == Some(u)
  {
    if d != [] && d[0].0 != u.id {
      FindAfterSet(d[1..], u);
    }
  }
}
