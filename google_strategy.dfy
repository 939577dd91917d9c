/**
 * The Google strategy (logic/startegies/google_strategy.py): the ID Token
 * (section 2 of OpenID Connect Core 1.0) in the credentials is checked by
 * the verification oracle `verifyOauth2Token`, which yields the verified
 * email and optional name or fails; the user with that email is returned,
 * and is created first (just-in-time provisioning) when there is none.
 */
module GoogleStrategy {
  import opened Wrappers
  import opened Errors
  import opened Models
  import opened Dicts
  import opened UserRepository

  /** The verified claims the strategy reads from the oracle's payload. */
  datatype IdClaims = IdClaims(email: string, name: Option<string>)

  /**
   * The values a new user gets from outside the strategy: the id from
   * `generate_user_id()` and the two timestamps the `User` model's defaults
   * read from the clock.
   */
  datatype Provision = Provision(id: string, createdAt: string, updatedAt: string)

  /** What one call decides: its result, and the user it writes with `create_user`, if any. */
  datatype Outcome = Outcome(result: Result<User, Error>, created: Option<User>)

  /** The user provisioned for `claims`: no password hash and no apps. */
  function NewUser(claims: IdClaims, prov: Provision): (u: User)
    ensures u.id == prov.id && u.email == claims.email && u.name == claims.name
    ensures u.passwordHash == "" && u.apps == []
  {
    User(prov.id, claims.name, claims.email, "", prov.createdAt, prov.updatedAt, [])
  }

  class GoogleAuthStrategy {
    const userRepository: JsonUserRepository
    /** `id_token.verify_oauth2_token`: the verified claims, or None when it raises. */
    const verifyOauth2Token: string -> Option<IdClaims>
    /**
     * pydantic's `EmailStr` validation of the `email` field of `User`: the
     * normalised address it stores (whitespace stripped, domain lowercased),
     * or None when it raises ValidationError.
     */
    const emailStr: string -> Option<string>

    constructor (userRepository: JsonUserRepository, verifyOauth2Token: string -> Option<IdClaims>,
                 emailStr: string -> Option<string>)
      ensures this.userRepository == userRepository && this.verifyOauth2Token == verifyOauth2Token
      ensures this.emailStr == emailStr
    {
      this.userRepository := userRepository;
      this.verifyOauth2Token := verifyOauth2Token;
      this.emailStr := emailStr;
    }

    /** The verified claims of a present, non-empty `id_token`, if it verifies. */
    function VerifiedClaims(credentials: Credentials): Option<IdClaims>
    {
      if "id_token" in credentials && credentials["id_token"] != "" then verifyOauth2Token(credentials["id_token"])
      else None
    }

    /** The claims' email is in `EmailStr` normal form: validation keeps it unchanged. */
    predicate NormalEmail(credentials: Credentials)
    {
      VerifiedClaims(credentials).Some? &&
      emailStr(VerifiedClaims(credentials).value.email) == Some(VerifiedClaims(credentials).value.email)
    }

    /**
     * The branching of `authenticate` over the directory contents `users`:
     * a missing or empty `id_token` is NotFound and an oracle failure is
     * Forbidden, both without a write; a known email returns the stored user
     * without a write. An unknown email builds a `User`, whose `EmailStr`
     * field either rejects the address (ValidationError, no write) or stores
     * its normalised form; that one new user is written and returned.
     */
    function Decide(users: Dict<User>, credentials: Credentials, prov: Provision): (o: Outcome)
      ensures ("id_token" !in credentials || credentials["id_token"] == "") ==>
                o == Outcome(Err(NotFound("Google ID token not found")), None)
      ensures "id_token" in credentials && credentials["id_token"] != "" &&
              verifyOauth2Token(credentials["id_token"]).None? ==>
                o == Outcome(Err(Forbidden("Invalid Google ID token")), None)
      ensures VerifiedClaims(credentials).Some? &&
              FindByEmail(users, VerifiedClaims(credentials).value.email).None? &&
              emailStr(VerifiedClaims(credentials).value.email).None? ==>
                o == Outcome(Err(ValidationError("email")), None)
      ensures o.result.Ok? <==> VerifiedClaims(credentials).Some? &&
                                (FindByEmail(users, VerifiedClaims(credentials).value.email).Some? ||
                                 emailStr(VerifiedClaims(credentials).value.email).Some?)
      ensures o.result.Ok? && o.created.None? ==> o.result.value.email == VerifiedClaims(credentials).value.email
      ensures o.result.Ok? && o.created.None? ==> o.result.value in Values(users)
      ensures o.created.Some? ==>
                var claims := VerifiedClaims(credentials).value;
                FindByEmail(users, claims.email).None? && emailStr(claims.email).Some? &&
                o.created.value == NewUser(IdClaims(emailStr(claims.email).value, claims.name), prov) &&
                o.result == Ok(o.created.value)
      ensures o.result.Ok? && o.created.None? ==>
                o.result == Ok(FindByEmail(users, o.result.value.email).value)
    {
      var token := if "id_token" in credentials then credentials["id_token"] else "";
      if token == "" then Outcome(Err(NotFound("Google ID token not found")), None)
      else
        match verifyOauth2Token(token)
        case None => Outcome(Err(Forbidden("Invalid Google ID token")), None)
        case Some(claims) =>
          match FindByEmail(users, claims.email)
          case Some(u) => Outcome(Ok(u), None)
          case None =>
            match emailStr(claims.email)
            case None => Outcome(Err(ValidationError("email")), None)
            case Some(email) =>
              var u := NewUser(IdClaims(email, claims.name), prov);
              Outcome(Ok(u), Some(u))
    }

    /**
     * `authenticate`: the result is Decide's, and the directory gets at most
     * the one write Decide names.
     */
    method Authenticate(credentials: Credentials, prov: Provision) returns (r: Result<User, Error>)
      requires userRepository.Valid()
      modifies userRepository
      ensures userRepository.Valid()
      ensures var o := Decide(old(userRepository.userDict), credentials, prov);
              r == o.result &&
              userRepository.userDict ==
                if o.created.Some? then Set(old(userRepository.userDict), prov.id, o.created.value)
                else old(userRepository.userDict)
    {
      var googleToken := if "id_token" in credentials then credentials["id_token"] else "";
      if googleToken == "" {
        return Err(NotFound("Google ID token not found"));
      }
      var payload := verifyOauth2Token(googleToken);
      if payload.None? {
        return Err(Forbidden("Invalid Google ID token"));
      }
      var email := payload.value.email;
      var name := payload.value.name;
      var user := userRepository.GetUserByEmail(email);
      if user.None? {
        var validated := emailStr(email);
        if validated.None? {
          return Err(ValidationError("email"));
        }
        var newUser := NewUser(IdClaims(validated.value, name), prov);
        var _ := userRepository.CreateUser(newUser);
        user := Some(newUser);
      }
      r := Ok(user.value);
    }

    /** Provisioning a user for an email in normal form keeps emails unique in the directory. */
    lemma ProvisionKeepsEmailsUnique(users: Dict<User>, credentials: Credentials, prov: Provision)
      requires UniqueEmails(users)
      requires NormalEmail(credentials)
      requires Decide(users, credentials, prov).created.Some?
      ensures UniqueEmails(Set(users, prov.id, Decide(users, credentials, prov).created.value))
    {
      var u := Decide(users, credentials, prov).created.value;
      SetKeepsUniqueEmails(users, u);
    }

    /**
     * Provisioning happens once for an email in normal form: after a user was
     * created for a token, the same token finds that user and writes nothing,
     * whatever the new prov values are.
     */
    lemma ProvisionOnce(users: Dict<User>, credentials: Credentials, prov: Provision, prov': Provision)
      requires NormalEmail(credentials)
      requires Decide(users, credentials, prov).created.Some?
      ensures var u := Decide(users, credentials, prov).created.value;
              Decide(Set(users, prov.id, u), credentials, prov') == Outcome(Ok(u), None)
    {
      var u := Decide(users, credentials, prov).created.value;
      FindAfterSet(users, u);
    }

    /**
     * When validation rewrites the claims' email, provisioning is not once:
     * the same token later looks up the unnormalised address, misses the
     * stored user, and provisions a second one under a new id with the same
     * stored email, so emails are no longer unique.
     */
    lemma DuplicateProvision(users: Dict<User>, credentials: Credentials, prov: Provision, prov': Provision)
      requires Decide(users, credentials, prov).created.Some?
      requires !NormalEmail(credentials)
      requires prov'.id != prov.id
      ensures var u := Decide(users, credentials, prov).created.value;
              var o := Decide(Set(users, prov.id, u), credentials, prov');
              o.created.Some? && o.created.value.email == u.email &&
              !UniqueEmails(Set(Set(users, prov.id, u), prov'.id, o.created.value))
    {
      var claims := VerifiedClaims(credentials).value;
      var u := Decide(users, credentials, prov).created.value;
      FindMissAfterSet(users, u, claims.email);
      var u' := Decide(Set(users, prov.id, u), credentials, prov').created.value;
      SameEmailNotUnique(users, prov.id, u, prov'.id, u');
    }
  }
}
