/**
 * The email/password strategy (logic/startegies/password_startegy.py): look
 * the user up by email, then NotFound, success or Unauthorized. It only
 * reads the directory. Password checking is the oracle `verifyPassword`
 * (bcrypt's `checkpw` in the source).
 */
module PasswordStrategy {
  import opened Wrappers
  import opened Errors
  import opened Models
  import opened Dicts
  import opened UserRepository

  class EmailPasswordStrategy {
    const userRepository: JsonUserRepository
    /** `verify_password(plain, hashed)`. */
    const verifyPassword: (string, string) -> bool

    constructor (userRepository: JsonUserRepository, verifyPassword: (string, string) -> bool)
      ensures this.userRepository == userRepository && this.verifyPassword == verifyPassword
    {
      this.userRepository := userRepository;
      this.verifyPassword := verifyPassword;
    }

    /**
     * `authenticate` with the password check it is meant to make: missing
     * `email` or `password` fields fail (KeyError) before any lookup; an
     * unknown email is NotFound; a known email returns exactly the stored
     * user when the password verifies, and is Unauthorized otherwise.
     *
     * The source calls the `async` `verify_password` without `await`, so the
     * condition it tests is a coroutine object, which is always true;
     * AuthenticateAsWritten models that.
     */
    function Authenticate(credentials: Credentials): (r: Result<User, Error>)
      reads userRepository
      ensures "email" !in credentials ==> r == Err(KeyError("email"))
      ensures "email" in credentials && "password" !in credentials ==> r == Err(KeyError("password"))
      ensures "email" in credentials && "password" in credentials &&
              FindByEmail(userRepository.userDict, credentials["email"]).None? ==>
                r == Err(NotFound("User not found"))
      ensures ("email" in credentials && "password" in credentials &&
               var found := FindByEmail(userRepository.userDict, credentials["email"]);
               found.Some? && !verifyPassword(credentials["password"], found.value.passwordHash)) ==>
                r == Err(Unauthorized("Invalid credentials"))
      ensures r.Ok? <==> "email" in credentials && "password" in credentials &&
                         var found := FindByEmail(userRepository.userDict, credentials["email"]);
                         found.Some? && verifyPassword(credentials["password"], found.value.passwordHash)
      ensures r.Ok? ==> r.value == FindByEmail(userRepository.userDict, credentials["email"]).value
      ensures r.Ok? ==> r.value in Values(userRepository.userDict) && r.value.email == credentials["email"]
      ensures r.Err? ==> r.error.KeyError? || r.error == NotFound("User not found") ||
                         r.error == Unauthorized("Invalid credentials")
    {
      if "email" !in credentials then Err(KeyError("email"))
      else if "password" !in credentials then Err(KeyError("password"))
      else
        var email := credentials["email"];
        var password := credentials["password"];
        var user := FindByEmail(userRepository.userDict, email);
        if user.None? then Err(NotFound("User not found"))
        else if verifyPassword(password, user.value.passwordHash) then Ok(user.value)
        else Err(Unauthorized("Invalid credentials"))
    }

    /**
     * `authenticate` as written: the un-awaited `verify_password(...)` is a
     * coroutine object and so always truthy, and every password is accepted
     * for a known email.
     */
    function AuthenticateAsWritten(credentials: Credentials): (r: Result<User, Error>)
      reads userRepository
      ensures r.Ok? <==> "email" in credentials && "password" in credentials &&
                         FindByEmail(userRepository.userDict, credentials["email"]).Some?
    {
      if "email" !in credentials then Err(KeyError("email"))
      else if "password" !in credentials then Err(KeyError("password"))
      else
        var user := FindByEmail(userRepository.userDict, credentials["email"]);
        if user.None? then Err(NotFound("User not found"))
        else Ok(user.value)
    }

    /**
     * The two differ exactly on a wrong password for a known email: as
     * written it logs the user in, as intended it is Unauthorized.
     */
    lemma WrongPasswordAccepted(credentials: Credentials)
      requires "email" in credentials && "password" in credentials
      requires var found := FindByEmail(userRepository.userDict, credentials["email"]);
               found.Some? && !verifyPassword(credentials["password"], found.value.passwordHash)
      ensures AuthenticateAsWritten(credentials) ==
              Ok(FindByEmail(userRepository.userDict, credentials["email"]).value)
      ensures Authenticate(credentials) == Err(Unauthorized("Invalid credentials"))
    {
    }
  }
}
