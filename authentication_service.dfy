/**
 * The authentication orchestrator (logic/services/authentication_service.py):
 * `login` looks the strategy up by name, delegates to it and wraps the user
 * with the two placeholder token strings; `logout` only builds a message.
 */
module AuthenticationServices {
  import opened Wrappers
  import opened Errors
  import opened Models
  import opened UserRepository
  import opened PasswordStrategy
  import opened GoogleStrategy

  /** The strategies the core implements, as the values of the name map. */
  datatype Strategy =
    | EmailPassword(password: EmailPasswordStrategy)
    | Google(google: GoogleAuthStrategy)

  /** The dict `login` returns: `user`, `access_token`, `refresh_token`. */
  datatype LoginResult = LoginResult(user: User, accessToken: string, refreshToken: string)

  const AccessPlaceholder: string := "access token"
  const RefreshPlaceholder: string := "refresh token"

  /**
   * The tail of `login`: a strategy error propagates unchanged; a user is
   * returned exactly, next to the two fixed placeholder strings.
   */
  function WithPlaceholderTokens(res: Result<User, Error>): (r: Result<LoginResult, Error>)
    ensures r.Ok? <==> res.Ok?
    ensures r.Err? ==> r.error == res.error
    ensures r.Ok? ==> r.value.user == res.value
    ensures r.Ok? ==> r.value.accessToken == "access token" && r.value.refreshToken == "refresh token"
  {
    match res
    case Ok(u) => Ok(LoginResult(u, AccessPlaceholder, RefreshPlaceholder))
    case Err(e) => Err(e)
  }

  class AuthenticationService {
    /** `self.strategies`, never updated after construction. */
    const strategies: map<string, Strategy>

    constructor (strategies: map<string, Strategy>)
      ensures this.strategies == strategies
    {
      this.strategies := strategies;
    }

    /** `self.strategies.get(name)`, with the ValueError `login` raises for an unknown name. */
    function Lookup(strategyName: string): (r: Result<Strategy, Error>)
      ensures r.Ok? <==> strategyName in strategies
      ensures r.Ok? ==> r.value == strategies[strategyName]
      ensures r.Err? ==> r.error == ValueError("Unsupported authentication strategy: " + strategyName)
    {
      if strategyName in strategies then Ok(strategies[strategyName])
      else Err(ValueError("Unsupported authentication strategy: " + strategyName))
    }

    /** The directory the named strategy may write: only the Google strategy writes. */
    function WrittenBy(strategyName: string): set<JsonUserRepository>
    {
      if strategyName in strategies && strategies[strategyName].Google?
      then {strategies[strategyName].google.userRepository} else {}
    }

    /**
     * `login`: an unknown name is a ValueError and invokes no strategy;
     * otherwise the result is the strategy's, wrapped by
     * WithPlaceholderTokens. The email/password strategy writes nothing; the
     * Google strategy writes what its Decide names. `prov` supplies the new
     * user's id and timestamps should the Google strategy provision one.
     */
    method Login(credentials: Credentials, strategyName: string, prov: Provision)
      returns (r: Result<LoginResult, Error>)
      requires strategyName in strategies && strategies[strategyName].Google? ==>
                 strategies[strategyName].google.userRepository.Valid()
      modifies WrittenBy(strategyName)
      ensures strategyName !in strategies ==>
                r == Err(ValueError("Unsupported authentication strategy: " + strategyName))
      ensures strategyName in strategies && strategies[strategyName].EmailPassword? ==>
                r == WithPlaceholderTokens(strategies[strategyName].password.Authenticate(credentials))
      ensures strategyName in strategies && strategies[strategyName].Google? ==>
                var g := strategies[strategyName].google;
                var o := g.Decide(old(g.userRepository.userDict), credentials, prov);
                && r == WithPlaceholderTokens(o.result)
                && g.userRepository.Valid()
                && g.userRepository.userDict ==
                     if o.created.Some? then Dicts.Set(old(g.userRepository.userDict), prov.id, o.created.value)
                     else old(g.userRepository.userDict)
    {
      var strategy := Lookup(strategyName);
      if strategy.Err? {
        return Err(strategy.error);
      }
      var user: Result<User, Error>;
      match strategy.value {
        case EmailPassword(p) =>
          user := p.Authenticate(credentials);
        case Google(g) =>
          user := g.Authenticate(credentials, prov);
      }
      r := WithPlaceholderTokens(user);
    }

    /**
     * `logout`: no state is read or changed, whatever the strategy name; the
     * message is "User <id> logged out".
     */
    function Logout(userId: string, strategyName: string): (m: string)
      ensures |m| == |userId| + 16
      ensures m[..5] == "User " && m[|m| - 11..] == " logged out"
      ensures m[5..|m| - 11] == userId
    {
      "User " + userId + " logged out"
    }

    /** Different users get different logout messages: the id is recoverable from the message. */
    lemma LogoutInjective(a: string, b: string, strategyName: string, strategyName': string)
      requires Logout(a, strategyName) == Logout(b, strategyName')
      ensures a == b
    {
    }
  }
}
