/**
 * The Pinia `user` store: the session token and the signed-in user, kept
 * in step with `localStorage` and with the `Authorization` header axios
 * sends by default. JSON encoding and decoding are parameters, and each
 * request's awaited outcome is an argument of the action that made it.
 */
module UserStore {
  import opened Wrappers
  import opened Js
  import JwtFilter

  /** The user object the API returns; a property may be a string, `null` or missing. */
  datatype UserInfo = UserInfo(firstName: JsField, lastName: JsField, role: JsField)

  /** The `{ token, user }` of a login or registration answer. */
  datatype SignInAnswer = SignInAnswer(token: string, user: Option<UserInfo>)

  const TokenKey := "token"
  const UserInfoKey := "userInfo"
  const AuthorizationKey := "Authorization"

  const LoginFailed := "登录失败，请检查用户名和密码"
  const RegisterFailed := "注册失败，请稍后重试"
  const FetchUserInfoFailed := "获取用户信息失败"
  const UpdateProfileFailed := "更新个人资料失败"
  const ChangePasswordFailed := "修改密码失败"
  const Unauthorized := 401

  /**
   * `JSON.parse` of a stored string: a syntax error, a falsy value, or a
   * user object.
   */
  type JsonDecoder = string -> Result<Option<UserInfo>, string>

  /** `` `Bearer ${token}` ``. */
  function AuthorizationHeader(token: string): (h: string)
    ensures JwtFilter.GetJwtFromRequest(Some(h)) == Some(token)
  {
    JwtFilter.BearerRoundTrip(token);
    JwtFilter.BearerPrefix + token
  }

  /** `localStorage.getItem('token') || null`: a missing or empty entry is no token. */
  function InitialToken(storage: map<string, string>): (t: Option<string>)
    ensures t.Some? <==> TokenKey in storage && storage[TokenKey] != ""
    ensures t.Some? ==> t.value == storage[TokenKey]
  {
    if TokenKey in storage && storage[TokenKey] != "" then Some(storage[TokenKey]) else None
  }

  /**
   * `JSON.parse(localStorage.getItem('userInfo')) || null`: a missing entry
   * parses as `null`; a malformed one makes the parser throw.
   */
  function InitialUserInfo(storage: map<string, string>, parse: JsonDecoder): (r: Result<Option<UserInfo>, string>)
    ensures UserInfoKey !in storage ==> r == Success(None)
    ensures UserInfoKey in storage ==> r == parse(storage[UserInfoKey])
  {
    if UserInfoKey in storage then parse(storage[UserInfoKey]) else Success(None)
  }

  /** What a reload restores after `setToken(t)`: the token, unless it is empty. */
  lemma TokenSurvivesReload(storage: map<string, string>, t: string)
    ensures InitialToken(storage[TokenKey := t]) == (if t != "" then Some(t) else None)
  {
  }

  /** After `setUserInfo(u)`, a reload restores `u` when the codec round-trips it. */
  lemma UserInfoSurvivesReload(storage: map<string, string>, u: Option<UserInfo>,
                               stringify: Option<UserInfo> -> string, parse: JsonDecoder)
    requires parse(stringify(u)) == Success(u)
    ensures InitialUserInfo(storage[UserInfoKey := stringify(u)], parse) == Success(u)
  {
  }

  /** After `logout()`, a reload restores no session at all. */
  lemma LogoutSurvivesReload(storage: map<string, string>, parse: JsonDecoder)
    ensures InitialToken(storage - {TokenKey, UserInfoKey}) == None
    ensures InitialUserInfo(storage - {TokenKey, UserInfoKey}, parse) == Success(None)
  {
  }

  /** The result of the `changePassword` action, which keeps no state. */
  function ChangePassword(response: ApiResponse<()>): (r: ActionResult<()>)
    ensures r.success <==> response.Ok?
    ensures r.value.None?
    ensures r.message.Some? <==> response.Err?
    ensures response.Err? ==> r.message == Some(OrDefault(response.message, ChangePasswordFailed))
  {
    match response
    case Ok(_) => ActionResult(true, None, None)
    case Err(_, message) => ActionResult(false, None, Some(OrDefault(message, ChangePasswordFailed)))
  }

  class UserStore {
    var token: Option<string>
    var userInfo: Option<UserInfo>
    /** `localStorage`. */
    var storage: map<string, string>
    /** `axios.defaults.headers.common`. */
    var headers: map<string, string>
    /** `JSON.stringify` of a user object or `null`. */
    const stringify: Option<UserInfo> -> string

    /**
     * The `state()` read back from storage. The stored token is not put
     * back into the default headers: restoring it does not re-establish
     * the `Authorization` header.
     */
    constructor (storage0: map<string, string>, headers0: map<string, string>,
                 stringify: Option<UserInfo> -> string, parse: JsonDecoder)
      requires InitialUserInfo(storage0, parse).Success?
      ensures token == InitialToken(storage0)
      ensures userInfo == InitialUserInfo(storage0, parse).value
      ensures storage == storage0 && headers == headers0 && this.stringify == stringify
    {
      token := InitialToken(storage0);
      userInfo := InitialUserInfo(storage0, parse).value;
      storage := storage0;
      headers := headers0;
      this.stringify := stringify;
    }

    /** `isLoggedIn`: `!!token`. */
    predicate IsLoggedIn()
      reads this`token
      ensures IsLoggedIn() <==> token.Some? && token.value != ""
    {
      TruthyString(token)
    }

    /** `isAdmin`: `userInfo?.role === 'ADMIN'`. */
    predicate IsAdmin()
      reads this`userInfo
      ensures IsAdmin() <==> userInfo.Some? && userInfo.value.role == Str("ADMIN")
    {
      userInfo.Some? && userInfo.value.role == Str("ADMIN")
    }

    /** `userFullName`: empty without a user, else both names around a space. */
    function UserFullName(): (r: string)
      reads this`userInfo
      ensures userInfo.None? ==> r == ""
      ensures userInfo.Some? ==> |r| == |userInfo.value.firstName.Render()| + 1 + |userInfo.value.lastName.Render()|
      ensures userInfo.Some? ==> r[|userInfo.value.firstName.Render()|] == ' '
      ensures userInfo.Some? ==> r[..|userInfo.value.firstName.Render()|] == userInfo.value.firstName.Render()
      ensures userInfo.Some? ==> r[|userInfo.value.firstName.Render()| + 1..] == userInfo.value.lastName.Render()
    {
      if userInfo.None? then "" else userInfo.value.firstName.Render() + " " + userInfo.value.lastName.Render()
    }

    /**
     * The session agrees with its copies: a token is stored under `token`
     * and sent as the bearer of the `Authorization` header.
     */
    predicate Synced()
      reads this`token, this`storage, this`headers
    {
      token.Some? ==> TokenKey in storage && storage[TokenKey] == token.value
                      && AuthorizationKey in headers && headers[AuthorizationKey] == AuthorizationHeader(token.value)
    }

    /** `setToken(token)`: the token, its stored copy and the default header together. */
    method SetToken(t: string)
      modifies this`token, this`storage, this`headers
      ensures token == Some(t)
      ensures storage == old(storage)[TokenKey := t]
      ensures headers == old(headers)[AuthorizationKey := AuthorizationHeader(t)]
      ensures Synced()
      ensures JwtFilter.GetJwtFromRequest(Some(headers[AuthorizationKey])) == Some(t)
    {
      token := Some(t);
      storage := storage[TokenKey := t];
      headers := headers[AuthorizationKey := AuthorizationHeader(t)];
    }

    /** `setUserInfo(userInfo)`: the user and its JSON copy. */
    method SetUserInfo(u: Option<UserInfo>)
      modifies this`userInfo, this`storage
      ensures userInfo == u
      ensures storage == old(storage)[UserInfoKey := stringify(u)]
    {
      userInfo := u;
      storage := storage[UserInfoKey := stringify(u)];
    }

    /** `logout()`: no token, no user, neither stored, and no default header. */
    method Logout()
      modifies this`token, this`userInfo, this`storage, this`headers
      ensures token.None? && userInfo.None?
      ensures storage == old(storage) - {TokenKey, UserInfoKey}
      ensures headers == old(headers) - {AuthorizationKey}
      ensures Synced() && !IsLoggedIn() && !IsAdmin()
    {
      token := None;
      userInfo := None;
      storage := storage - {TokenKey} - {UserInfoKey};
      headers := headers - {AuthorizationKey};
    }

    /** `login` and `register`: a successful answer signs the user in with its token. */
    method SignIn(response: ApiResponse<SignInAnswer>, fallback: string) returns (r: ActionResult<()>)
      modifies this`token, this`userInfo, this`storage, this`headers
      ensures response.Ok? ==>
        && token == Some(response.data.token) && userInfo == response.data.user
        && storage == old(storage)[TokenKey := response.data.token][UserInfoKey := stringify(response.data.user)]
        && headers == old(headers)[AuthorizationKey := AuthorizationHeader(response.data.token)]
        && Synced()
        && r == ActionResult(true, None, None)
      ensures response.Err? ==>
        && token == old(token) && userInfo == old(userInfo) && storage == old(storage) && headers == old(headers)
        && r == ActionResult(false, None, Some(OrDefault(response.message, fallback)))
    {
      match response
      case Ok(answer) =>
        SetToken(answer.token);
        SetUserInfo(answer.user);
        r := ActionResult(true, None, None);
      case Err(_, message) =>
        r := ActionResult(false, None, Some(OrDefault(message, fallback)));
    }

    method Login(response: ApiResponse<SignInAnswer>) returns (r: ActionResult<()>)
      modifies this`token, this`userInfo, this`storage, this`headers
      ensures response.Ok? ==>
        && token == Some(response.data.token) && userInfo == response.data.user
        && storage == old(storage)[TokenKey := response.data.token][UserInfoKey := stringify(response.data.user)]
        && headers == old(headers)[AuthorizationKey := AuthorizationHeader(response.data.token)]
        && Synced()
        && r == ActionResult(true, None, None)
      ensures response.Err? ==>
        && token == old(token) && userInfo == old(userInfo) && storage == old(storage) && headers == old(headers)
        && r == ActionResult(false, None, Some(OrDefault(response.message, LoginFailed)))
    {
      r := SignIn(response, LoginFailed);
    }

    method Register(response: ApiResponse<SignInAnswer>) returns (r: ActionResult<()>)
      modifies this`token, this`userInfo, this`storage, this`headers
      ensures response.Ok? ==>
        && token == Some(response.data.token) && userInfo == response.data.user
        && storage == old(storage)[TokenKey := response.data.token][UserInfoKey := stringify(response.data.user)]
        && headers == old(headers)[AuthorizationKey := AuthorizationHeader(response.data.token)]
        && Synced()
        && r == ActionResult(true, None, None)
      ensures response.Err? ==>
        && token == old(token) && userInfo == old(userInfo) && storage == old(storage) && headers == old(headers)
        && r == ActionResult(false, None, Some(OrDefault(response.message, RegisterFailed)))
    {
      r := SignIn(response, RegisterFailed);
    }

    /**
     * `fetchUserInfo()`: nothing at all without a token (the action then
     * returns `undefined`); otherwise the answer becomes the user, and a
     * 401 rejection logs out.
     */
    method FetchUserInfo(response: ApiResponse<Option<UserInfo>>) returns (r: Option<ActionResult<()>>)
      modifies this`token, this`userInfo, this`storage, this`headers
      ensures !old(TruthyString(token)) ==>
        r.None? && token == old(token) && userInfo == old(userInfo) && storage == old(storage) && headers == old(headers)
      ensures old(TruthyString(token)) && response.Ok? ==>
        && userInfo == response.data && token == old(token) && headers == old(headers)
        && storage == old(storage)[UserInfoKey := stringify(response.data)]
        && r == Some(ActionResult(true, None, None))
      ensures old(TruthyString(token)) && response.Err? && response.status == Some(Unauthorized) ==>
        && token.None? && userInfo.None?
        && storage == old(storage) - {TokenKey, UserInfoKey} && headers == old(headers) - {AuthorizationKey}
      ensures old(TruthyString(token)) && response.Err? && response.status != Some(Unauthorized) ==>
        token == old(token) && userInfo == old(userInfo) && storage == old(storage) && headers == old(headers)
      ensures old(TruthyString(token)) && response.Err? ==>
        r == Some(ActionResult(false, None, Some(OrDefault(response.message, FetchUserInfoFailed))))
    {
      if !TruthyString(token) {
        return None;
      }
      match response
      case Ok(info) =>
        SetUserInfo(info);
        r := Some(ActionResult(true, None, None));
      case Err(status, message) =>
        if status == Some(Unauthorized) {
          Logout();
        }
        r := Some(ActionResult(false, None, Some(OrDefault(message, FetchUserInfoFailed))));
    }

    /** `updateProfile`: the answer becomes the user. */
    method UpdateProfile(response: ApiResponse<Option<UserInfo>>) returns (r: ActionResult<()>)
      modifies this`userInfo, this`storage
      ensures response.Ok? ==>
        userInfo == response.data && storage == old(storage)[UserInfoKey := stringify(response.data)]
        && r == ActionResult(true, None, None)
      ensures response.Err? ==>
        userInfo == old(userInfo) && storage == old(storage)
        && r == ActionResult(false, None, Some(OrDefault(response.message, UpdateProfileFailed)))
    {
      match response
      case Ok(info) =>
        SetUserInfo(info);
        r := ActionResult(true, None, None);
      case Err(_, message) =>
        r := ActionResult(false, None, Some(OrDefault(message, UpdateProfileFailed)));
    }
  }
}
