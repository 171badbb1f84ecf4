/**
 * `AuthController.registerUser`: the duplicate checks (username first,
 * then email) and the construction of the new user. The password encoder
 * is a parameter; login through the `AuthenticationManager` is not modelled.
 */
module AuthController {
  import opened Wrappers
  import opened Entities
  import opened Store

  datatype RegisterRequest = RegisterRequest(
    username: string,
    email: string,
    password: string,
    firstName: Option<string>,
    lastName: Option<string>)

  /** The HTTP status and the `MessageResponse` body. */
  datatype MessageResponse = MessageResponse(status: int, message: string)

  const UsernameTakenMessage := "错误：用户名已被使用"
  const EmailTakenMessage := "错误：邮箱已被使用"
  const RegisteredMessage := "用户注册成功"

  /** The three outcomes are told apart by their message. */
  lemma MessagesDistinct()
    ensures UsernameTakenMessage != EmailTakenMessage
    ensures UsernameTakenMessage != RegisteredMessage && EmailTakenMessage != RegisteredMessage
  {
    assert UsernameTakenMessage[3] != EmailTakenMessage[3];
    assert |UsernameTakenMessage| != |RegisteredMessage|;
  }

  /** The user `User.builder()` assembles from the request. */
  function NewUser(req: RegisterRequest, encode: string -> string): (u: User)
    ensures u.username == req.username && u.email == req.email && u.password == encode(req.password)
    ensures u.firstName == req.firstName && u.lastName == req.lastName && u.role == USER
    ensures u.avatarUrl.None? && u.bio.None?
  {
    User(req.username, req.email, encode(req.password), req.firstName, req.lastName, None, None, USER)
  }

  method RegisterUser(db: Database, req: RegisterRequest, encode: string -> string) returns (r: MessageResponse)
    requires db.Valid()
    modifies db
    ensures db.Valid()
    ensures db.categories == old(db.categories) && db.tags == old(db.tags)
    ensures db.posts == old(db.posts) && db.comments == old(db.comments)
    ensures old(db.UsernameTaken(req.username)) ==>
      r == MessageResponse(400, UsernameTakenMessage) && db.users == old(db.users) && db.nextId == old(db.nextId)
    ensures !old(db.UsernameTaken(req.username)) && old(db.EmailTaken(req.email)) ==>
      r == MessageResponse(400, EmailTakenMessage) && db.users == old(db.users) && db.nextId == old(db.nextId)
    ensures !old(db.UsernameTaken(req.username)) && !old(db.EmailTaken(req.email)) ==>
      && r == MessageResponse(200, RegisteredMessage)
      && old(db.nextId) !in old(db.users)
      && db.users == old(db.users)[old(db.nextId) := NewUser(req, encode)]
      && |db.users| == |old(db.users)| + 1
  {
    if db.UsernameTaken(req.username) {
      return MessageResponse(400, UsernameTakenMessage);
    }
    if db.EmailTaken(req.email) {
      return MessageResponse(400, EmailTakenMessage);
    }
    var user := NewUser(req, encode);
    var id := db.NextId();
    db.users := db.users[id := user];
    r := MessageResponse(200, RegisteredMessage);
  }
}
