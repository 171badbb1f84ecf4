/**
 * `UserServiceImpl`: lookups by id, username and email, the whole-field
 * profile update, deletion and the mapping to the user DTO.
 */
module UserService {
  import opened Wrappers
  import opened Errors
  import opened Entities
  import opened Store

  /** `UserDto`: the stored user minus its password, with the role as its name. */
  datatype UserDto = UserDto(
    id: Id,
    username: string,
    email: string,
    firstName: Option<string>,
    lastName: Option<string>,
    avatarUrl: Option<string>,
    bio: Option<string>,
    role: string)

  function MapToUserDto(id: Id, u: User): (d: UserDto)
    ensures d.id == id && d.username == u.username && d.email == u.email
    ensures d.firstName == u.firstName && d.lastName == u.lastName
    ensures d.avatarUrl == u.avatarUrl && d.bio == u.bio
    ensures d.role == u.role.Name()
  {
    UserDto(id, u.username, u.email, u.firstName, u.lastName, u.avatarUrl, u.bio, u.role.Name())
  }

  /** The DTO never depends on the password: users that differ only there look the same. */
  lemma DtoHidesPassword(id: Id, u: User, password: string)
    ensures MapToUserDto(id, u.(password := password)) == MapToUserDto(id, u)
  {
  }

  /** The role name determines the role, so the DTO still tells users from admins. */
  lemma RoleNameInjective(a: UserRole, b: UserRole)
    ensures a.Name() == b.Name() <==> a == b
  {
  }

  /**
   * What `updateUser` stores: the five profile fields come from the request,
   * nulls included; username, password and role stay.
   */
  function UpdatedUser(stored: User, details: User): (u: User)
    ensures u.firstName == details.firstName && u.lastName == details.lastName && u.email == details.email
    ensures u.bio == details.bio && u.avatarUrl == details.avatarUrl
    ensures u.username == stored.username && u.password == stored.password && u.role == stored.role
  {
    stored.(firstName := details.firstName, lastName := details.lastName, email := details.email,
            bio := details.bio, avatarUrl := details.avatarUrl)
  }

  /** Updating twice with the same request is updating once. */
  lemma UpdatedUserIdempotent(stored: User, details: User)
    ensures UpdatedUser(UpdatedUser(stored, details), details) == UpdatedUser(stored, details)
  {
  }

  class UserServiceImpl {
    const db: Database

    constructor (db: Database)
      ensures this.db == db
    {
      this.db := db;
    }

    method GetUserById(id: Id) returns (r: Result<UserDto, Exception>)
      ensures id in db.users ==> r == Success(MapToUserDto(id, db.users[id]))
      ensures id !in db.users ==> r == Failure(NotFoundById("User", id))
    {
      if id in db.users {
        r := Success(MapToUserDto(id, db.users[id]));
      } else {
        r := Failure(NotFoundById("User", id));
      }
    }

    method GetUserByUsername(username: string) returns (r: Result<UserDto, Exception>)
      ensures r.Failure? <==> !db.UsernameTaken(username)
      ensures r.Failure? ==> r.error == ResourceNotFound("User", "username", username)
      ensures r.Success? ==> r.value.id in db.users && r.value == MapToUserDto(r.value.id, db.users[r.value.id]) && r.value.username == username
    {
      if db.UsernameTaken(username) {
        var id :| id in db.users && db.users[id].username == username;
        r := Success(MapToUserDto(id, db.users[id]));
      } else {
        r := Failure(ResourceNotFound("User", "username", username));
      }
    }

    method GetUserByEmail(email: string) returns (r: Result<UserDto, Exception>)
      ensures r.Failure? <==> !db.EmailTaken(email)
      ensures r.Failure? ==> r.error == ResourceNotFound("User", "email", email)
      ensures r.Success? ==> r.value.id in db.users && r.value == MapToUserDto(r.value.id, db.users[r.value.id]) && r.value.email == email
    {
      if db.EmailTaken(email) {
        var id :| id in db.users && db.users[id].email == email;
        r := Success(MapToUserDto(id, db.users[id]));
      } else {
        r := Failure(ResourceNotFound("User", "email", email));
      }
    }

    /** `updateUser`: no partial update and no check that the new email is free. */
    method UpdateUser(id: Id, details: User) returns (r: Result<UserDto, Exception>)
      requires db.Valid()
      modifies db
      ensures db.Valid()
      ensures db.categories == old(db.categories) && db.tags == old(db.tags) && db.posts == old(db.posts)
      ensures db.comments == old(db.comments) && db.nextId == old(db.nextId)
      ensures id !in old(db.users) ==> r == Failure(NotFoundById("User", id)) && db.users == old(db.users)
      ensures id in old(db.users) ==>
        var u := UpdatedUser(old(db.users[id]), details);
        r == Success(MapToUserDto(id, u)) && db.users == old(db.users)[id := u]
    {
      if id !in db.users {
        return Failure(NotFoundById("User", id));
      }
      var user := db.users[id];
      user := user.(firstName := details.firstName);
      user := user.(lastName := details.lastName);
      user := user.(email := details.email);
      user := user.(bio := details.bio);
      user := user.(avatarUrl := details.avatarUrl);
      db.users := db.users[id := user];
      r := Success(MapToUserDto(id, user));
    }

    method DeleteUser(id: Id) returns (r: Result<(), Exception>)
      requires db.Valid()
      modifies db
      ensures db.Valid()
      ensures db.categories == old(db.categories) && db.tags == old(db.tags) && db.posts == old(db.posts)
      ensures db.comments == old(db.comments) && db.nextId == old(db.nextId)
      ensures id !in old(db.users) ==> r == Failure(NotFoundById("User", id)) && db.users == old(db.users)
      ensures id in old(db.users) ==> r == Success(()) && db.users == old(db.users) - {id}
    {
      if id !in db.users {
        return Failure(NotFoundById("User", id));
      }
      db.users := db.users - {id};
      r := Success(());
    }
  }
}
