/**
 The user controller: registration, login and account update over the user
 collection, keyed by email.

 Password hashing and comparison and token signing are the uninterpreted
 functions `hash`, `compare` and `sign` the service is built with, together with
 the configured signing secret. Faults of the user collection inside `try`
 blocks and the id it generates for a new user are parameters of the handlers.
 The collection also keeps its natural order, because a query whose `email` is
 `undefined` loses that key and matches the first user in it. Natural order is
 taken to be insertion order, which MongoDB does not promise.
 */
module Users {
  import opened JsStrings
  import opened Http

  type Email = string
  type UserId = string

  datatype User = User(id: UserId, name: string, email: Email, password: string)

  /** A signed token; its subject is the user it was issued for. */
  datatype AccessToken = AccessToken(sub: UserId, signature: string)

  datatype Body = Token(accessToken: AccessToken) | Message(text: string)

  const MissingFields := "All fields are required"
  const LookupFailure := "Error while getting user"
  const EmailTaken := "User already exists with this email."
  const CreateFailure := "Error while creating user."
  const SignFailure := "Error while signing the jwt token"
  const UserNotFound := "User not found."
  const LoginMismatch := "Username or password incorrect from hashedPassword!"
  const TokenFailure := "Error in generating access token"
  const LoginFailure := "Error in Login User"
  const DetailsMissing := "Please provide all the details"
  const UpdateMismatch := "Username or password incorrect!"
  const UpdateFailure := "Error in updating user details"
  const UpdateDone := "User details updated successfully"

  /** The registration guard: a name, an email and a password that are all truthy. */
  predicate RegistrationComplete(name: Maybe<string>, email: Maybe<string>, password: Maybe<string>) {
    Truthy(name) && Truthy(email) && Truthy(password)
  }

  /** The account-update guard rejects a new password sent with neither the old one nor an email. */
  predicate UpdateRejected(email: Maybe<string>, oldPassword: Maybe<string>, newPassword: Maybe<string>) {
    !Truthy(oldPassword) && !Truthy(email) && Truthy(newPassword)
  }

  class UserService {
    const hash: string -> string
    const compare: (string, string) -> bool
    const sign: (UserId, string) -> string
    const jwtSecret: Maybe<string>
    var users: map<Email, User>
    var order: seq<Email>

    /** Each user is filed under its own email, and the natural order lists exactly the stored emails. */
    ghost predicate Valid()
      reads this
    {
      && (forall e :: e in users ==> users[e].email == e)
      && (forall i :: 0 <= i < |order| ==> order[i] in users)
      && (forall e :: e in users ==> e in order)
    }

    constructor (hash: string -> string, compare: (string, string) -> bool,
                 sign: (UserId, string) -> string, jwtSecret: Maybe<string>)
      ensures Valid()
      ensures this.hash == hash && this.compare == compare && this.sign == sign && this.jwtSecret == jwtSecret
      ensures users == map[] && order == []
    {
      this.hash := hash;
      this.compare := compare;
      this.sign := sign;
      this.jwtSecret := jwtSecret;
      users := map[];
      order := [];
    }

    /** `sign({ sub }, secret)`: signing fails when the configured secret is falsy. */
    function SignToken(sub: UserId): (token: Maybe<AccessToken>)
      ensures token.Defined? <==> Truthy(jwtSecret)
      ensures token.Defined? ==> token.value.sub == sub
    {
      if Truthy(jwtSecret) then Defined(AccessToken(sub, sign(sub, jwtSecret.value))) else Undefined
    }

    /**
     The user `findOne({ email })` returns: the one filed under the email, or,
     when the email is `undefined` and so dropped from the query, the first
     user in natural order.
     */
    function FindByEmail(email: Maybe<string>): (found: Maybe<Email>)
      reads this
      requires Valid()
      ensures found.Defined? ==> found.value in users
      ensures email.Defined? ==> (found.Defined? <==> email.value in users)
      ensures email.Defined? && found.Defined? ==> found.value == email.value
      ensures email.Undefined? ==> (found.Defined? <==> users != map[])
      ensures email.Undefined? && order != [] ==> found == Defined(order[0])
    {
      match email
      case Defined(e) => if e in users then Defined(e) else Undefined
      case Undefined =>
        if order == [] then
          assert forall e :: e !in users;
          Undefined
        else Defined(order[0])
    }

    /**
     POST /register: checks the fields, rejects a taken email, stores the user
     with the hashed password and answers with a token for the new id.
     */
    method CreateUser(name: Maybe<string>, email: Maybe<string>, password: Maybe<string>,
                      newId: UserId, findFails: bool, createFails: bool)
      returns (reply: Reply<Body>)
      requires Valid()
      modifies this`users, this`order
      ensures Valid()
      ensures !RegistrationComplete(name, email, password) ==>
                reply == Fail(400, MissingFields) && users == old(users) && order == old(order)
      ensures RegistrationComplete(name, email, password) && findFails ==>
                reply == Fail(500, LookupFailure) && users == old(users) && order == old(order)
      ensures RegistrationComplete(name, email, password) && !findFails && email.value in old(users) ==>
                reply == Fail(400, EmailTaken) && users == old(users) && order == old(order)
      ensures && RegistrationComplete(name, email, password) && !findFails && email.value !in old(users)
              && createFails ==>
                reply == Fail(500, CreateFailure) && users == old(users) && order == old(order)
      // The user is stored before the token is signed, so a signing failure leaves it stored.
      ensures && RegistrationComplete(name, email, password) && !findFails && email.value !in old(users)
              && !createFails ==>
                && users == old(users)[email.value := User(newId, name.value, email.value, hash(password.value))]
                && order == old(order) + [email.value]
                && reply == (if Truthy(jwtSecret) then Send(201, Token(SignToken(newId).value))
                             else Fail(500, SignFailure))
    {
      if !(Truthy(name) && Truthy(email) && Truthy(password)) {
        return Fail(400, MissingFields);
      }
      if findFails {
        return Fail(500, LookupFailure);
      }
      var found := FindByEmail(email);
      if found.Defined? {
        return Fail(400, EmailTaken);
      }
      var hashedPassword := hash(password.value);
      if createFails {
        return Fail(500, CreateFailure);
      }
      users := users[email.value := User(newId, name.value, email.value, hashedPassword)];
      order := order + [email.value];
      var token := SignToken(newId);
      if token.Undefined? {
        return Fail(500, SignFailure);
      }
      reply := Send(201, Token(token.value));
    }

    /**
     POST /login: checks the fields, finds the user by email, compares the
     password with the stored one and answers with a token for that user.
     */
    method LoginUser(email: Maybe<string>, password: Maybe<string>, findFails: bool)
      returns (reply: Reply<Body>)
      requires Valid()
      ensures !(Truthy(email) && Truthy(password)) ==> reply == Fail(400, MissingFields)
      ensures Truthy(email) && Truthy(password) && findFails ==> reply == Fail(500, LoginFailure)
      ensures Truthy(email) && Truthy(password) && !findFails && email.value !in users ==>
                reply == Fail(404, UserNotFound)
      ensures && Truthy(email) && Truthy(password) && !findFails && email.value in users
              && !compare(password.value, users[email.value].password) ==>
                reply == Fail(400, LoginMismatch)
      ensures && Truthy(email) && Truthy(password) && !findFails && email.value in users
              && compare(password.value, users[email.value].password) ==>
                reply == (if Truthy(jwtSecret) then Send(200, Token(SignToken(users[email.value].id).value))
                          else Fail(500, TokenFailure))
      ensures reply.Send? ==> reply.body.Token? && exists e :: e in users && reply.body.accessToken.sub == users[e].id
    {
      if !(Truthy(email) && Truthy(password)) {
        return Fail(400, MissingFields);
      }
      if findFails {
        return Fail(500, LoginFailure);
      }
      var found := FindByEmail(email);
      if found.Undefined? {
        return Fail(404, UserNotFound);
      }
      var user := users[found.value];
      if !compare(password.value, user.password) {
        return Fail(400, LoginMismatch);
      }
      var token := SignToken(user.id);
      if token.Undefined? {
        return Fail(500, TokenFailure);
      }
      reply := Send(200, Token(token.value));
    }

    /**
     PATCH /updateDetails: checks the guard, finds the user, compares the old password
     and then sets the stored password to the new one as sent.
     */
    method UpdateAccountDetails(email: Maybe<string>, oldPassword: Maybe<string>, newPassword: Maybe<string>,
                                updateFails: bool)
      returns (reply: Reply<Body>)
      requires Valid()
      modifies this`users
      ensures Valid()
      ensures order == old(order)
      ensures UpdateRejected(email, oldPassword, newPassword) ==>
                reply == Fail(400, DetailsMissing) && users == old(users)
      ensures !UpdateRejected(email, oldPassword, newPassword) && old(FindByEmail(email)).Undefined? ==>
                reply == Fail(404, UserNotFound) && users == old(users)
      // `bcrypt.compare` rejects an `undefined` password, outside any `try`.
      ensures && !UpdateRejected(email, oldPassword, newPassword) && old(FindByEmail(email)).Defined?
              && oldPassword.Undefined? ==>
                reply == Unhandled && users == old(users)
      ensures && !UpdateRejected(email, oldPassword, newPassword) && old(FindByEmail(email)).Defined?
              && oldPassword.Defined?
              && !compare(oldPassword.value, old(users)[old(FindByEmail(email)).value].password) ==>
                reply == Fail(400, UpdateMismatch) && users == old(users)
      ensures && !UpdateRejected(email, oldPassword, newPassword) && old(FindByEmail(email)).Defined?
              && oldPassword.Defined?
              && compare(oldPassword.value, old(users)[old(FindByEmail(email)).value].password) ==>
                var target := old(FindByEmail(email)).value;
                var user := old(users)[target];
                && reply == (if updateFails then Fail(500, UpdateFailure) else Send(200, Message(UpdateDone)))
                && users == (if updateFails then old(users)
                             // An `undefined` new password is dropped from `$set`.
                             else old(users)[target := user.(password := if newPassword.Defined? then newPassword.value
                                                                         else user.password)])
    {
      if !Truthy(oldPassword) && !Truthy(email) && Truthy(newPassword) {
        return Fail(400, DetailsMissing);
      }
      var found := FindByEmail(email);
      if found.Undefined? {
        return Fail(404, UserNotFound);
      }
      var user := users[found.value];
      if oldPassword.Undefined? {
        return Unhandled;
      }
      if !compare(oldPassword.value, user.password) {
        return Fail(400, UpdateMismatch);
      }
      if updateFails {
        return Fail(500, UpdateFailure);
      }
      // The filter and `$set` carry the same email, so the user keeps it.
      var newPasswordValue := if newPassword.Defined? then newPassword.value else user.password;
      users := users[found.value := user.(password := newPasswordValue)];
      reply := Send(200, Message(UpdateDone));
    }
  }

  /** Registration never files two users under one email: a second attempt is refused and changes nothing. */
  method RegisterTwice(service: UserService, name: string, email: string, password: string,
                       firstId: UserId, secondId: UserId)
    returns (second: Reply<Body>)
    requires service.Valid()
    requires name != "" && email != "" && password != "" && email !in service.users
    modifies service
    ensures service.Valid()
    ensures second == Fail(400, EmailTaken)
    ensures service.users == old(service.users)[email := User(firstId, name, email, service.hash(password))]
  {
    var first := service.CreateUser(Defined(name), Defined(email), Defined(password), firstId, false, false);
    second := service.CreateUser(Defined(name), Defined(email), Defined(password), secondId, false, false);
  }
}
