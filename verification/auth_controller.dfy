/** Registration and login over the user collection
    (controllers/AuthController.js). */
module AuthController {
  import opened Wrappers
  import opened Messages
  import opened Http
  import opened Crypto

  /** A stored user. Its password is a digest, never the plaintext. */
  datatype User = User(id: string, name: string, email: string, password: PasswordHash)

  /** The `data` of a successful login. It has no password field. */
  datatype Session = Session(name: string, email: string, accessToken: Token)

  /** The bcrypt cost factor of `register`. */
  const SaltRounds: nat := 10

  function Success(key: SuccessKey, payload: Payload<Session>): Response<Session>
  {
    Response(200, true, Some(SuccessText(key)), payload)
  }

  function ErrorResponse(status: int, key: ErrorKey): Response<Session>
  {
    Failure(status, Some(ErrorText(key)))
  }

  /** The login response for a known user: the token carries `{id, name,
      email}` and the data `{name, email, accessToken}`. */
  function SessionResponse(u: User): Response<Session>
  {
    Success(LoginSuccess, Data(Session(u.name, u.email, Sign(Claims(u.id, u.name, u.email)))))
  }

  /** Every response `login` tries to write, in order, as the code is written.
      `lookupFails` is whether `findOne` rejects, which the catch answers with
      500. The user's password is read before the null check, so an unknown
      email throws and the catch answers 500. A wrong password writes 401
      and, with no `return`, goes on to sign a token and write again; that
      write throws because the headers are sent, and the catch writes a third
      time. */
  function LoginAttempts(users: map<string, User>, email: Option<string>, password: Option<string>, lookupFails: bool): seq<Response<Session>>
  {
    if !Present(email) || !Present(password) then [ErrorResponse(400, InvalidRequest)]
    else if lookupFails || email.value !in users then [ErrorResponse(500, InternalServerError)]
    else if Matches(password.value, users[email.value].password) then [SessionResponse(users[email.value])]
    else [ErrorResponse(401, InvalidCredentials), SessionResponse(users[email.value]), ErrorResponse(500, InternalServerError)]
  }

  /** `login` with the null check before the password comparison and a
      `return` after the 401. */
  function CheckedLoginAttempts(users: map<string, User>, email: Option<string>, password: Option<string>, lookupFails: bool): seq<Response<Session>>
  {
    if !Present(email) || !Present(password) then [ErrorResponse(400, InvalidRequest)]
    else if lookupFails then [ErrorResponse(500, InternalServerError)]
    else if email.value !in users || !Matches(password.value, users[email.value].password) then [ErrorResponse(401, InvalidCredentials)]
    else [SessionResponse(users[email.value])]
  }

  /** A falsy email or password is answered 400 `INVALID_REQUEST` before any
      lookup: the answer depends neither on the user table nor on the store. */
  lemma LoginNeedsCredentials(users: map<string, User>, others: map<string, User>, email: Option<string>, password: Option<string>, lookupFails: bool)
    requires !Present(email) || !Present(password)
    ensures LoginAttempts(users, email, password, lookupFails) == LoginAttempts(others, email, password, false) == [ErrorResponse(400, InvalidRequest)]
  {
  }

  /** A lookup that rejects is answered 500 once, whatever the table holds,
      as written and corrected alike. */
  lemma LoginLookupFails(users: map<string, User>, email: string, password: string)
    requires email != "" && password != ""
    ensures LoginAttempts(users, Some(email), Some(password), true) == [ErrorResponse(500, InternalServerError)]
    ensures CheckedLoginAttempts(users, Some(email), Some(password), true) == [ErrorResponse(500, InternalServerError)]
  {
  }

  /** As written, an unknown email is answered 500, not 401. */
  lemma UnknownEmailCrashes(users: map<string, User>, email: string, password: string)
    requires email != "" && password != "" && email !in users
    ensures Delivered(LoginAttempts(users, Some(email), Some(password), false)) == Some(ErrorResponse(500, InternalServerError))
    ensures Delivered(LoginAttempts(users, Some(email), Some(password), false)) != Some(ErrorResponse(401, InvalidCredentials))
  {
  }

  /** As written, a wrong password is answered 401, but execution falls
      through: a token for that user is signed and two more writes are
      attempted. */
  lemma WrongPasswordFallsThrough(users: map<string, User>, email: string, password: string)
    requires email != "" && password != "" && email in users && !Matches(password, users[email].password)
    ensures var log := LoginAttempts(users, Some(email), Some(password), false);
      |log| == 3 && Delivered(log) == Some(ErrorResponse(401, InvalidCredentials))
      && log[1] == SessionResponse(users[email]) && log[2] == ErrorResponse(500, InternalServerError)
  {
  }

  /** A successful login signs exactly `{id, name, email}` for one hour and
      answers with the user's name and email. */
  lemma SuccessfulLogin(users: map<string, User>, email: string, password: string)
    requires email != "" && password != "" && email in users && Matches(password, users[email].password)
    ensures var log := LoginAttempts(users, Some(email), Some(password), false);
      var u := users[email];
      |log| == 1 && log[0].status == 200 && log[0].success
      && log[0].payload == Data(Session(u.name, u.email, Token(Claims(u.id, u.name, u.email), OneHour)))
  {
  }

  /** The corrected login writes exactly one response on every path, answers
      401 for an unknown email and for a wrong password alike, and agrees with
      the code as written wherever the latter writes only once. */
  lemma CheckedLoginSingleResponse(users: map<string, User>, email: Option<string>, password: Option<string>, lookupFails: bool)
    ensures |CheckedLoginAttempts(users, email, password, lookupFails)| == 1
    ensures Present(email) && Present(password) && !lookupFails
        && (email.value !in users || !Matches(password.value, users[email.value].password))
      ==> CheckedLoginAttempts(users, email, password, lookupFails) == [ErrorResponse(401, InvalidCredentials)]
    ensures |LoginAttempts(users, email, password, lookupFails)| == 1
        && (!Present(email) || !Present(password) || lookupFails || email.value in users)
      ==> CheckedLoginAttempts(users, email, password, lookupFails) == LoginAttempts(users, email, password, lookupFails)
  {
  }

  /** The user collection, keyed by email (`findOne({email})`). */
  class Users {
    var byEmail: map<string, User>

    predicate Valid()
      reads this
    {
      forall e :: e in byEmail ==> byEmail[e].email == e
    }

    constructor ()
      ensures Valid() && byEmail == map[]
    {
      byEmail := map[];
    }

    /** `login(req, res)` as written; `lookupFails` is whether `findOne`
        rejects. */
    method Login(email: Option<string>, password: Option<string>, lookupFails: bool, res: Res<Session>)
      requires res.attempts == []
      modifies res
      ensures res.attempts == LoginAttempts(byEmail, email, password, lookupFails)
    {
      if !Present(email) || !Present(password) {
        var _ := res.Json(ErrorResponse(400, InvalidRequest));
        return;
      }
      if lookupFails {
        var _ := res.Json(ErrorResponse(500, InternalServerError));
        return;
      }
      if email.value !in byEmail {
        // `existUser.password` on `null` throws; the catch answers.
        var _ := res.Json(ErrorResponse(500, InternalServerError));
        return;
      }
      var existUser := byEmail[email.value];
      var isValidPassword := Matches(password.value, existUser.password);
      if !isValidPassword {
        var _ := res.Json(ErrorResponse(401, InvalidCredentials));
      }
      var accessToken := Sign(Claims(existUser.id, existUser.name, existUser.email));
      var threw := res.Json(Success(LoginSuccess, Data(Session(existUser.name, existUser.email, accessToken))));
      if threw {
        // The catch writes again; that write throws out of the handler.
        var _ := res.Json(ErrorResponse(500, InternalServerError));
      }
    }

    /** `login` with the null check first and a `return` after the 401. */
    method LoginChecked(email: Option<string>, password: Option<string>, lookupFails: bool, res: Res<Session>)
      requires res.attempts == []
      modifies res
      ensures res.attempts == CheckedLoginAttempts(byEmail, email, password, lookupFails)
    {
      if !Present(email) || !Present(password) {
        var _ := res.Json(ErrorResponse(400, InvalidRequest));
        return;
      }
      if lookupFails {
        var _ := res.Json(ErrorResponse(500, InternalServerError));
        return;
      }
      if email.value !in byEmail || !Matches(password.value, byEmail[email.value].password) {
        var _ := res.Json(ErrorResponse(401, InvalidCredentials));
        return;
      }
      var existUser := byEmail[email.value];
      var accessToken := Sign(Claims(existUser.id, existUser.name, existUser.email));
      var _ := res.Json(Success(LoginSuccess, Data(Session(existUser.name, existUser.email, accessToken))));
    }

    /** `register(req, res)`; `lookupFails` is whether `findOne` rejects,
        `newId` the id the store assigns and `storeFails` whether
        `UserModel.create` rejects. */
    method Register(name: Option<string>, email: Option<string>, password: Option<string>,
                    lookupFails: bool, newId: string, storeFails: bool, res: Res<Session>)
      requires Valid() && res.attempts == []
      modifies this, res
      ensures Valid()
      ensures !Present(name) || !Present(email) || !Present(password) ==>
        byEmail == old(byEmail) && res.attempts == [ErrorResponse(400, InvalidRequest)]
      ensures Present(name) && Present(email) && Present(password) && lookupFails ==>
        byEmail == old(byEmail) && res.attempts == [ErrorResponse(500, InternalServerError)]
      ensures Present(name) && Present(email) && Present(password) && !lookupFails && email.value in old(byEmail) ==>
        byEmail == old(byEmail) && res.attempts == [ErrorResponse(400, EmailAlreadyExists)]
      ensures Present(name) && Present(email) && Present(password) && !lookupFails && email.value !in old(byEmail) && storeFails ==>
        byEmail == old(byEmail) && res.attempts == [ErrorResponse(500, InternalServerError)]
      ensures Present(name) && Present(email) && Present(password) && !lookupFails && email.value !in old(byEmail) && !storeFails ==>
        byEmail == old(byEmail)[email.value := User(newId, name.value, email.value, Hash(password.value, SaltRounds))]
        && res.attempts == [Success(RegistrationSuccess, Bare)]
    {
      if !Present(name) || !Present(email) || !Present(password) {
        var _ := res.Json(ErrorResponse(400, InvalidRequest));
        return;
      }
      if lookupFails {
        var _ := res.Json(ErrorResponse(500, InternalServerError));
        return;
      }
      if email.value in byEmail {
        var _ := res.Json(ErrorResponse(400, EmailAlreadyExists));
        return;
      }
      var hashPassword := Hash(password.value, SaltRounds);
      if storeFails {
        var _ := res.Json(ErrorResponse(500, InternalServerError));
        return;
      }
      byEmail := byEmail[email.value := User(newId, name.value, email.value, hashPassword)];
      var _ := res.Json(Success(RegistrationSuccess, Bare));
    }
  }

  /** After a successful registration the stored digest matches the password
      and has cost 10, and a later login with the same credentials succeeds. */
  lemma RegisteredUserCanLogIn(users: map<string, User>, id: string, name: string, email: string, password: string)
    requires name != "" && email != "" && password != ""
    ensures var after := users[email := User(id, name, email, Hash(password, SaltRounds))];
      after[email].password.cost == SaltRounds
      && LoginAttempts(after, Some(email), Some(password), false) == [SessionResponse(after[email])]
  {
  }
}
