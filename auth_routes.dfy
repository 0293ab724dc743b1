/**
 * The handlers of routes/auth.routes.js. Password hashing, hash comparison
 * and token signing are parameters: the model says where they are applied and
 * to what, not how they work.
 */
module AuthRoutes {
  import opened Wrappers
  import opened Text
  import opened Values
  import opened UserModel

  const EmailTaken := "Email ya registrado"
  const BadCredentials := "Credenciales inválidas"

  /** `expiresIn: '4h'`, in seconds. */
  const TokenLifetime := 4 * 60 * 60

  /** The claims the login handler signs. */
  datatype Claims = Claims(id: string, email: string, expiresIn: int)

  datatype AuthReply =
    | AuthInvalid(errors: seq<string>)          // 400 { errors }
    | Conflict(error: string)                   // 409
    | Created(id: string, name: string, email: string) // 201, without the hash
    | Unauthorized(error: string)               // 401
    | TokenIssued(token: string)                // 200 { token }
    | AuthUnhandled                             // an exception outside any try block

  /** A simplified `isEmail`: one `@`, a non-empty local part, a dotted domain of non-empty labels, no whitespace. */
  predicate IsEmail(s: string) {
    var parts := Split(s, '@');
    && |parts| == 2 && parts[0] != []
    && |Split(parts[1], '.')| >= 2
    && (forall i :: 0 <= i < |Split(parts[1], '.')| ==> Split(parts[1], '.')[i] != [])
    && (forall i :: 0 <= i < |s| ==> !IsSpace(s[i]))
  }

  datatype RegisterBody = RegisterBody(name: Value, email: Value, password: Value)
  datatype LoginBody = LoginBody(email: Value, password: Value)

  predicate RegisterNameRule(v: Value) { v.Str? && |v.s| >= 2 }
  predicate EmailRule(v: Value) { v.Str? && IsEmail(v.s) }
  predicate PasswordLengthRule(v: Value) { (v.Str? || v.Num?) && |JsString(v)| >= 6 }

  predicate RegisterValid(b: RegisterBody) {
    RegisterNameRule(b.name) && EmailRule(b.email) && PasswordLengthRule(b.password)
  }

  function Check(ok: bool, path: string): seq<string> {
    if ok then [] else [path]
  }

  /** Lines 10-12: the failing fields, none exactly when the body is valid. */
  function RegisterErrors(b: RegisterBody): (r: seq<string>)
    ensures r == [] <==> RegisterValid(b)
    ensures !RegisterNameRule(b.name) ==> "name" in r
    ensures !EmailRule(b.email) ==> "email" in r
    ensures !PasswordLengthRule(b.password) ==> "password" in r
  {
    Check(RegisterNameRule(b.name), "name") + Check(EmailRule(b.email), "email")
      + Check(PasswordLengthRule(b.password), "password")
  }

  predicate LoginValid(b: LoginBody) {
    EmailRule(b.email) && b.password.Str?
  }

  function LoginErrors(b: LoginBody): (r: seq<string>)
    ensures r == [] <==> LoginValid(b)
  {
    Check(EmailRule(b.email), "email") + Check(b.password.Str?, "password")
  }

  /** The users and the reply after one register request. */
  datatype RegisterStep = RegisterStep(users: map<string, User>, reply: AuthReply)

  /**
   * `POST /api/auth/register`. A number of at least six digits passes the
   * length rule, and then `hashSync` throws on it.
   */
  function RegisterHandler(users: map<string, User>, b: RegisterBody, newId: string, hash: string -> string): RegisterStep
    requires RegistryValid(users)
  {
    var errors := RegisterErrors(b);
    if errors != [] then RegisterStep(users, AuthInvalid(errors))
    else if FindByEmail(users, b.email.s).Some? then RegisterStep(users, Conflict(EmailTaken))
    else if !b.password.Str? then RegisterStep(users, AuthUnhandled)
    else
      var email := Lower(b.email.s);
      var u := User(newId, b.name.s, email, hash(b.password.s));
      RegisterStep(users[email := u], Created(newId, b.name.s, email))
  }

  /**
   * Register answers 400 for an invalid body, 409 for an address any case of
   * which is taken, and otherwise files one new user under the lower-cased
   * address with `hash(password)`; the reply carries the id, name and address
   * only. Every refusal leaves the users as they were.
   */
  lemma RegisterOutcomes(users: map<string, User>, b: RegisterBody, newId: string, hash: string -> string)
    requires RegistryValid(users)
    ensures var s := RegisterHandler(users, b, newId, hash);
            && (!RegisterValid(b) ==> s.reply.AuthInvalid? && s.users == users)
            && (RegisterValid(b) && Lower(b.email.s) in users ==> s == RegisterStep(users, Conflict(EmailTaken)))
            && (!s.reply.Created? ==> s.users == users)
            && (s.reply.Created? <==> RegisterValid(b) && Lower(b.email.s) !in users && b.password.Str?)
            && (s.reply.Created? ==>
                  && s.users == users[Lower(b.email.s) := User(newId, b.name.s, Lower(b.email.s), hash(b.password.s))]
                  && s.reply == Created(newId, b.name.s, Lower(b.email.s)))
  {
  }

  /** A register on a fresh id keeps the collection valid, given a hash that is never empty. */
  lemma RegisterPreservesValid(users: map<string, User>, b: RegisterBody, newId: string, hash: string -> string)
    requires RegistryValid(users) && FreshId(users, newId)
    requires forall p :: hash(p) != []
    ensures RegistryValid(RegisterHandler(users, b, newId, hash).users)
  {
    var s := RegisterHandler(users, b, newId, hash);
    if s.reply.Created? {
      var e := Lower(b.email.s);
      forall e1, e2 | e1 in s.users && e2 in s.users && e1 != e2 ensures s.users[e1].id != s.users[e2].id {
        if e1 != e && e2 != e {
          assert s.users[e1] == users[e1] && s.users[e2] == users[e2];
        }
      }
    }
  }

  /** `POST /api/auth/login`. */
  function Login(users: map<string, User>, b: LoginBody, compare: (string, string) -> bool,
                 sign: Claims -> string): AuthReply
    requires RegistryValid(users)
  {
    var errors := LoginErrors(b);
    if errors != [] then AuthInvalid(errors)
    else match FindByEmail(users, b.email.s)
      case None => Unauthorized(BadCredentials)
      case Some(u) =>
        if !compare(b.password.s, u.passwordHash) then Unauthorized(BadCredentials)
        else TokenIssued(sign(Claims(u.id, u.email, TokenLifetime)))
  }

  /** A token is issued exactly when the address is known and the password matches its hash; the claims name that user. */
  lemma LoginIssuesTokenIff(users: map<string, User>, b: LoginBody, compare: (string, string) -> bool,
                            sign: Claims -> string)
    requires RegistryValid(users)
    ensures var r := Login(users, b, compare, sign);
            && (r.TokenIssued? <==>
                  LoginValid(b) && Lower(b.email.s) in users && compare(b.password.s, users[Lower(b.email.s)].passwordHash))
            && (r.TokenIssued? ==>
                  var u := users[Lower(b.email.s)];
                  r.token == sign(Claims(u.id, Lower(b.email.s), 14400)))
            && (LoginValid(b) && !r.TokenIssued? ==> r == Unauthorized(BadCredentials))
  {
  }

  /** An unknown address and a wrong password get the same answer, so a reply never tells which. */
  lemma LoginFailuresIndistinguishable(users: map<string, User>, unknown: LoginBody, wrong: LoginBody,
                                       compare: (string, string) -> bool, sign: Claims -> string)
    requires RegistryValid(users) && LoginValid(unknown) && LoginValid(wrong)
    requires Lower(unknown.email.s) !in users
    requires Lower(wrong.email.s) in users && !compare(wrong.password.s, users[Lower(wrong.email.s)].passwordHash)
    ensures Login(users, unknown, compare, sign) == Login(users, wrong, compare, sign) == Unauthorized(BadCredentials)
  {
  }

  /**
   * After a successful register, logging in with the same password and the
   * address in any letter case issues a token for the new user, provided the
   * comparison accepts a password against its own hash.
   */
  lemma RegisterThenLogin(users: map<string, User>, b: RegisterBody, newId: string, email: string,
                          hash: string -> string, compare: (string, string) -> bool, sign: Claims -> string)
    requires RegistryValid(users) && FreshId(users, newId)
    requires forall p :: hash(p) != []
    requires forall p :: compare(p, hash(p))
    requires RegisterHandler(users, b, newId, hash).reply.Created?
    requires IsEmail(email) && Lower(email) == Lower(b.email.s)
    ensures var s := RegisterHandler(users, b, newId, hash);
            RegistryValid(s.users) &&
            Login(s.users, LoginBody(Str(email), b.password), compare, sign)
              == TokenIssued(sign(Claims(newId, Lower(b.email.s), TokenLifetime)))
  {
    RegisterPreservesValid(users, b, newId, hash);
    var key := Lower(b.email.s);
    var u := User(newId, b.name.s, key, hash(b.password.s));
    var s := RegisterHandler(users, b, newId, hash);
    assert s.users == users[key := u];
    var lb := LoginBody(Str(email), b.password);
    assert LoginErrors(lb) == [];
    assert FindByEmail(s.users, email) == Some(u);
    assert compare(b.password.s, u.passwordHash);
  }

  /** The registered users, changed in place by the register handler. */
  class UserRegistry {
    var users: map<string, User>

    ghost predicate Valid()
      reads this
    {
      RegistryValid(users)
    }

    constructor ()
      ensures Valid() && users == map[]
    {
      users := map[];
    }

    /** `POST /api/auth/register`; `newId` is the ObjectId the driver assigns. */
    method Register(b: RegisterBody, newId: string, hash: string -> string) returns (reply: AuthReply)
      requires Valid() && FreshId(users, newId) && forall p :: hash(p) != []
      modifies this
      ensures Valid()
      ensures RegisterStep(users, reply) == RegisterHandler(old(users), b, newId, hash)
    {
      RegisterPreservesValid(users, b, newId, hash);
      var errors := RegisterErrors(b);
      if errors != [] {
        return AuthInvalid(errors);
      }
      var existing := FindByEmail(users, b.email.s);
      if existing.Some? {
        return Conflict(EmailTaken);
      }
      if !b.password.Str? {
        return AuthUnhandled;
      }
      var email := Lower(b.email.s);
      users := users[email := User(newId, b.name.s, email, hash(b.password.s))];
      reply := Created(newId, b.name.s, email);
    }
  }
}
