/** The account routes over the user table: registration, login, and reading
    and updating one's own profile. Passwords are stored hashed, replies never
    carry the hash, and no two users share an email address. */
module AuthRoutes {
  import opened Common
  import AuthMiddleware

  const UserExistsMessage: string := "Cet utilisateur existe déjà"
  const InvalidCredentialsMessage: string := "Identifiants invalides"
  const UserNotFoundMessage: string := "Utilisateur non trouvé"
  const EmailInUseMessage: string := "Cet email est déjà utilisé"
  const ServerErrorMessage: string := "Erreur serveur"

  /** `bcrypt.hash(plain, salt)`, taken as an ideal hash: two hashes are
      equal only when made from the same password and salt. */
  datatype PasswordHash = Bcrypt(plain: string, salt: nat)

  /** `bcrypt.compare(candidate, hash)`. */
  predicate Compare(candidate: string, hash: PasswordHash) {
    candidate == hash.plain
  }

  /** A stored user. */
  datatype User = User(id: UserId, nom: string, prenom: string, email: string, password: PasswordHash)

  /** A user as the routes send it back: every field but the password. */
  datatype UserView = UserView(id: UserId, nom: string, prenom: string, email: string)

  function View(u: User): UserView {
    UserView(u.id, u.nom, u.prenom, u.email)
  }

  /** What is sent back does not depend on the stored password. */
  lemma ViewIgnoresPassword(u: User, p: PasswordHash)
    ensures View(u.(password := p)) == View(u)
  {
  }

  /** Two users look alike from outside exactly when they differ at most in
      their password. */
  lemma ViewSameIffOnlyPasswordDiffers(u: User, w: User)
    ensures View(u) == View(w) <==> u.(password := w.password) == w
  {
  }

  /** The token payload `{ user: { id } }`. */
  function Claims(id: UserId): AuthMiddleware.Payload {
    AuthMiddleware.Payload(Some(AuthMiddleware.PayloadUser(Some(id))))
  }

  /** `jwt.sign(payload, secret, { expiresIn: '24h' })` at a given time: the
      token also carries the issue and expiry times, so two signatures of
      the same payload at different times may differ. */
  type Signer = (AuthMiddleware.Payload, nat) -> string

  datatype AuthReply =
    | Issued(token: string, user: UserView)
    | Profile(user: UserView)
    | BadRequest(message: string)
    | NotFound(message: string)
    | ServerError(message: string)
  {
    function Code(): nat {
      match this
      case Issued(_, _) => 200
      case Profile(_) => 200
      case BadRequest(_) => 400
      case NotFound(_) => 404
      case ServerError(_) => 500
    }
  }

  /** The profile update's merge (`field = new || old`): each of the name,
      first name and email takes the new value when it is non-empty, and the
      password is rehashed only when a non-empty one is given. */
  function Merge(u: User, nom: string, prenom: string, email: string, password: string, salt: nat): (m: User)
    ensures m.id == u.id
    ensures (nom != "" ==> m.nom == nom) && (nom == "" ==> m.nom == u.nom)
    ensures (prenom != "" ==> m.prenom == prenom) && (prenom == "" ==> m.prenom == u.prenom)
    ensures (email != "" ==> m.email == email) && (email == "" ==> m.email == u.email)
    ensures password != "" ==> Compare(password, m.password) && m.password.salt == salt
    ensures password == "" ==> m.password == u.password
  {
    u.(nom := Or(nom, u.nom),
       prenom := Or(prenom, u.prenom),
       email := Or(email, u.email),
       password := if Truthy(password) then Bcrypt(password, salt) else u.password)
  }

  /** An update with every field empty changes nothing, and repeating an
      update without a password changes nothing more. */
  lemma MergeIdempotent(u: User, nom: string, prenom: string, email: string, salt: nat)
    ensures Merge(u, "", "", "", "", salt) == u
    ensures Merge(Merge(u, nom, prenom, email, "", salt), nom, prenom, email, "", salt)
         == Merge(u, nom, prenom, email, "", salt)
  {
  }

  /** No two users share an email, and ids are distinct and below `next`. */
  ghost predicate WellFormed(users: seq<User>, next: UserId) {
    && (forall i, j :: 0 <= i < j < |users| ==> users[i].email != users[j].email)
    && (forall i, j :: 0 <= i < j < |users| ==> users[i].id != users[j].id)
    && (forall i :: 0 <= i < |users| ==> users[i].id < next)
  }

  predicate HasEmail(users: seq<User>, email: string) {
    exists i :: 0 <= i < |users| && users[i].email == email
  }

  predicate HasId(users: seq<User>, id: UserId) {
    exists i :: 0 <= i < |users| && users[i].id == id
  }

  /** Signing a payload at any time and verifying it again, with a signer
      that never yields an empty token and a verifier that accepts what was
      signed (expiry is not modelled). */
  ghost predicate IdealJwt(sign: Signer, verify: AuthMiddleware.Verifier) {
    forall p, now :: sign(p, now) != "" && verify(sign(p, now)) == Some(p)
  }

  /** A token issued for a user, sent back as `Bearer <token>`, passes the
      gate as that user: the payload has the shape the gate asks for. */
  lemma IssuedTokenAccepted(sign: Signer, verify: AuthMiddleware.Verifier, id: UserId, now: nat)
    requires IdealJwt(sign, verify)
    ensures AuthMiddleware.Gate(Some(AuthMiddleware.BearerPrefix + sign(Claims(id), now)), verify)
         == AuthMiddleware.Next(AuthMiddleware.AuthUser(id))
  {
    AuthMiddleware.TokenRoundTrip(sign(Claims(id), now));
  }

  /** The User collection. */
  class UserTable {
    var users: seq<User>
    var nextId: UserId

    ghost predicate Valid()
      reads this
    {
      WellFormed(users, nextId)
    }

    constructor ()
      ensures Valid() && users == []
    {
      users := [];
      nextId := 0;
    }

    /** `User.findOne({ email })`: the position of the user with this email. */
    method FindByEmail(email: string) returns (found: Option<nat>)
      requires Valid()
      ensures found.Some? ==> found.value < |users| && users[found.value].email == email
      ensures found.None? <==> !HasEmail(users, email)
    {
      var i := 0;
      while i < |users|
        invariant 0 <= i <= |users|
        invariant forall j :: 0 <= j < i ==> users[j].email != email
      {
        if users[i].email == email {
          return Some(i);
        }
        i := i + 1;
      }
      return None;
    }

    /** `User.findById(id)`: the position of the user with this id. */
    method FindById(id: UserId) returns (found: Option<nat>)
      requires Valid()
      ensures found.Some? ==> found.value < |users| && users[found.value].id == id
      ensures found.None? <==> !HasId(users, id)
    {
      var i := 0;
      while i < |users|
        invariant 0 <= i <= |users|
        invariant forall j :: 0 <= j < i ==> users[j].id != id
      {
        if users[i].id == id {
          return Some(i);
        }
        i := i + 1;
      }
      return None;
    }

    /** POST /register. A taken email is a 400 with the table unchanged.
        Otherwise one user is added holding the hashed password, and the
        reply carries a token for `{ user: { id } }` signed at `now` and the
        user without the password. A failing save is a 500 and adds nothing. */
    method Register(nom: string, prenom: string, email: string, password: string,
                    salt: nat, sign: Signer, now: nat, saveOk: bool) returns (reply: AuthReply)
      requires Valid()
      modifies this
      ensures Valid()
      ensures reply.Code() == 400 <==> HasEmail(old(users), email)
      ensures reply.Code() == 200 <==> !HasEmail(old(users), email) && saveOk
      ensures HasEmail(old(users), email) ==>
        reply == BadRequest(UserExistsMessage) && users == old(users)
      ensures !HasEmail(old(users), email) && !saveOk ==>
        reply == ServerError(ServerErrorMessage) && users == old(users)
      ensures !HasEmail(old(users), email) && saveOk ==>
        var u := User(old(nextId), nom, prenom, email, Bcrypt(password, salt));
        && users == old(users) + [u]
        && reply == Issued(sign(Claims(u.id), now), View(u))
    {
      var existing := FindByEmail(email);
      if existing.Some? {
        return BadRequest(UserExistsMessage);
      }
      var user := User(nextId, nom, prenom, email, Bcrypt(password, salt));
      if !saveOk {
        return ServerError(ServerErrorMessage);
      }
      users := users + [user];
      nextId := nextId + 1;
      reply := Issued(sign(Claims(user.id), now), UserView(user.id, nom, prenom, email));
    }

    /** POST /login. An unknown email and a wrong password get the very same
        400; otherwise a token for that user and the user without the
        password, with the token signed at `now`. */
    method Login(email: string, password: string, sign: Signer, now: nat) returns (reply: AuthReply)
      requires Valid()
      ensures reply.Issued? || reply == BadRequest(InvalidCredentialsMessage)
      ensures reply.Code() == 200 <==>
        exists i :: 0 <= i < |users| && users[i].email == email && Compare(password, users[i].password)
      ensures forall i :: 0 <= i < |users| && users[i].email == email && Compare(password, users[i].password) ==>
        reply == Issued(sign(Claims(users[i].id), now), View(users[i]))
    {
      var found := FindByEmail(email);
      if found.None? {
        return BadRequest(InvalidCredentialsMessage);
      }
      var user := users[found.value];
      if !Compare(password, user.password) {
        return BadRequest(InvalidCredentialsMessage);
      }
      reply := Issued(sign(Claims(user.id), now), View(user));
    }

    /** GET /profile for the authenticated user: the user without the
        password, or a 404 when the id is not in the table. */
    method GetProfile(userId: UserId) returns (reply: AuthReply)
      requires Valid()
      ensures reply.Profile? || reply == NotFound(UserNotFoundMessage)
      ensures reply.Code() == 404 <==> !HasId(users, userId)
      ensures forall i :: 0 <= i < |users| && users[i].id == userId ==> reply == Profile(View(users[i]))
    {
      var found := FindById(userId);
      if found.None? {
        return NotFound(UserNotFoundMessage);
      }
      reply := Profile(View(users[found.value]));
    }

    /** PUT /profile for the authenticated user. An unknown id is a 404; an
        email that differs from the user's own and belongs to someone else is
        a 400; in both cases, and when the save fails, nothing changes.
        Otherwise that one user is replaced by the merge and sent back
        without the password. */
    method UpdateProfile(userId: UserId, nom: string, prenom: string, email: string, password: string,
                         salt: nat, saveOk: bool) returns (reply: AuthReply)
      requires Valid()
      modifies this
      ensures Valid()
      ensures !HasId(old(users), userId) ==>
        reply == NotFound(UserNotFoundMessage) && users == old(users)
      ensures forall i :: 0 <= i < |old(users)| && old(users)[i].id == userId ==>
        if email != old(users)[i].email && HasEmail(old(users), email) then
          reply == BadRequest(EmailInUseMessage) && users == old(users)
        else if !saveOk then
          reply == ServerError(ServerErrorMessage) && users == old(users)
        else
          var m := Merge(old(users)[i], nom, prenom, email, password, salt);
          users == old(users)[i := m] && reply == Profile(View(m))
    {
      var found := FindById(userId);
      if found.None? {
        return NotFound(UserNotFoundMessage);
      }
      var i := found.value;
      var user := users[i];
      if email != user.email {
        var existing := FindByEmail(email);
        if existing.Some? {
          return BadRequest(EmailInUseMessage);
        }
      }
      user := user.(nom := Or(nom, user.nom), prenom := Or(prenom, user.prenom), email := Or(email, user.email));
      if Truthy(password) {
        user := user.(password := Bcrypt(password, salt));
      }
      if !saveOk {
        return ServerError(ServerErrorMessage);
      }
      UpdateKeepsWellFormed(users, nextId, i, user);
      users := users[i := user];
      reply := Profile(View(users[i]));
    }
  }

  /** Writing back a user whose id is kept and whose email is its own or
      nobody's keeps the table well formed. */
  lemma UpdateKeepsWellFormed(users: seq<User>, next: UserId, i: nat, u: User)
    requires WellFormed(users, next) && i < |users|
    requires u.id == users[i].id
    requires u.email == users[i].email || !HasEmail(users, u.email)
    ensures WellFormed(users[i := u], next)
  {
    var t := users[i := u];
    forall a, b | 0 <= a < b < |t| ensures t[a].email != t[b].email {
      if a == i {
        assert t[b] == users[b];
      } else if b == i {
        assert t[a] == users[a];
      }
    }
  }

  /** Registering at `registeredAt` and then logging in at `loggedInAt` with
      the same email and password: both succeed, both send back the same
      user, and both tokens are signed over the new user's id (the tokens
      themselves differ when the times do). */
  method RegisterThenLogin(table: UserTable, nom: string, prenom: string, email: string,
                           password: string, salt: nat, sign: Signer, registeredAt: nat, loggedInAt: nat)
    returns (registered: AuthReply, loggedIn: AuthReply)
    requires table.Valid() && !HasEmail(table.users, email)
    modifies table
    ensures table.Valid()
    ensures registered.Issued? && loggedIn.Issued? && loggedIn.user == registered.user
    ensures registered.token == sign(Claims(old(table.nextId)), registeredAt)
    ensures loggedIn.token == sign(Claims(old(table.nextId)), loggedInAt)
  {
    registered := table.Register(nom, prenom, email, password, salt, sign, registeredAt, true);
    var last := |table.users| - 1;
    assert table.users[last].email == email && Compare(password, table.users[last].password);
    loggedIn := table.Login(email, password, sign, loggedInAt);
  }
}
