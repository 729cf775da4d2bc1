/**
 * The admin API (`adminRouter.js`): token extraction, the two guards every
 * admin route passes through, the login decision order, the statistics, and
 * the user list, lookup, partial update and deletion. The user collection is a
 * sequence in insertion order, so `findOne`/`findById` return the first match;
 * token signing and verification are parameters.
 */
module AdminRouter {
  import opened Strings
  import opened JsValues

  type UserId = string

  datatype User = User(id: UserId, name: Option<string>, email: string, password: string, isAdmin: bool)

  /** A user as the routes send it: every field but the password. */
  datatype PublicUser = PublicUser(id: UserId, name: Option<string>, email: string, isAdmin: bool)

  function Public(u: User): PublicUser {
    PublicUser(u.id, u.name, u.email, u.isAdmin)
  }

  const NoToken := "Access denied. No token provided."
  const BadToken := "Invalid token."
  const NotAdmin := "Access denied. Admin privileges required."
  const ServerError := "Internal server error"
  const BadCredentials := "Invalid credentials"
  const SignFailed := "Error generating token"
  const UserNotFound := "User not found"
  const EmailTaken := "Email already exists"
  const UserDeleted := "User deleted successfully"

  /** Mongo's duplicate-key error code. */
  const DuplicateKey := 11000

  // ---------------------------------------------------------------------------
  // Lookups

  /** Position of the first user with id `id`, or `|users|` when there is none. */
  function IndexOfId(users: seq<User>, id: UserId): (k: nat)
    ensures k <= |users|
    ensures k < |users| ==> users[k].id == id
    ensures forall j :: 0 <= j < k ==> users[j].id != id
    decreases |users|
  {
    if |users| == 0 then 0
    else if users[0].id == id then 0
    else 1 + IndexOfId(users[1..], id)
  }

  /** `findById`: the first user with that id. */
  function FindById(users: seq<User>, id: UserId): (u: Option<User>)
    ensures u.Some? <==> exists j :: 0 <= j < |users| && users[j].id == id
    ensures u.Some? ==> u.value.id == id && u.value in users
  {
    var k := IndexOfId(users, id);
    if k < |users| then Some(users[k]) else None
  }

  /** `findOne({ email })`: the first user with that address. */
  function FindByEmail(users: seq<User>, email: string): (u: Option<User>)
    ensures u.Some? <==> exists j :: 0 <= j < |users| && users[j].email == email
    ensures u.Some? ==> u.value.email == email && u.value in users
    decreases |users|
  {
    if |users| == 0 then None
    else if users[0].email == email then Some(users[0])
    else FindByEmail(users[1..], email)
  }

  // ---------------------------------------------------------------------------
  // verifyToken

  /** `authorization?.split(' ')[1]`: the second space-separated field, if the header has one. */
  function BearerToken(header: Option<string>): (t: Option<string>)
    ensures t.Some? ==> header.Some? && ' ' !in t.value
    ensures header.Some? && |Split(header.value, ' ')| >= 2 ==> t.Some?
  {
    if header.None? then None
    else
      var fields := Split(header.value, ' ');
      SplitPartsAvoidSeparator(header.value, ' ');
      if |fields| >= 2 then Some(fields[1]) else None
  }

  /** "Bearer <token>" gives back the token, whatever the scheme word, as long as neither holds a space. */
  lemma BearerRoundTrip(scheme: string, token: string)
    requires ' ' !in scheme && ' ' !in token
    ensures BearerToken(Some(scheme + " " + token)) == Some(token)
  {
    assert Split(scheme + " " + token, ' ') == [scheme, token] by {
      assert Join([scheme, token], ' ') == scheme + " " + token by {
        assert [scheme, token][1..] == [token];
      }
      SplitJoin([scheme, token], ' ');
    }
  }

  /** A header with no space has no second field. */
  lemma SchemeAloneHasNoToken(header: string)
    requires ' ' !in header
    ensures BearerToken(Some(header)) == None
  {
    SplitCount(header, ' ');
    CountZero(header, ' ');
  }

  /** The claims `jwt.verify` returns for a good token. */
  datatype Claims = Claims(id: UserId, name: Option<string>, email: string)

  /** `jwt.verify` with the server secret: the claims, or `None` where it throws. */
  type Verifier = string -> Option<Claims>

  /** Where a request ends up after a guard: refused with a status and message, or let through. */
  datatype Gate<T> = Refused(status: nat, message: string) | Admitted(value: T)

  /** `verifyToken`: 401 without a token or with one that does not verify. */
  function VerifyToken(header: Option<string>, verify: Verifier): (g: Gate<Claims>)
    ensures !Truthy(BearerToken(header)) ==> g == Refused(401, NoToken)
    ensures Truthy(BearerToken(header)) && verify(BearerToken(header).value).None? ==> g == Refused(401, BadToken)
    ensures g.Admitted? <==> Truthy(BearerToken(header)) && verify(BearerToken(header).value).Some?
    ensures g.Admitted? ==> g.value == verify(BearerToken(header).value).value
  {
    var token := BearerToken(header);
    if !Truthy(token) then Refused(401, NoToken)
    else
      match verify(token.value)
      case None => Refused(401, BadToken)
      case Some(claims) => Admitted(claims)
  }

  /** `verifyAdmin`: a failed lookup is a 500; a missing or non-admin user a 403. */
  function VerifyAdmin(users: seq<User>, claims: Claims, lookupFails: bool): (g: Gate<User>)
    ensures lookupFails ==> g == Refused(500, ServerError)
    ensures g.Admitted? <==> !lookupFails && FindById(users, claims.id).Some? && FindById(users, claims.id).value.isAdmin
    ensures g.Admitted? ==> g.value == FindById(users, claims.id).value
    ensures !lookupFails && !g.Admitted? ==> g == Refused(403, NotAdmin)
  {
    if lookupFails then Refused(500, ServerError)
    else
      match FindById(users, claims.id)
      case None => Refused(403, NotAdmin)
      case Some(u) => if !u.isAdmin then Refused(403, NotAdmin) else Admitted(u)
  }

  /** Both guards, in the order the admin routes list them. */
  function Guard(header: Option<string>, verify: Verifier, users: seq<User>, lookupFails: bool): (g: Gate<User>)
  {
    match VerifyToken(header, verify)
    case Refused(status, message) => Refused(status, message)
    case Admitted(claims) => VerifyAdmin(users, claims, lookupFails)
  }

  /**
   * A request reaches an admin handler only with a verified bearer token whose
   * user exists and is an administrator, and then the handler sees that user.
   */
  lemma GuardAdmitsOnlyAdmins(header: Option<string>, verify: Verifier, users: seq<User>, lookupFails: bool)
    ensures var g := Guard(header, verify, users, lookupFails);
      g.Admitted? <==>
        (Truthy(BearerToken(header)) && verify(BearerToken(header).value).Some?
         && !lookupFails
         && var id := verify(BearerToken(header).value).value.id;
            FindById(users, id).Some? && FindById(users, id).value.isAdmin)
    ensures var g := Guard(header, verify, users, lookupFails);
      g.Admitted? ==> g.value.isAdmin && g.value in users
    ensures !Truthy(BearerToken(header)) ==> Guard(header, verify, users, lookupFails) == Refused(401, NoToken)
  {
  }

  // ---------------------------------------------------------------------------
  // POST /login

  datatype LoginReply =
    | LoginRefused(status: nat, message: string)
    | LoggedIn(token: string, user: PublicUser)

  /**
   * The login route. `sign` is what `jwt.sign` hands its callback: a token, or
   * `None` for an error.
   */
  function Login(users: seq<User>, email: string, password: string, sign: Option<string>): (r: LoginReply)
    ensures FindByEmail(users, email).None? ==> r == LoginRefused(401, BadCredentials)
    ensures FindByEmail(users, email).Some? && FindByEmail(users, email).value.password != password ==>
      r == LoginRefused(401, BadCredentials)
    ensures r.LoggedIn? <==>
      FindByEmail(users, email).Some? && FindByEmail(users, email).value.password == password
      && FindByEmail(users, email).value.isAdmin && sign.Some?
    ensures r.LoggedIn? ==> r.token == sign.value && r.user == Public(FindByEmail(users, email).value)
    ensures (FindByEmail(users, email).Some? && FindByEmail(users, email).value.password == password
             && !FindByEmail(users, email).value.isAdmin) ==> r == LoginRefused(403, NotAdmin)
    ensures (FindByEmail(users, email).Some? && FindByEmail(users, email).value.password == password
             && FindByEmail(users, email).value.isAdmin && sign.None?) ==> r == LoginRefused(500, SignFailed)
  {
    match FindByEmail(users, email)
    case None => LoginRefused(401, BadCredentials)
    case Some(u) =>
      if u.password != password then LoginRefused(401, BadCredentials)
      else if !u.isAdmin then LoginRefused(403, NotAdmin)
      else
        match sign
        case None => LoginRefused(500, SignFailed)
        case Some(token) => LoggedIn(token, Public(u))
  }

  /**
   * A caller cannot tell an unknown address from a wrong password, and only a
   * correct password reveals whether the account is an administrator.
   */
  lemma LoginHidesAccounts(users: seq<User>, email: string, password: string, sign: Option<string>)
    ensures var r := Login(users, email, password, sign);
      r.LoginRefused? && r.status == 401 <==>
        FindByEmail(users, email).None? || FindByEmail(users, email).value.password != password
    ensures var r := Login(users, email, password, sign);
      r == LoginRefused(403, NotAdmin) <==>
        FindByEmail(users, email).Some? && FindByEmail(users, email).value.password == password
        && !FindByEmail(users, email).value.isAdmin
  {
  }

  // ---------------------------------------------------------------------------
  // GET /stats

  /** `countDocuments({ isAdmin: true })`. */
  function AdminCount(users: seq<User>): (n: nat)
    ensures n <= |users|
    decreases |users|
  {
    if |users| == 0 then 0 else (if users[0].isAdmin then 1 else 0) + AdminCount(users[1..])
  }

  /** The users that are not administrators, counted one by one. */
  function RegularCount(users: seq<User>): nat
    decreases |users|
  {
    if |users| == 0 then 0 else (if users[0].isAdmin then 0 else 1) + RegularCount(users[1..])
  }

  datatype Stats = Stats(totalUsers: nat, adminUsers: nat, regularUsers: int)

  function GetStats(users: seq<User>): (s: Stats)
    ensures s.totalUsers == |users| && s.adminUsers == AdminCount(users)
  {
    Stats(|users|, AdminCount(users), |users| - AdminCount(users))
  }

  /** The subtraction counts exactly the non-administrators, so it is never negative. */
  lemma {:induction false} RegularUsersCounted(users: seq<User>)
    ensures GetStats(users).regularUsers == RegularCount(users)
    ensures GetStats(users).regularUsers >= 0
    decreases |users|
  {
    if |users| > 0 {
      RegularUsersCounted(users[1..]);
    }
  }

  // ---------------------------------------------------------------------------
  // GET /users and GET /users/:id

  /** `find({}, { password: 0 })`. */
  function ListUsers(users: seq<User>): (r: seq<PublicUser>)
    ensures |r| == |users|
    ensures forall i :: 0 <= i < |r| ==> r[i] == Public(users[i])
    decreases |users|
  {
    if |users| == 0 then [] else [Public(users[0])] + ListUsers(users[1..])
  }

  /** A route's reply: a status with a message, or a user without the password. */
  datatype UserReply = Message(status: nat, message: string) | Found(user: PublicUser)

  function GetUser(users: seq<User>, id: UserId, lookupFails: bool): (r: UserReply)
    ensures lookupFails ==> r == Message(500, ServerError)
    ensures !lookupFails && FindById(users, id).None? ==> r == Message(404, UserNotFound)
    ensures r.Found? <==> !lookupFails && FindById(users, id).Some?
    ensures r.Found? ==> r.user == Public(FindById(users, id).value)
  {
    if lookupFails then Message(500, ServerError)
    else
      match FindById(users, id)
      case None => Message(404, UserNotFound)
      case Some(u) => Found(Public(u))
  }

  // ---------------------------------------------------------------------------
  // PUT /users/:id

  /** The request body; `None` is a property the client did not send. */
  datatype Body = Body(name: Option<string>, email: Option<string>, isAdmin: Option<bool>)

  datatype FieldValue = Text(text: string) | Flag(flag: bool)

  /** `updateData`: exactly the defined fields among name, email and isAdmin. */
  function UpdateData(body: Body): (u: map<string, FieldValue>)
    ensures "name" in u <==> body.name.Some?
    ensures "email" in u <==> body.email.Some?
    ensures "isAdmin" in u <==> body.isAdmin.Some?
    ensures u.Keys <= {"name", "email", "isAdmin"}
    ensures "name" in u ==> u["name"] == Text(body.name.value)
    ensures "email" in u ==> u["email"] == Text(body.email.value)
    ensures "isAdmin" in u ==> u["isAdmin"] == Flag(body.isAdmin.value)
  {
    var withName: map<string, FieldValue> := if body.name.Some? then map["name" := Text(body.name.value)] else map[];
    var withEmail := if body.email.Some? then withName["email" := Text(body.email.value)] else withName;
    if body.isAdmin.Some? then withEmail["isAdmin" := Flag(body.isAdmin.value)] else withEmail
  }

  /** The user after `$set` of the update: the listed fields change, the id and password never do. */
  function Apply(u: User, update: map<string, FieldValue>): (v: User)
    ensures v.id == u.id && v.password == u.password
    ensures v.name == (if "name" in update && update["name"].Text? then Some(update["name"].text) else u.name)
    ensures v.email == (if "email" in update && update["email"].Text? then update["email"].text else u.email)
    ensures v.isAdmin == (if "isAdmin" in update && update["isAdmin"].Flag? then update["isAdmin"].flag else u.isAdmin)
  {
    var name := if "name" in update && update["name"].Text? then Some(update["name"].text) else u.name;
    var email := if "email" in update && update["email"].Text? then update["email"].text else u.email;
    var isAdmin := if "isAdmin" in update && update["isAdmin"].Flag? then update["isAdmin"].flag else u.isAdmin;
    User(u.id, name, email, password := u.password, isAdmin := isAdmin)
  }

  /** No two users share an address: the unique index on `email`. */
  predicate UniqueEmails(users: seq<User>) {
    forall i, j :: 0 <= i < j < |users| ==> users[i].email != users[j].email
  }

  /** Some user other than the one at position `k` already has address `email`. */
  predicate EmailHeldByOther(users: seq<User>, k: nat, email: string) {
    exists j :: 0 <= j < |users| && j != k && users[j].email == email
  }

  /**
   * `findByIdAndUpdate`: a missing id updates nothing; a new address that
   * another user holds breaks the unique index (code 11000); `fault` is any
   * other failure of the call.
   */
  function UpdateUser(users: seq<User>, id: UserId, body: Body, fault: bool): (r: (UserReply, seq<User>))
    ensures fault ==> r == (Message(500, ServerError), users)
    ensures !fault && FindById(users, id).None? ==> r == (Message(404, UserNotFound), users)
    ensures r.0.Found? <==>
      !fault && FindById(users, id).Some?
      && !(body.email.Some? && EmailHeldByOther(users, IndexOfId(users, id), body.email.value))
    ensures !r.0.Found? ==> r.1 == users
    ensures r.0.Found? ==>
      var k := IndexOfId(users, id);
      r.1 == users[k := Apply(users[k], UpdateData(body))] && r.0.user == Public(r.1[k])
  {
    var k := IndexOfId(users, id);
    if fault then (Message(500, ServerError), users)
    else if k == |users| then (Message(404, UserNotFound), users)
    else if body.email.Some? && EmailHeldByOther(users, k, body.email.value) then
      (UpdateFailure(DuplicateKey), users)
    else
      var v := Apply(users[k], UpdateData(body));
      (Found(Public(v)), users[k := v])
  }

  /** The catch of the update route: the duplicate-key code is a 400, anything else a 500. */
  function UpdateFailure(code: int): (r: UserReply)
    ensures code == DuplicateKey <==> r == Message(400, EmailTaken)
    ensures code != DuplicateKey <==> r == Message(500, ServerError)
  {
    if code == DuplicateKey then Message(400, EmailTaken) else Message(500, ServerError)
  }

  /**
   * An update touches only the user it names, and of that user only the
   * fields the body defines; the password is never changed.
   */
  lemma UpdateTouchesOnlyBodyFields(users: seq<User>, id: UserId, body: Body, fault: bool)
    ensures var (reply, after) := UpdateUser(users, id, body, fault);
      |after| == |users|
      && (forall j :: 0 <= j < |users| && users[j].id != id ==> after[j] == users[j])
      && (forall j :: 0 <= j < |users| ==> after[j].password == users[j].password && after[j].id == users[j].id)
      && (forall j :: 0 <= j < |users| && body.name.None? ==> after[j].name == users[j].name)
      && (forall j :: 0 <= j < |users| && body.email.None? ==> after[j].email == users[j].email)
      && (forall j :: 0 <= j < |users| && body.isAdmin.None? ==> after[j].isAdmin == users[j].isAdmin)
  {
  }

  /** An update never gives two different users the same new address. */
  lemma UpdateKeepsNewEmailUnique(users: seq<User>, id: UserId, body: Body, fault: bool)
    requires body.email.Some?
    ensures var (reply, after) := UpdateUser(users, id, body, fault);
      reply.Found? ==>
        forall j :: 0 <= j < |after| && j != IndexOfId(users, id) ==> after[j].email != body.email.value
  {
  }

  // ---------------------------------------------------------------------------
  // DELETE /users/:id

  /** `findByIdAndDelete`: the first user with the id is removed. */
  function DeleteUser(users: seq<User>, id: UserId, fault: bool): (r: (UserReply, seq<User>))
    ensures fault ==> r == (Message(500, ServerError), users)
    ensures !fault && FindById(users, id).None? ==> r == (Message(404, UserNotFound), users)
    ensures !fault && FindById(users, id).Some? ==>
      var k := IndexOfId(users, id);
      r == (Message(200, UserDeleted), users[..k] + users[k + 1..])
  {
    var k := IndexOfId(users, id);
    if fault then (Message(500, ServerError), users)
    else if k == |users| then (Message(404, UserNotFound), users)
    else (Message(200, UserDeleted), users[..k] + users[k + 1..])
  }

  /** A deletion removes exactly one user, and the first with that id, keeping the others in order. */
  lemma DeleteRemovesOne(users: seq<User>, id: UserId)
    requires FindById(users, id).Some?
    ensures var after := DeleteUser(users, id, false).1;
      |after| == |users| - 1
      && multiset(after) + multiset{FindById(users, id).value} == multiset(users)
  {
    var k := IndexOfId(users, id);
    assert users == users[..k] + [users[k]] + users[k + 1..];
  }
}
