/**
 * Authentication (`/api/auth`): login against the `users` table, self
 * registration, the `verifyToken` middleware that takes the token out of the
 * Authorization header, and `/me`.
 *
 * The password hasher and JSON Web Token signing and checking (RFC 7519) are
 * libraries: `compare`, `sign` and `verify` are parameters, and a digest is an
 * argument.
 */
module Auth {
  import opened Tables
  import opened Http
  import opened Users

  /** `expiresIn: '24h'`, in the seconds JWT claims count. */
  const TokenLifetime: nat := 86400

  /** What `jwt.sign` is given, with the `iat` and `exp` claims it adds (seconds since the epoch). */
  datatype Claims = Claims(id: nat, email: string, role: string, iat: nat, exp: nat)

  /** The `user` object of a login, and the `/me` body: a user without digest or timestamps. */
  datatype Profile = Profile(id: nat, email: string, firstName: string, lastName: string, role: string)

  datatype Session = Session(token: string, user: Profile)

  function ProfileOf(row: Row<User>): Profile {
    Profile(row.id, row.data.email, row.data.firstName, row.data.lastName, row.data.role)
  }

  /** The claims of a token issued at `now` (milliseconds) for a user: id, email and role, valid for 24 hours. */
  function ClaimsFor(row: Row<User>, now: nat): (c: Claims)
    ensures c.id == row.id && c.email == row.data.email && c.role == row.data.role
    ensures c.iat * 1000 <= now < (c.iat + 1) * 1000
    ensures c.exp == c.iat + TokenLifetime
  {
    Claims(row.id, row.data.email, row.data.role, now / 1000, now / 1000 + TokenLifetime)
  }

  /** `SELECT * FROM users WHERE email = $1`, first row. */
  function FindByEmail(rows: seq<Row<User>>, email: string): (r: Option<Row<User>>)
    ensures r.None? <==> !EmailTaken(rows, email)
    ensures r.Some? ==> r.value in rows && r.value.data.email == email
  {
    if |rows| == 0 then None
    else if rows[0].data.email == email then Some(rows[0])
    else
      assert forall i :: 1 <= i < |rows| ==> rows[i] == rows[1..][i - 1];
      FindByEmail(rows[1..], email)
  }

  /** Under the UNIQUE key on `email`, the row found is the only row with that email. */
  lemma {:induction false} FindByEmailIsTheRow(rows: seq<Row<User>>, k: nat)
    requires Distinct(rows, EmailOf) && k < |rows|
    ensures FindByEmail(rows, rows[k].data.email) == Some(rows[k])
  {
    if k > 0 {
      assert EmailOf(rows[0]) != EmailOf(rows[k]);
      DistinctTail(rows, EmailOf);
      FindByEmailIsTheRow(rows[1..], k - 1);
    }
  }

  predicate Authenticates(row: Row<User>, email: string, password: string, compare: (string, string) -> bool) {
    row.data.email == email && compare(password, row.data.passwordHash)
  }

  /**
   * `POST /login`: succeeds iff the user with that email exists and the password matches its
   * digest; the token carries {id, email, role} for 24 hours and the reply shows no digest.
   * An unknown email and a wrong password get the very same 401.
   */
  function Login(rows: seq<Row<User>>, email: string, password: string,
                 compare: (string, string) -> bool, sign: Claims -> string, now: nat): (r: Response<Session>)
    requires Distinct(rows, EmailOf)
    ensures r.Failure? ==> r == Failure(401, "Invalid credentials")
    ensures r.Success? <==> exists i :: 0 <= i < |rows| && Authenticates(rows[i], email, password, compare)
    ensures forall i :: 0 <= i < |rows| && Authenticates(rows[i], email, password, compare) ==>
      r == Success(200, Session(sign(ClaimsFor(rows[i], now)), ProfileOf(rows[i])))
  {
    match FindByEmail(rows, email)
    case None => Failure(401, "Invalid credentials")
    case Some(user) =>
      if !compare(password, user.data.passwordHash) then Failure(401, "Invalid credentials")
      else
        assert forall i :: 0 <= i < |rows| && rows[i].data.email == email ==> rows[i] == user by {
          forall i | 0 <= i < |rows| && rows[i].data.email == email ensures rows[i] == user {
            FindByEmailIsTheRow(rows, i);
          }
        }
        Success(200, Session(sign(ClaimsFor(user, now)), ProfileOf(user)))
  }

  /**
   * `POST /register`: refuses a taken email; otherwise inserts one user without a role, so the
   * column default 'user' applies, and returns the new id.
   */
  method Register(store: UserStore, email: string, passwordHash: string, firstName: string, lastName: string, now: nat)
    returns (resp: Response<Created>)
    requires store.Valid()
    modifies store
    ensures store.Valid()
    ensures EmailTaken(old(store.rows), email) ==>
      resp == Failure(400, "User already exists") && store.rows == old(store.rows) && store.nextId == old(store.nextId)
    ensures !EmailTaken(old(store.rows), email) ==>
      && store.rows == old(store.rows) + [Row(old(store.nextId), now, now, User(email, passwordHash, firstName, lastName, DefaultRole))]
      && store.nextId == old(store.nextId) + 1
      && resp == Success(201, Created("User registered successfully", old(store.nextId)))
  {
    if EmailTaken(store.rows, email) {
      return Failure(400, "User already exists");
    }
    var id := store.Insert(User(email, passwordHash, firstName, lastName, DefaultRole), now);
    resp := Success(201, Created("User registered successfully", id));
  }

  // ---------------------------------------------------------------- the Authorization header

  function FirstSpace(s: string): (k: nat)
    requires ' ' in s
    ensures k < |s| && s[k] == ' ' && ' ' !in s[..k]
  {
    if s[0] == ' ' then 0
    else
      var k := FirstSpace(s[1..]);
      assert s[1..][..k] == s[1..k + 1] && s[..k + 1] == [s[0]] + s[1..k + 1];
      k + 1
  }

  /** `s.split(' ')`: the pieces between single spaces, empty pieces included. */
  function Split(s: string): (r: seq<string>)
    ensures |r| >= 1
    ensures forall i :: 0 <= i < |r| ==> ' ' !in r[i]
    decreases |s|
  {
    if ' ' !in s then [s]
    else
      var k := FirstSpace(s);
      [s[..k]] + Split(s[k + 1..])
  }

  /** `fields.join(' ')`. */
  function Join(fields: seq<string>): string
    requires |fields| >= 1
  {
    if |fields| == 1 then fields[0] else fields[0] + " " + Join(fields[1..])
  }

  /** Joining the pieces gives the header back. */
  lemma {:induction false} JoinSplit(s: string)
    ensures Join(Split(s)) == s
    decreases |s|
  {
    if ' ' in s {
      var k := FirstSpace(s);
      JoinSplit(s[k + 1..]);
      assert Split(s) == [s[..k]] + Split(s[k + 1..]);
      assert s == s[..k] + " " + s[k + 1..];
    }
  }

  /** Splitting space-free pieces joined by single spaces gives the pieces back. */
  lemma {:induction false} SplitJoin(fields: seq<string>)
    requires |fields| >= 1 && forall i :: 0 <= i < |fields| ==> ' ' !in fields[i]
    ensures Split(Join(fields)) == fields
  {
    if |fields| > 1 {
      var s := Join(fields);
      var f := fields[0];
      var rest := Join(fields[1..]);
      assert s == f + " " + rest;
      assert s[|f|] == ' ' && s[..|f|] == f;
      var k := FirstSpace(s);
      assert ' ' !in s[..|f|];
      assert k == |f|;
      assert s[k + 1..] == rest;
      SplitJoin(fields[1..]);
    }
  }

  /**
   * `req.headers.authorization?.split(' ')[1]` followed by `if (!token)`: the second
   * space-separated field of the header, absent when the header is missing or that field
   * is missing or empty. The first field is never looked at.
   */
  function BearerToken(header: Option<string>): (r: Option<string>)
    ensures r.Some? <==> header.Some? && |Split(header.value)| >= 2 && Split(header.value)[1] != ""
    ensures r.Some? ==> r.value == Split(header.value)[1] && ' ' !in r.value
  {
    match header
    case None => None
    case Some(h) =>
      var fields := Split(h);
      if |fields| >= 2 && fields[1] != "" then Some(fields[1]) else None
  }

  /** Any first word (the RFC 6750 scheme `Bearer` or not) followed by a space and a token yields that token. */
  lemma TokenAfterAnyScheme(scheme: string, token: string)
    requires ' ' !in scheme && ' ' !in token && token != ""
    ensures BearerToken(Some(scheme + " " + token)) == Some(token)
  {
    SplitJoin([scheme, token]);
    assert Join([scheme, token]) == scheme + " " + token;
  }

  /** Splitting at a first field without spaces yields that field, then the pieces of the rest. */
  lemma SplitAfterField(f: string, rest: string)
    requires ' ' !in f
    ensures Split(f + " " + rest) == [f] + Split(rest)
  {
    var s := f + " " + rest;
    assert s[|f|] == ' ' && s[..|f|] == f;
    var k := FirstSpace(s);
    assert ' ' !in s[..|f|];
    assert k == |f|;
    assert s[k + 1..] == rest;
  }

  /** Fields after the token are ignored: `Bearer abc def` yields `abc`. */
  lemma TokenIgnoresLaterFields(scheme: string, token: string, rest: string)
    requires ' ' !in scheme && ' ' !in token && token != ""
    ensures BearerToken(Some(scheme + " " + token + " " + rest)) == Some(token)
  {
    SplitAfterField(token, rest);
    assert scheme + " " + token + " " + rest == scheme + " " + (token + " " + rest);
    SplitAfterField(scheme, token + " " + rest);
  }

  /** A header without a space carries no token. */
  lemma NoSpaceNoToken(h: string)
    requires ' ' !in h
    ensures BearerToken(Some(h)) == None
  {
  }

  /**
   * `verifyToken` then `GET /me`: 401 "No token provided" without a token, 401 "Invalid token"
   * when verification fails, 404 when the token's user id is no longer in the table, and
   * otherwise that user's profile.
   */
  function Me(rows: seq<Row<User>>, header: Option<string>, verify: string -> Option<Claims>): (r: Response<Profile>)
    ensures r == Failure(401, "No token provided") <==> BearerToken(header).None?
    ensures r == Failure(401, "Invalid token") <==>
      BearerToken(header).Some? && verify(BearerToken(header).value).None?
    ensures r == Failure(404, "User not found") <==>
      BearerToken(header).Some? && verify(BearerToken(header).value).Some?
      && !HasId(rows, verify(BearerToken(header).value).value.id)
    ensures r.Success? <==>
      BearerToken(header).Some? && verify(BearerToken(header).value).Some?
      && HasId(rows, verify(BearerToken(header).value).value.id)
    ensures r.Success? ==>
      && r.status == 200
      && BearerToken(header).Some? && verify(BearerToken(header).value).Some?
      && (exists i :: 0 <= i < |rows| && rows[i].id == verify(BearerToken(header).value).value.id
                      && r.value == ProfileOf(rows[i]))
  {
    match BearerToken(header)
    case None => Failure(401, "No token provided")
    case Some(token) =>
      match verify(token)
      case None => Failure(401, "Invalid token")
      case Some(claims) =>
        match FindById(rows, claims.id)
        case None => Failure(404, "User not found")
        case Some(row) => Success(200, ProfileOf(row))
  }
}
