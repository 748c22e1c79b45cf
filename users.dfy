/**
 * The admin user store (`/api/users`) over the `users` table, whose `email`
 * column is UNIQUE and whose `role` defaults to 'user'. Reads are projections
 * that never include `password_hash`.
 */
module Users {
  import opened Tables
  import opened Http

  /** A row of `users`. */
  datatype User = User(email: string, passwordHash: string, firstName: string, lastName: string, role: string)

  /** `SELECT id, email, first_name, last_name, role, created_at`: a user without the password digest. */
  datatype UserView = UserView(id: nat, email: string, firstName: string, lastName: string, role: string, createdAt: nat)

  const DefaultRole: string := "user"

  function View(row: Row<User>): UserView {
    UserView(row.id, row.data.email, row.data.firstName, row.data.lastName, row.data.role, row.createdAt)
  }

  function EmailOf(row: Row<User>): string { row.data.email }

  predicate EmailTaken(rows: seq<Row<User>>, email: string) {
    exists i :: 0 <= i < |rows| && rows[i].data.email == email
  }

  /** Some row other than `id` already holds `email`: writing it to `id` would break the UNIQUE key. */
  predicate EmailHeldByOther(rows: seq<Row<User>>, id: nat, email: string) {
    exists i :: 0 <= i < |rows| && rows[i].id != id && rows[i].data.email == email
  }

  /** `v` is what the projection shows of some row of the table. */
  ghost predicate ShowsARow(rows: seq<Row<User>>, v: UserView) {
    exists j :: 0 <= j < |rows| && v == View(rows[j])
  }

  function Views(s: seq<Row<User>>): (r: seq<UserView>)
    ensures |r| == |s| && forall i :: 0 <= i < |s| ==> r[i] == View(s[i])
  {
    seq(|s|, i requires 0 <= i < |s| => View(s[i]))
  }

  /** The users listing: one view per row, newest first. */
  function Listing(rows: seq<Row<User>>): (r: seq<UserView>)
    ensures |r| == |rows|
    ensures forall i, j :: 0 <= i < j < |r| ==> r[i].createdAt >= r[j].createdAt
    ensures forall i :: 0 <= i < |rows| ==> View(rows[i]) in r
    ensures forall i :: 0 <= i < |r| ==> ShowsARow(rows, r[i])
  {
    var sorted := SortNewestFirst(rows);
    SortedListingHasTheRows(rows);
    var r := Views(sorted);
    forall i, j | 0 <= i < j < |r| ensures r[i].createdAt >= r[j].createdAt {
      assert r[i].createdAt == sorted[i].createdAt && r[j].createdAt == sorted[j].createdAt;
    }
    forall i | 0 <= i < |rows| ensures View(rows[i]) in r {
      var k :| 0 <= k < |sorted| && sorted[k] == rows[i];
      assert r[k] == View(rows[i]);
    }
    forall i | 0 <= i < |r| ensures ShowsARow(rows, r[i]) {
      var j :| 0 <= j < |rows| && rows[j] == sorted[i];
      assert r[i] == View(rows[j]);
    }
    r
  }

  class UserStore {
    var rows: seq<Row<User>>
    var nextId: nat

    ghost predicate Valid()
      reads this
    {
      Identity(rows, nextId) && Distinct(rows, EmailOf)
    }

    constructor ()
      ensures Valid() && rows == [] && nextId == 1
    {
      rows, nextId := [], 1;
    }

    /** `GET /`. */
    function List(): (r: seq<UserView>)
      reads this
      ensures |r| == |rows|
      ensures forall i, j :: 0 <= i < j < |r| ==> r[i].createdAt >= r[j].createdAt
      ensures forall i :: 0 <= i < |rows| ==> View(rows[i]) in r
    {
      Listing(rows)
    }

    /** `GET /:id`. */
    function Get(id: nat): (r: Response<UserView>)
      reads this
      ensures r.Failure? <==> !HasId(rows, id)
      ensures r.Failure? ==> r == Failure(404, "User not found")
      ensures r.Success? ==> r.status == 200 && exists i :: 0 <= i < |rows| && rows[i].id == id && r.value == View(rows[i])
    {
      match FindById(rows, id)
      case None => Failure(404, "User not found")
      case Some(row) => Success(200, View(row))
    }

    /** The one step the create routes share: append a user with the next id. */
    method Insert(user: User, now: nat) returns (id: nat)
      requires Valid() && !EmailTaken(rows, user.email)
      modifies this
      ensures Valid()
      ensures id == old(nextId) && nextId == old(nextId) + 1
      ensures rows == old(rows) + [Row(id, now, now, user)]
    {
      id := nextId;
      AppendKeepsIdentity(rows, nextId, Row(id, now, now, user));
      rows := rows + [Row(id, now, now, user)];
      nextId := nextId + 1;
    }

    /** `POST /`: refuses a taken email; otherwise inserts the user, with role 'user' unless one is given. */
    method Create(email: string, passwordHash: string, firstName: string, lastName: string, role: Option<string>, now: nat)
      returns (resp: Response<Created>)
      requires Valid()
      modifies this
      ensures Valid()
      ensures EmailTaken(old(rows), email) ==>
        resp == Failure(400, "User already exists") && rows == old(rows) && nextId == old(nextId)
      ensures !EmailTaken(old(rows), email) ==>
        && rows == old(rows) + [Row(old(nextId), now, now, User(email, passwordHash, firstName, lastName, OrElse(role, DefaultRole)))]
        && nextId == old(nextId) + 1
        && resp == Success(201, Created("User created", old(nextId)))
    {
      if EmailTaken(rows, email) {
        return Failure(400, "User already exists");
      }
      var id := Insert(User(email, passwordHash, firstName, lastName, OrElse(role, DefaultRole)), now);
      resp := Success(201, Created("User created", id));
    }

    /**
     * `PUT /:id`: rewrites email, names and role of that row only and keeps its digest.
     * When that row exists and another row holds the email, the UNIQUE key is violated:
     * 500 and nothing changes. A missing id matches no row: 200 and nothing changes.
     */
    method Update(id: nat, email: string, firstName: string, lastName: string, role: string, now: nat)
      returns (resp: Response<string>)
      requires Valid()
      modifies this
      ensures Valid() && nextId == old(nextId)
      ensures HasId(old(rows), id) && EmailHeldByOther(old(rows), id, email) ==>
        resp == Failure(500, ServerError) && rows == old(rows)
      ensures !HasId(old(rows), id) ==> resp == Success(200, "User updated") && rows == old(rows)
      ensures !(HasId(old(rows), id) && EmailHeldByOther(old(rows), id, email)) ==>
        && resp == Success(200, "User updated")
        && |rows| == |old(rows)|
        && (forall i :: 0 <= i < |rows| && old(rows)[i].id != id ==> rows[i] == old(rows)[i])
        && (forall i :: 0 <= i < |rows| && old(rows)[i].id == id ==>
              rows[i] == old(rows)[i].(updatedAt := now,
                data := User(email, old(rows)[i].data.passwordHash, firstName, lastName, role)))
    {
      if HasId(rows, id) && EmailHeldByOther(rows, id, email) {
        return Failure(500, ServerError);
      }
      var change := (u: User) => User(email, u.passwordHash, firstName, lastName, role);
      SetDataKeepsIds(rows, id, now, change, nextId);
      var updated := SetData(rows, id, now, change);
      assert !HasId(rows, id) ==> updated == rows;
      assert Distinct(updated, EmailOf) by {
        forall i, j | 0 <= i < j < |updated| ensures EmailOf(updated[i]) != EmailOf(updated[j]) {
          assert EmailOf(rows[i]) != EmailOf(rows[j]);
        }
      }
      rows := updated;
      resp := Success(200, "User updated");
    }

    /** `PUT /:id/password`: replaces that row's digest only. */
    method UpdatePassword(id: nat, passwordHash: string, now: nat) returns (resp: Response<string>)
      requires Valid()
      modifies this
      ensures Valid() && nextId == old(nextId)
      ensures |rows| == |old(rows)|
      ensures forall i :: 0 <= i < |rows| && old(rows)[i].id != id ==> rows[i] == old(rows)[i]
      ensures forall i :: 0 <= i < |rows| && old(rows)[i].id == id ==>
        rows[i] == old(rows)[i].(updatedAt := now, data := old(rows)[i].data.(passwordHash := passwordHash))
      ensures resp == Success(200, "Password updated")
    {
      var change := (u: User) => u.(passwordHash := passwordHash);
      SetDataKeepsIds(rows, id, now, change, nextId);
      rows := SetData(rows, id, now, change);
      resp := Success(200, "Password updated");
    }

    /** `DELETE /:id`. */
    method Delete(id: nat) returns (resp: Response<string>)
      requires Valid()
      modifies this
      ensures Valid() && nextId == old(nextId)
      ensures rows == DeleteById(old(rows), id)
      ensures resp == Success(200, "User deleted")
    {
      DeleteKeepsIdentity(rows, id, nextId);
      DeleteKeepsDistinct(rows, id, EmailOf);
      rows := DeleteById(rows, id);
      resp := Success(200, "User deleted");
    }
  }
}
