/**
 * Relational tables as in-memory sequences of rows.
 *
 * Every table of the backend has an identity column `id` (assigned from a
 * counter that is never reused), a `created_at` stamp and, except for the OTP
 * log, an `updated_at` stamp. The route handlers only ever run four kinds of
 * statement over them: a lookup by id, an `UPDATE ... WHERE id = $n`, a
 * `DELETE ... WHERE id = $n` and a listing `ORDER BY created_at DESC`; this
 * module defines each of them once, over any row payload.
 */
module Tables {

  datatype Option<T> = None | Some(value: T)

  /** One stored row: identity, creation and last-update stamps (milliseconds), and the columns. */
  datatype Row<R> = Row(id: nat, createdAt: nat, updatedAt: nat, data: R)

  /** No two rows agree on `key`: what a UNIQUE constraint on that column promises. */
  ghost predicate Distinct<R, K>(rows: seq<Row<R>>, key: Row<R> -> K) {
    forall i, j :: 0 <= i < j < |rows| ==> key(rows[i]) != key(rows[j])
  }

  function IdOf<R>(row: Row<R>): nat { row.id }

  /** The identity column is a key. */
  ghost predicate IdsUnique<R>(rows: seq<Row<R>>) {
    Distinct(rows, IdOf)
  }

  /** Every id was handed out by an identity counter that starts at 1 and now stands at `next`. */
  ghost predicate IdsBelow<R>(rows: seq<Row<R>>, next: nat) {
    forall i :: 0 <= i < |rows| ==> 1 <= rows[i].id < next
  }

  /** The invariant every table keeps about its identity column. */
  ghost predicate Identity<R>(rows: seq<Row<R>>, next: nat) {
    IdsUnique(rows) && IdsBelow(rows, next) && next >= 1
  }

  predicate HasId<R>(rows: seq<Row<R>>, id: nat) {
    exists i :: 0 <= i < |rows| && rows[i].id == id
  }

  /** `INSERT ... RETURNING id`: the new row gets the counter's value and keeps the table's identity invariant. */
  lemma AppendKeepsIdentity<R>(rows: seq<Row<R>>, next: nat, row: Row<R>)
    requires Identity(rows, next) && row.id == next
    ensures Identity(rows + [row], next + 1)
    ensures !HasId(rows, next)
  {
  }

  /** `SELECT * ... WHERE id = $1`: the first row with that id, if any. */
  function FindById<R>(rows: seq<Row<R>>, id: nat): (r: Option<Row<R>>)
    ensures r.None? <==> !HasId(rows, id)
    ensures r.Some? ==> r.value in rows && r.value.id == id
  {
    if |rows| == 0 then None
    else if rows[0].id == id then Some(rows[0])
    else
      var r := FindById(rows[1..], id);
      assert forall i :: 1 <= i < |rows| ==> rows[i] == rows[1..][i - 1];
      r
  }

  /** `SELECT * ... WHERE <condition>`, first row: the index of the first row satisfying `p`, if any. */
  function FindFirst<R>(rows: seq<Row<R>>, p: Row<R> -> bool): (r: Option<nat>)
    ensures r.None? <==> forall i :: 0 <= i < |rows| ==> !p(rows[i])
    ensures r.Some? ==> r.value < |rows| && p(rows[r.value])
    ensures r.Some? ==> forall i :: 0 <= i < r.value ==> !p(rows[i])
  {
    if |rows| == 0 then None
    else if p(rows[0]) then Some(0)
    else
      var rest := FindFirst(rows[1..], p);
      assert forall i :: 1 <= i < |rows| ==> rows[i] == rows[1..][i - 1];
      match rest
      case None => None
      case Some(k) => Some(k + 1)
  }

  /** With a unique identity column, the row found is THE row with that id. */
  lemma {:induction false} FindByIdIsTheRow<R>(rows: seq<Row<R>>, k: nat)
    requires IdsUnique(rows) && k < |rows|
    ensures FindById(rows, rows[k].id) == Some(rows[k])
  {
    if k > 0 {
      assert IdOf(rows[0]) != IdOf(rows[k]);
      DistinctTail(rows, IdOf);
      FindByIdIsTheRow(rows[1..], k - 1);
    }
  }

  /** `DELETE ... WHERE id = $1`. */
  function DeleteById<R>(rows: seq<Row<R>>, id: nat): (r: seq<Row<R>>)
    ensures forall i :: 0 <= i < |r| ==> r[i] in rows && r[i].id != id
    ensures forall i :: 0 <= i < |rows| && rows[i].id != id ==> rows[i] in r
    ensures !HasId(rows, id) ==> r == rows
    ensures |r| <= |rows|
  {
    if |rows| == 0 then []
    else
      var rest := DeleteById(rows[1..], id);
      assert rows == [rows[0]] + rows[1..];
      assert !HasId(rows, id) ==> !HasId(rows[1..], id) by {
        if HasId(rows[1..], id) {
          var i :| 0 <= i < |rows[1..]| && rows[1..][i].id == id;
          assert rows[i + 1].id == id;
        }
      }
      if rows[0].id == id then rest else [rows[0]] + rest
  }

  /** Deleting an id that is present removes exactly one row, and the survivors keep their order. */
  lemma {:induction false} DeleteRemovesOne<R>(rows: seq<Row<R>>, k: nat)
    requires IdsUnique(rows) && k < |rows|
    ensures DeleteById(rows, rows[k].id) == rows[..k] + rows[k + 1..]
  {
    var id := rows[k].id;
    var tail := rows[1..];
    assert rows == [rows[0]] + tail;
    if k == 0 {
      assert !HasId(tail, id) by {
        forall i | 0 <= i < |tail| ensures tail[i].id != id {
          assert tail[i] == rows[i + 1];
          assert IdOf(rows[0]) != IdOf(rows[i + 1]);
        }
      }
      assert DeleteById(rows, id) == DeleteById(tail, id);
    } else {
      DistinctTail(rows, IdOf);
      assert tail[k - 1] == rows[k];
      DeleteRemovesOne(tail, k - 1);
      assert IdOf(rows[0]) != IdOf(rows[k]);
      calc {
        DeleteById(rows, id);
        [rows[0]] + DeleteById(tail, id);
        [rows[0]] + (tail[..k - 1] + tail[k..]);
        { assert tail[..k - 1] == rows[1..k] && tail[k..] == rows[k + 1..]; }
        [rows[0]] + (rows[1..k] + rows[k + 1..]);
        ([rows[0]] + rows[1..k]) + rows[k + 1..];
        { assert rows[..k] == [rows[0]] + rows[1..k]; }
        rows[..k] + rows[k + 1..];
      }
    }
  }

  lemma DistinctTail<R, K>(rows: seq<Row<R>>, key: Row<R> -> K)
    requires Distinct(rows, key) && |rows| > 0
    ensures Distinct(rows[1..], key)
  {
    forall i, j | 0 <= i < j < |rows| - 1 ensures key(rows[1..][i]) != key(rows[1..][j]) {
      assert rows[1..][i] == rows[i + 1] && rows[1..][j] == rows[j + 1];
    }
  }

  /** A delete keeps every UNIQUE column unique. */
  lemma {:induction false} DeleteKeepsDistinct<R, K>(rows: seq<Row<R>>, id: nat, key: Row<R> -> K)
    requires Distinct(rows, key)
    ensures Distinct(DeleteById(rows, id), key)
  {
    if |rows| > 0 {
      var tail := rows[1..];
      DistinctTail(rows, key);
      DeleteKeepsDistinct(tail, id, key);
      var rest := DeleteById(tail, id);
      if rows[0].id != id {
        forall j | 0 <= j < |rest| ensures key(rows[0]) != key(rest[j]) {
          assert rest[j] in tail;
          var k :| 0 <= k < |tail| && tail[k] == rest[j];
          assert tail[k] == rows[k + 1];
        }
        var r := [rows[0]] + rest;
        forall i, j | 0 <= i < j < |r| ensures key(r[i]) != key(r[j]) {
          if i > 0 {
            assert r[i] == rest[i - 1] && r[j] == rest[j - 1];
          } else {
            assert r[j] == rest[j - 1];
          }
        }
      }
    }
  }

  /** A delete keeps the table's identity invariant. */
  lemma DeleteKeepsIdentity<R>(rows: seq<Row<R>>, id: nat, next: nat)
    requires Identity(rows, next)
    ensures Identity(DeleteById(rows, id), next)
  {
    DeleteKeepsDistinct(rows, id, IdOf);
    var r := DeleteById(rows, id);
    forall i | 0 <= i < |r| ensures 1 <= r[i].id < next {
      var k :| 0 <= k < |rows| && rows[k] == r[i];
    }
  }

  /**
   * `UPDATE ... SET <columns>, updated_at = NOW() WHERE id = $n`: `change` rewrites the columns
   * of the addressed row; every other row is left as it was.
   */
  function SetData<R>(rows: seq<Row<R>>, id: nat, now: nat, change: R -> R): (r: seq<Row<R>>)
    ensures |r| == |rows|
    ensures forall i :: 0 <= i < |rows| && rows[i].id != id ==> r[i] == rows[i]
    ensures forall i :: 0 <= i < |rows| && rows[i].id == id ==>
      r[i] == Row(id, rows[i].createdAt, now, change(rows[i].data))
  {
    if |rows| == 0 then []
    else
      var head := if rows[0].id == id then Row(id, rows[0].createdAt, now, change(rows[0].data)) else rows[0];
      var rest := SetData(rows[1..], id, now, change);
      assert forall i :: 1 <= i < |rows| ==> rows[i] == rows[1..][i - 1];
      [head] + rest
  }

  /** An update keeps every id where it was, so it keeps the identity invariant. */
  lemma SetDataKeepsIds<R>(rows: seq<Row<R>>, id: nat, now: nat, change: R -> R, next: nat)
    requires Identity(rows, next)
    ensures Identity(SetData(rows, id, now, change), next)
    ensures forall i :: 0 <= i < |rows| ==> SetData(rows, id, now, change)[i].id == rows[i].id
  {
  }

  /** `ORDER BY created_at DESC`. */
  ghost predicate NewestFirst<R>(rows: seq<Row<R>>) {
    forall i, j :: 0 <= i < j < |rows| ==> rows[i].createdAt >= rows[j].createdAt
  }

  /** Puts `x` in place in a listing that is already newest first. */
  function InsertByAge<R>(x: Row<R>, s: seq<Row<R>>): (r: seq<Row<R>>)
    requires NewestFirst(s)
    ensures NewestFirst(r)
    ensures multiset(r) == multiset(s) + multiset{x}
    ensures forall i :: 0 <= i < |r| ==> r[i] == x || r[i] in s
  {
    if |s| == 0 then [x]
    else if x.createdAt >= s[0].createdAt then [x] + s
    else
      var rest := InsertByAge(x, s[1..]);
      assert s == [s[0]] + s[1..];
      assert forall i :: 0 <= i < |rest| ==> rest[i].createdAt <= s[0].createdAt;
      [s[0]] + rest
  }

  /** The listing the admin routes return: every row once, newest first (ties in table order). */
  function SortNewestFirst<R>(rows: seq<Row<R>>): (r: seq<Row<R>>)
    ensures NewestFirst(r)
    ensures multiset(r) == multiset(rows)
  {
    if |rows| == 0 then []
    else
      assert rows == [rows[0]] + rows[1..];
      InsertByAge(rows[0], SortNewestFirst(rows[1..]))
  }

  /** A listing holds exactly the rows of the table, as many times as the table does. */
  lemma SortedListingHasTheRows<R>(rows: seq<Row<R>>)
    ensures |SortNewestFirst(rows)| == |rows|
    ensures forall i :: 0 <= i < |rows| ==> rows[i] in SortNewestFirst(rows)
    ensures forall i :: 0 <= i < |rows| ==> SortNewestFirst(rows)[i] in rows
  {
    var r := SortNewestFirst(rows);
    assert |multiset(r)| == |multiset(rows)|;
    forall i | 0 <= i < |rows| ensures rows[i] in r {
      assert rows[i] in multiset(rows);
    }
    forall i | 0 <= i < |r| ensures r[i] in rows {
      assert r[i] in multiset(r);
    }
  }
}
