/**
 * Labor results (`/api/labor-results`): the public lookup of an exam result by
 * passport number, occupation key and nationality code, and the admin routes
 * over the `labor_results` table. No column but `id` is a key, so several rows
 * may match a lookup; the first one is shown.
 */
module LaborResults {
  import opened Tables
  import opened Http

  const DefaultResult: string := "Passed"

  /** A row of `labor_results`. */
  datatype LaborResult = LaborResult(
    passportNumber: string, occupationKey: string, nationalityCode: string,
    examDate: string, score: int, result: string)

  /** The body of `GET /check`, always sent with status 200: `{found: false, message}` or `{found: true, data}`. */
  datatype Lookup =
    | NotFound(message: string)
    | Found(data: LaborResult)

  predicate Matches(row: Row<LaborResult>, passport: string, occupation: string, nationality: string) {
    row.data.passportNumber == passport && row.data.occupationKey == occupation && row.data.nationalityCode == nationality
  }

  /**
   * `GET /check`: found iff some row carries all three keys; the answer then shows the
   * columns of the first such row, and no earlier row matches.
   */
  function Check(rows: seq<Row<LaborResult>>, passport: string, occupation: string, nationality: string): (r: Lookup)
    ensures r.NotFound? <==> forall i :: 0 <= i < |rows| ==> !Matches(rows[i], passport, occupation, nationality)
    ensures r.NotFound? ==> r.message == "Labor result not found"
    ensures r.Found? ==>
      exists k :: (0 <= k < |rows| && Matches(rows[k], passport, occupation, nationality)
        && r.data == rows[k].data
        && forall i :: 0 <= i < k ==> !Matches(rows[i], passport, occupation, nationality))
  {
    match FindFirst(rows, (row: Row<LaborResult>) => Matches(row, passport, occupation, nationality))
    case None => NotFound("Labor result not found")
    case Some(k) => Found(rows[k].data)
  }

  class LaborResultStore {
    var rows: seq<Row<LaborResult>>
    var nextId: nat

    ghost predicate Valid()
      reads this
    {
      Identity(rows, nextId)
    }

    constructor ()
      ensures Valid() && rows == [] && nextId == 1
    {
      rows, nextId := [], 1;
    }

    /** `GET /`: every row, newest first. */
    function List(): (r: seq<Row<LaborResult>>)
      reads this
      ensures NewestFirst(r) && multiset(r) == multiset(rows)
    {
      SortNewestFirst(rows)
    }

    /** `POST /`: inserts the result, 'Passed' unless one is given, and returns its id. */
    method Create(passportNumber: string, occupationKey: string, nationalityCode: string,
                  examDate: string, score: int, result: Option<string>, now: nat)
      returns (resp: Response<Created>)
      requires Valid()
      modifies this
      ensures Valid()
      ensures rows == old(rows) + [Row(old(nextId), now, now,
        LaborResult(passportNumber, occupationKey, nationalityCode, examDate, score, OrElse(result, DefaultResult)))]
      ensures nextId == old(nextId) + 1
      ensures resp == Success(201, Created("Labor result created", old(nextId)))
    {
      var id := nextId;
      var row := Row(id, now, now,
        LaborResult(passportNumber, occupationKey, nationalityCode, examDate, score, OrElse(result, DefaultResult)));
      AppendKeepsIdentity(rows, nextId, row);
      rows := rows + [row];
      nextId := nextId + 1;
      resp := Success(201, Created("Labor result created", id));
    }

    /** `PUT /:id`: rewrites all six columns of that row (the result as given, no default). */
    method Update(id: nat, l: LaborResult, now: nat) returns (resp: Response<string>)
      requires Valid()
      modifies this
      ensures Valid() && nextId == old(nextId)
      ensures |rows| == |old(rows)|
      ensures forall i :: 0 <= i < |rows| && old(rows)[i].id != id ==> rows[i] == old(rows)[i]
      ensures forall i :: 0 <= i < |rows| && old(rows)[i].id == id ==> rows[i] == old(rows)[i].(updatedAt := now, data := l)
      ensures resp == Success(200, "Labor result updated")
    {
      var change := (_: LaborResult) => l;
      SetDataKeepsIds(rows, id, now, change, nextId);
      rows := SetData(rows, id, now, change);
      resp := Success(200, "Labor result updated");
    }

    /** `DELETE /:id`: removes that row only; a missing id still answers 200. */
    method Delete(id: nat) returns (resp: Response<string>)
      requires Valid()
      modifies this
      ensures Valid() && nextId == old(nextId)
      ensures rows == DeleteById(old(rows), id)
      ensures resp == Success(200, "Labor result deleted")
    {
      DeleteKeepsIdentity(rows, id, nextId);
      rows := DeleteById(rows, id);
      resp := Success(200, "Labor result deleted");
    }
  }
}
