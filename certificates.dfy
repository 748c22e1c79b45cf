/**
 * Certificates (`/api/certificates`): the public check of a certificate by
 * passport number and serial, and the admin routes over the `certificates`
 * table, whose `certificate_serial` column is UNIQUE.
 */
module Certificates {
  import opened Tables
  import opened Http

  const DefaultStatus: string := "Valid"

  /** A row of `certificates`; dates are the ISO text the admin form sends. */
  datatype Certificate = Certificate(
    serial: string, passportNumber: string, holderName: string, occupation: string,
    issueDate: string, expiryDate: string, status: string)

  /** The `data` object of a successful check: the certificate without its status, id or stamps. */
  datatype Details = Details(
    holderName: string, occupation: string, certificateSerial: string, passportNumber: string,
    issueDate: string, expiryDate: string)

  /** The body of `GET /verify`, always sent with status 200: `{valid: false, message}` or `{valid: true, status, data}`. */
  datatype Verdict =
    | NotFound(message: string)
    | Found(status: string, data: Details)

  function SerialOf(row: Row<Certificate>): string { row.data.serial }

  function DetailsOf(c: Certificate): Details {
    Details(c.holderName, c.occupation, c.serial, c.passportNumber, c.issueDate, c.expiryDate)
  }

  predicate Matches(row: Row<Certificate>, passport: string, serial: string) {
    row.data.passportNumber == passport && row.data.serial == serial
  }

  predicate SerialTaken(rows: seq<Row<Certificate>>, serial: string) {
    exists i :: 0 <= i < |rows| && rows[i].data.serial == serial
  }

  /** Some row other than `id` holds `serial`: writing it to `id` would break the UNIQUE key. */
  predicate SerialHeldByOther(rows: seq<Row<Certificate>>, id: nat, serial: string) {
    exists i :: 0 <= i < |rows| && rows[i].id != id && rows[i].data.serial == serial
  }

  /** Under the UNIQUE serial, at most one row matches a (passport, serial) pair. */
  lemma AtMostOneMatch(rows: seq<Row<Certificate>>, passport: string, serial: string, i: nat, j: nat)
    requires Distinct(rows, SerialOf) && i < |rows| && j < |rows|
    requires Matches(rows[i], passport, serial) && Matches(rows[j], passport, serial)
    ensures i == j
  {
    assert i < j ==> SerialOf(rows[i]) != SerialOf(rows[j]);
    assert j < i ==> SerialOf(rows[j]) != SerialOf(rows[i]);
  }

  /**
   * `GET /verify`: found iff a row carries both the passport number and the serial; the
   * answer then shows that row's status and details, and a passport number that does not
   * go with the serial is as good as an unknown serial.
   */
  function Verify(rows: seq<Row<Certificate>>, passport: string, serial: string): (r: Verdict)
    requires Distinct(rows, SerialOf)
    ensures r.NotFound? <==> forall i :: 0 <= i < |rows| ==> !Matches(rows[i], passport, serial)
    ensures r.NotFound? ==> r.message == "Certificate not found"
    ensures forall i :: 0 <= i < |rows| && Matches(rows[i], passport, serial) ==>
      r == Found(rows[i].data.status, DetailsOf(rows[i].data))
  {
    match FindFirst(rows, (row: Row<Certificate>) => Matches(row, passport, serial))
    case None => NotFound("Certificate not found")
    case Some(k) =>
      forall i | 0 <= i < |rows| && Matches(rows[i], passport, serial) ensures i == k {
        AtMostOneMatch(rows, passport, serial, i, k);
      }
      Found(rows[k].data.status, DetailsOf(rows[k].data))
  }

  class CertificateStore {
    var rows: seq<Row<Certificate>>
    var nextId: nat

    ghost predicate Valid()
      reads this
    {
      Identity(rows, nextId) && Distinct(rows, SerialOf)
    }

    constructor ()
      ensures Valid() && rows == [] && nextId == 1
    {
      rows, nextId := [], 1;
    }

    /** `GET /verify` over the current table. */
    function Check(passport: string, serial: string): (r: Verdict)
      reads this
      requires Valid()
      ensures r.Found? <==> exists i :: 0 <= i < |rows| && Matches(rows[i], passport, serial)
    {
      Verify(rows, passport, serial)
    }

    /** `GET /`: every row, newest first. */
    function List(): (r: seq<Row<Certificate>>)
      reads this
      ensures NewestFirst(r) && multiset(r) == multiset(rows)
    {
      SortNewestFirst(rows)
    }

    /** `GET /:id`. */
    function Get(id: nat): (r: Response<Row<Certificate>>)
      reads this
      ensures r.Failure? <==> !HasId(rows, id)
      ensures r.Failure? ==> r == Failure(404, "Certificate not found")
      ensures r.Success? ==> r.status == 200 && r.value in rows && r.value.id == id
    {
      match FindById(rows, id)
      case None => Failure(404, "Certificate not found")
      case Some(row) => Success(200, row)
    }

    /**
     * `POST /`: inserts the certificate with status 'Valid' unless one is given. A serial that
     * is already stored violates the UNIQUE key: 500 and nothing changes.
     */
    method Create(serial: string, passportNumber: string, holderName: string, occupation: string,
                  issueDate: string, expiryDate: string, status: Option<string>, now: nat)
      returns (resp: Response<Created>)
      requires Valid()
      modifies this
      ensures Valid()
      ensures SerialTaken(old(rows), serial) ==>
        resp == Failure(500, ServerError) && rows == old(rows) && nextId == old(nextId)
      ensures !SerialTaken(old(rows), serial) ==>
        && rows == old(rows) + [Row(old(nextId), now, now,
             Certificate(serial, passportNumber, holderName, occupation, issueDate, expiryDate, OrElse(status, DefaultStatus)))]
        && nextId == old(nextId) + 1
        && resp == Success(201, Created("Certificate created", old(nextId)))
    {
      if SerialTaken(rows, serial) {
        return Failure(500, ServerError);
      }
      var id := nextId;
      var row := Row(id, now, now,
        Certificate(serial, passportNumber, holderName, occupation, issueDate, expiryDate, OrElse(status, DefaultStatus)));
      AppendKeepsIdentity(rows, nextId, row);
      rows := rows + [row];
      nextId := nextId + 1;
      resp := Success(201, Created("Certificate created", id));
    }

    /**
     * `PUT /:id`: rewrites all seven columns of that row (the status as given, no default).
     * When that row exists and another row holds the serial, the UNIQUE key is violated:
     * 500 and nothing changes. A missing id matches no row: 200 and nothing changes.
     */
    method Update(id: nat, c: Certificate, now: nat) returns (resp: Response<string>)
      requires Valid()
      modifies this
      ensures Valid() && nextId == old(nextId)
      ensures HasId(old(rows), id) && SerialHeldByOther(old(rows), id, c.serial) ==>
        resp == Failure(500, ServerError) && rows == old(rows)
      ensures !HasId(old(rows), id) ==> resp == Success(200, "Certificate updated") && rows == old(rows)
      ensures !(HasId(old(rows), id) && SerialHeldByOther(old(rows), id, c.serial)) ==>
        && resp == Success(200, "Certificate updated")
        && |rows| == |old(rows)|
        && (forall i :: 0 <= i < |rows| && old(rows)[i].id != id ==> rows[i] == old(rows)[i])
        && (forall i :: 0 <= i < |rows| && old(rows)[i].id == id ==>
              rows[i] == old(rows)[i].(updatedAt := now, data := c))
    {
      if HasId(rows, id) && SerialHeldByOther(rows, id, c.serial) {
        return Failure(500, ServerError);
      }
      var change := (_: Certificate) => c;
      SetDataKeepsIds(rows, id, now, change, nextId);
      var updated := SetData(rows, id, now, change);
      assert !HasId(rows, id) ==> updated == rows;
      assert Distinct(updated, SerialOf) by {
        forall i, j | 0 <= i < j < |updated| ensures SerialOf(updated[i]) != SerialOf(updated[j]) {
          assert SerialOf(rows[i]) != SerialOf(rows[j]);
        }
      }
      rows := updated;
      resp := Success(200, "Certificate updated");
    }

    /** `DELETE /:id`: removes that row only; a missing id still answers 200. */
    method Delete(id: nat) returns (resp: Response<string>)
      requires Valid()
      modifies this
      ensures Valid() && nextId == old(nextId)
      ensures rows == DeleteById(old(rows), id)
      ensures resp == Success(200, "Certificate deleted")
    {
      DeleteKeepsIdentity(rows, id, nextId);
      DeleteKeepsDistinct(rows, id, SerialOf);
      rows := DeleteById(rows, id);
      resp := Success(200, "Certificate deleted");
    }
  }
}
