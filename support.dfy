/**
 * Support tickets (`/api/support`): public submission, and the admin routes
 * over the `support_tickets` table. A new ticket takes the column default
 * status 'Open'; only the status is ever changed afterwards.
 */
module Support {
  import opened Tables
  import opened Http

  const OpenStatus: string := "Open"

  /** A row of `support_tickets`. */
  datatype Ticket = Ticket(name: string, email: string, subject: string, description: string, status: string)

  class TicketStore {
    var rows: seq<Row<Ticket>>
    var nextId: nat

    ghost predicate Valid()
      reads this
    {
      Identity(rows, nextId)
    }

    constructor ()
      ensures Valid() && rows == [] && nextId == 1
    {
      rows, nextId := [], 1;
    }

    /** `POST /`: files an 'Open' ticket and returns its id (sent as `ticketId`). */
    method Submit(name: string, email: string, subject: string, description: string, now: nat)
      returns (resp: Response<Created>)
      requires Valid()
      modifies this
      ensures Valid()
      ensures rows == old(rows) + [Row(old(nextId), now, now, Ticket(name, email, subject, description, OpenStatus))]
      ensures nextId == old(nextId) + 1
      ensures resp == Success(201, Created("Ticket submitted successfully", old(nextId)))
    {
      var id := nextId;
      var row := Row(id, now, now, Ticket(name, email, subject, description, OpenStatus));
      AppendKeepsIdentity(rows, nextId, row);
      rows := rows + [row];
      nextId := nextId + 1;
      resp := Success(201, Created("Ticket submitted successfully", id));
    }

    /** `GET /`: every ticket, newest first. */
    function List(): (r: seq<Row<Ticket>>)
      reads this
      ensures NewestFirst(r) && multiset(r) == multiset(rows)
    {
      SortNewestFirst(rows)
    }

    /** `GET /:id`. */
    function Get(id: nat): (r: Response<Row<Ticket>>)
      reads this
      ensures r.Failure? <==> !HasId(rows, id)
      ensures r.Failure? ==> r == Failure(404, "Ticket not found")
      ensures r.Success? ==> r.status == 200 && r.value in rows && r.value.id == id
    {
      match FindById(rows, id)
      case None => Failure(404, "Ticket not found")
      case Some(row) => Success(200, row)
    }

    /** `PUT /:id`: sets that ticket's status, any text, and leaves its other columns alone. */
    method UpdateStatus(id: nat, status: string, now: nat) returns (resp: Response<string>)
      requires Valid()
      modifies this
      ensures Valid() && nextId == old(nextId)
      ensures |rows| == |old(rows)|
      ensures forall i :: 0 <= i < |rows| && old(rows)[i].id != id ==> rows[i] == old(rows)[i]
      ensures forall i :: 0 <= i < |rows| && old(rows)[i].id == id ==>
        rows[i] == old(rows)[i].(updatedAt := now, data := old(rows)[i].data.(status := status))
      ensures resp == Success(200, "Ticket updated")
    {
      var change := (t: Ticket) => t.(status := status);
      SetDataKeepsIds(rows, id, now, change, nextId);
      rows := SetData(rows, id, now, change);
      resp := Success(200, "Ticket updated");
    }

    /** `DELETE /:id`: removes that row only; a missing id still answers 200. */
    method Delete(id: nat) returns (resp: Response<string>)
      requires Valid()
      modifies this
      ensures Valid() && nextId == old(nextId)
      ensures rows == DeleteById(old(rows), id)
      ensures resp == Success(200, "Ticket deleted")
    {
      DeleteKeepsIdentity(rows, id, nextId);
      rows := DeleteById(rows, id);
      resp := Success(200, "Ticket deleted");
    }
  }
}
