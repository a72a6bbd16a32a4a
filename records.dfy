/**
 * Values shared by the record store and the two screens that edit it:
 * the RFP record, the requests the client sends to the /rfps collection,
 * and how each request ends.
 */
module Records {

  datatype Option<+T> = None | Some(value: T)

  /** Identifier of a persisted RFP. The store assigns it; the client never does. */
  type Id = nat

  /**
   * misc_data: free-form JSON that the client passes through untouched.
   * Text is what the form's input produces; any other JSON value is known
   * only by a token, since nothing in the client looks inside it.
   */
  datatype Misc = Text(text: string) | Opaque(token: nat)

  /** The four fields of an RFP; also the body of a create or an update. */
  datatype Fields = Fields(
    carrierName: string,
    employeeCount: int,
    miscData: Misc,
    dateSubmitted: string)

  /** A persisted RFP: its identifier and its fields. */
  datatype Record = Record(id: Id, fields: Fields)

  /** One call on the /rfps collection (GET, GET by id, POST, PUT by id, DELETE by id). */
  datatype Request =
    | ListAll
    | Get(id: Id)
    | Create(body: Fields)
    | Update(id: Id, body: Fields)
    | Delete(id: Id)

  /**
   * How one HTTP exchange ends: the server handled it (and its clock read
   * serverTime while it did), or the call failed in transport or with a
   * server error, in which case the server changed nothing.
   */
  datatype Outcome = Delivered(serverTime: string) | Failed

  datatype Error = NotFound | TransportError

  /** What the client receives for one request. */
  datatype Response =
    | Listed(rows: seq<Record>)
    | Found(record: Record)
    | Saved(record: Record)
    | Done
    | Failure(error: Error)
}
