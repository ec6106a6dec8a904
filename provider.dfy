/**
 * The platform's SMS content provider as the client sees it: one table of
 * rows keyed by id, with the Inbox and Sent URIs as views restricted to
 * one message type. Inserts and delivery updates go through the
 * all-messages URI; read-marking and deletes go through Inbox or Sent.
 */
module Provider {
  import opened Wrappers
  import opened Text

  // Values of the `Telephony.Sms` columns the client reads and writes.
  const STATUS_COMPLETE: int := 0
  const STATUS_PENDING: int := 32
  const STATUS_FAILED: int := 64
  const MESSAGE_TYPE_INBOX: int := 1
  const MESSAGE_TYPE_SENT: int := 2

  /** One row of the SMS table: the columns this client touches. */
  datatype SmsRow = SmsRow(
    address: string,
    body: string,
    date: int,
    msgType: int,
    status: int,
    read: int,
    dateSent: int)

  /** The URI a write goes through: `Telephony.Sms.CONTENT_URI`, `Inbox.CONTENT_URI` or `Sent.CONTENT_URI`. */
  datatype Collection = AllMessages | Inbox | Sent

  /** Whether a row is visible through a collection's URI. */
  predicate InCollection(row: SmsRow, c: Collection) {
    match c
    case AllMessages => true
    case Inbox => row.msgType == MESSAGE_TYPE_INBOX
    case Sent => row.msgType == MESSAGE_TYPE_SENT
  }

  /** A `ContentValues` for an update: only the columns present are written. */
  datatype Values = Values(status: Option<int>, read: Option<int>, dateSent: Option<int>)

  function Apply(row: SmsRow, v: Values): SmsRow {
    row.(status := v.status.GetOr(row.status),
         read := v.read.GetOr(row.read),
         dateSent := v.dateSent.GetOr(row.dateSent))
  }

  /** The row an `_ID = ?` selection hits through collection `c`, if any. */
  predicate Selects(rows: map<int, SmsRow>, c: Collection, id: int) {
    id in rows && InCollection(rows[id], c)
  }

  /** The table after `update(uri, values, "_ID = ?", [id])`. */
  function Updated(rows: map<int, SmsRow>, c: Collection, id: int, v: Values): (r: map<int, SmsRow>)
    ensures r.Keys == rows.Keys
    ensures forall k :: k in rows && k != id ==> r[k] == rows[k]
    ensures Selects(rows, c, id) ==> r[id] == Apply(rows[id], v)
    ensures !Selects(rows, c, id) ==> r == rows
  {
    if Selects(rows, c, id) then rows[id := Apply(rows[id], v)] else rows
  }

  /** The table after `delete(uri, "_ID = ?", [id])`. */
  function Removed(rows: map<int, SmsRow>, c: Collection, id: int): (r: map<int, SmsRow>)
    ensures r.Keys == if Selects(rows, c, id) then rows.Keys - {id} else rows.Keys
    ensures forall k :: k in r ==> r[k] == rows[k]
  {
    if Selects(rows, c, id) then rows - {id} else rows
  }

  /** The number of rows an `_ID = ?` selection affects: ids are unique, so 0 or 1. */
  function Affected(rows: map<int, SmsRow>, c: Collection, id: int): nat {
    if Selects(rows, c, id) then 1 else 0
  }

  /** The values both screens write to mark a message read: `READ = 1` and nothing else. */
  const READ_VALUES: Values := Values(None, Some(1), None)

  /** Marking read sets the READ column of the selected row and changes nothing else. */
  lemma MarkReadSetsOnlyRead(rows: map<int, SmsRow>, c: Collection, id: int)
    ensures var r := Updated(rows, c, id, READ_VALUES);
      && r.Keys == rows.Keys
      && forall k :: k in rows ==> r[k] == if k == id && Selects(rows, c, id) then rows[k].(read := 1) else rows[k]
  {
  }

  /** Marking the same message read twice is the same as marking it once. */
  lemma MarkReadIdempotent(rows: map<int, SmsRow>, c: Collection, id: int)
    ensures Updated(Updated(rows, c, id, READ_VALUES), c, id, READ_VALUES) == Updated(rows, c, id, READ_VALUES)
  {
  }

  /** A content URI; the provider answers an insert with its authority and the new id as last segment. */
  datatype Uri = Uri(authority: string, pathSegments: seq<string>)

  /** `Uri.lastPathSegment`. */
  function LastPathSegment(u: Uri): Option<string> {
    if |u.pathSegments| == 0 then None else Some(u.pathSegments[|u.pathSegments| - 1])
  }

  /** The answer to an insert the platform denies: the table's URI with id 0 appended. */
  const DENIED_INSERT_URI: Uri := Uri("sms", ["0"])

  class SmsProvider {
    var rows: map<int, SmsRow>
    var nextId: nat

    /** Ids are handed out from 1 upwards: every id in use lies below `nextId`. */
    ghost predicate Valid()
      reads this
    {
      1 <= nextId && forall id :: id in rows ==> 1 <= id < nextId
    }

    constructor ()
      ensures Valid() && rows == map[] && nextId == 1
    {
      rows := map[];
      nextId := 1;
    }

    /**
     * `insert(CONTENT_URI, values)`. A provider that refuses the write
     * (`writable` false) keeps the table and gives the answer `refusal`:
     * null, or the `content://sms/0` the platform returns when it denies a
     * write to an app that is not the default SMS app.
     */
    method Insert(row: SmsRow, writable: bool, refusal: Option<Uri>) returns (uri: Option<Uri>)
      requires Valid()
      modifies this
      ensures Valid()
      ensures !writable ==> uri == refusal && rows == old(rows) && nextId == old(nextId)
      ensures writable ==> old(nextId) !in old(rows)
      ensures writable ==> rows == old(rows)[old(nextId) := row] && nextId == old(nextId) + 1
      ensures writable ==> uri == Some(Uri("sms", [ToDecimal(old(nextId))]))
    {
      if !writable {
        return refusal;
      }
      var id := nextId;
      rows := rows[id := row];
      nextId := nextId + 1;
      uri := Some(Uri("sms", [ToDecimal(id)]));
    }

    /**
     * `update`: the platform lets only the default SMS app write; for any
     * other app nothing changes and no row is counted.
     */
    method Update(c: Collection, id: int, v: Values, writable: bool) returns (count: nat)
      requires Valid()
      modifies this
      ensures Valid() && nextId == old(nextId)
      ensures rows == if writable then Updated(old(rows), c, id, v) else old(rows)
      ensures count == if writable then Affected(old(rows), c, id) else 0
    {
      if !writable {
        return 0;
      }
      count := Affected(rows, c, id);
      rows := Updated(rows, c, id, v);
    }

    method Delete(c: Collection, id: int) returns (count: nat)
      requires Valid()
      modifies this
      ensures Valid() && nextId == old(nextId)
      ensures rows == Removed(old(rows), c, id)
      ensures count == Affected(old(rows), c, id)
    {
      count := Affected(rows, c, id);
      rows := Removed(rows, c, id);
    }
  }
}
