/**
 * The delivery-report receiver: the radio's result code for a sent
 * message becomes a status update of that message's row, and the message
 * list is told to refresh.
 */
module DeliveryReports {
  import opened Wrappers
  import opened Provider

  // `Activity.RESULT_OK` and the four `SmsManager.RESULT_ERROR_*` codes the receiver names.
  const RESULT_OK: int := -1
  const RESULT_ERROR_GENERIC_FAILURE: int := 1
  const RESULT_ERROR_RADIO_OFF: int := 2
  const RESULT_ERROR_NULL_PDU: int := 3
  const RESULT_ERROR_NO_SERVICE: int := 4

  /** A report intent: its `message_id` extra, absent when the sender put none. */
  datatype ReportIntent = ReportIntent(messageIdExtra: Option<int>)

  /** `getLongExtra("message_id", -1L)`. */
  function MessageIdOf(intent: ReportIntent): int {
    intent.messageIdExtra.GetOr(-1)
  }

  /** The status a result code writes: complete for OK, failed for the four errors, none otherwise. */
  function ReportedStatus(resultCode: int): (r: Option<int>)
    ensures r == Some(STATUS_COMPLETE) <==> resultCode == RESULT_OK
    ensures r == Some(STATUS_FAILED) <==>
      resultCode in {RESULT_ERROR_GENERIC_FAILURE, RESULT_ERROR_NO_SERVICE, RESULT_ERROR_NULL_PDU, RESULT_ERROR_RADIO_OFF}
    ensures r.None? <==>
      resultCode != RESULT_OK
      && resultCode !in {RESULT_ERROR_GENERIC_FAILURE, RESULT_ERROR_NO_SERVICE, RESULT_ERROR_NULL_PDU, RESULT_ERROR_RADIO_OFF}
    ensures r.Some? ==> r.value != STATUS_PENDING
  {
    if resultCode == RESULT_OK then Some(STATUS_COMPLETE)
    else if resultCode == RESULT_ERROR_GENERIC_FAILURE || resultCode == RESULT_ERROR_NO_SERVICE
         || resultCode == RESULT_ERROR_NULL_PDU || resultCode == RESULT_ERROR_RADIO_OFF
    then Some(STATUS_FAILED)
    else None
  }

  /** `updateMessageStatus`'s values: the status, and a `DATE_SENT` stamp only for complete. */
  function StatusValues(status: int, now: int): (v: Values)
    ensures v.status == Some(status) && v.read.None?
    ensures v.dateSent.Some? <==> status == STATUS_COMPLETE
    ensures v.dateSent.Some? ==> v.dateSent.value == now
  {
    Values(Some(status), None, if status == STATUS_COMPLETE then Some(now) else None)
  }

  /** Whether `onReceive` gets past its two early returns. */
  predicate Proceeds(hasContext: bool, intent: Option<ReportIntent>) {
    hasContext && intent.Some? && MessageIdOf(intent.value) != -1
  }

  /** The table after `onReceive`. */
  function AfterReport(rows: map<int, SmsRow>, hasContext: bool, intent: Option<ReportIntent>, resultCode: int, now: int)
    : (r: map<int, SmsRow>)
    ensures r.Keys == rows.Keys
    ensures !Proceeds(hasContext, intent) || ReportedStatus(resultCode).None? ==> r == rows
    ensures forall k :: k in rows && (!Proceeds(hasContext, intent) || k != MessageIdOf(intent.value)) ==> r[k] == rows[k]
  {
    if !Proceeds(hasContext, intent) then rows
    else match ReportedStatus(resultCode)
      case None => rows
      case Some(status) => Updated(rows, AllMessages, MessageIdOf(intent.value), StatusValues(status, now))
  }

  /** A report for message `id`. */
  function ReportFor(id: int): ReportIntent {
    ReportIntent(Some(id))
  }

  /** A report only ever touches the STATUS and `DATE_SENT` columns of the row it names. */
  lemma ReportTouchesOnlyStatusColumns(rows: map<int, SmsRow>, hasContext: bool, intent: Option<ReportIntent>, resultCode: int, now: int)
    ensures var r := AfterReport(rows, hasContext, intent, resultCode, now);
      && r.Keys == rows.Keys
      && (forall k :: k in rows ==>
            && r[k].(status := rows[k].status, dateSent := rows[k].dateSent) == rows[k]
            && (r[k] != rows[k] ==> Proceeds(hasContext, intent) && k == MessageIdOf(intent.value)))
  {
  }

  /** Without a context, an intent or a message id nothing changes. */
  lemma NoIdChangesNothing(rows: map<int, SmsRow>, hasContext: bool, intent: Option<ReportIntent>, resultCode: int, now: int)
    requires !Proceeds(hasContext, intent)
    ensures AfterReport(rows, hasContext, intent, resultCode, now) == rows
  {
  }

  /** OK marks the row complete and stamps the delivery time. */
  lemma OkMarksDelivered(rows: map<int, SmsRow>, id: int, now: int)
    requires id in rows && id != -1
    ensures AfterReport(rows, true, Some(ReportFor(id)), RESULT_OK, now)
         == rows[id := rows[id].(status := STATUS_COMPLETE, dateSent := now)]
  {
  }

  /** Each of the four error codes marks the row failed and keeps its `DATE_SENT`. */
  lemma ErrorMarksFailed(rows: map<int, SmsRow>, id: int, resultCode: int, now: int)
    requires id in rows && id != -1
    requires 1 <= resultCode <= 4
    ensures AfterReport(rows, true, Some(ReportFor(id)), resultCode, now)
         == rows[id := rows[id].(status := STATUS_FAILED)]
  {
  }

  /** Any other code leaves the table as it was. */
  lemma UnknownCodeChangesNothing(rows: map<int, SmsRow>, hasContext: bool, intent: Option<ReportIntent>, resultCode: int, now: int)
    requires resultCode != RESULT_OK && !(1 <= resultCode <= 4)
    ensures AfterReport(rows, hasContext, intent, resultCode, now) == rows
  {
  }

  /** There is no first-report-wins guard: a failure after a delivery overwrites it, keeping the stamp. */
  lemma FailureAfterDeliveryOverwrites(rows: map<int, SmsRow>, id: int, errorCode: int, t1: int, t2: int)
    requires id in rows && id != -1
    requires 1 <= errorCode <= 4
    ensures var delivered := AfterReport(rows, true, Some(ReportFor(id)), RESULT_OK, t1);
      AfterReport(delivered, true, Some(ReportFor(id)), errorCode, t2)[id]
        == rows[id].(status := STATUS_FAILED, dateSent := t1)
  {
    OkMarksDelivered(rows, id, t1);
  }

  /** A repeated OK only moves the delivery stamp to the later time. */
  lemma RepeatedOkRestamps(rows: map<int, SmsRow>, id: int, t1: int, t2: int)
    requires id != -1
    ensures var once := AfterReport(rows, true, Some(ReportFor(id)), RESULT_OK, t1);
      AfterReport(once, true, Some(ReportFor(id)), RESULT_OK, t2)
        == AfterReport(rows, true, Some(ReportFor(id)), RESULT_OK, t2)
  {
  }

  /**
   * `onReceive`: after the two early returns, the code's status (if any) is
   * written to the row through the all-messages URI, and the refresh is
   * broadcast whether or not the code was known. `writable` is whether the
   * platform lets this app write (it is the default SMS app); the receiver
   * does not check it, so a refused update is silent and the refresh still
   * goes out.
   */
  method OnReceive(store: SmsProvider, writable: bool, hasContext: bool, intent: Option<ReportIntent>, resultCode: int, now: int)
    returns (refresh: bool)
    requires store.Valid()
    modifies store
    ensures store.Valid() && store.nextId == old(store.nextId)
    ensures store.rows == if writable then AfterReport(old(store.rows), hasContext, intent, resultCode, now) else old(store.rows)
    ensures refresh <==> Proceeds(hasContext, intent)
  {
    if !hasContext || intent.None? {
      return false;
    }
    var messageId := MessageIdOf(intent.value);
    if messageId == -1 {
      return false;
    }
    var status := ReportedStatus(resultCode);
    if status.Some? {
      var _ := store.Update(AllMessages, messageId, StatusValues(status.value, now), writable);
    }
    refresh := true;
  }
}
