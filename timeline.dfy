/**
 * The main screen: the message list is built from the Inbox rows followed
 * by the Sent rows, each mapped to an `SmsMessage`, and the whole list is
 * ordered newest first; tapping a received unread message marks it read.
 */
module MainScreen {
  import opened Wrappers
  import opened Provider
  import opened Sorting
  import opened Messages
  import Detail

  /** One row of an Inbox or Sent query: the columns the projection asks for. */
  datatype CursorRow = CursorRow(id: int, address: string, body: string, date: int, status: int, dateSent: int, read: int)

  /** `getContactName`: the first name the phone lookup returns, or null when it returns none. */
  function ContactName(names: seq<string>): (r: Option<string>)
    ensures r.None? <==> names == []
    ensures r.Some? ==> r.value == names[0]
  {
    if names == [] then None else Some(names[0])
  }

  /**
   * The record `loadMessages` builds from a row: received rows get status 0
   * and delivery time 0 whatever the columns hold; read means the column is 1.
   */
  function ToMessage(row: CursorRow, isSent: bool, lookup: string -> seq<string>): (m: SmsMessage)
    ensures m.id == row.id && m.address == row.address && m.body == row.body && m.date == row.date
    ensures m.isSent == isSent
    ensures m.contactName == ContactName(lookup(row.address))
    ensures m.deliveryStatus == (if isSent then row.status else STATUS_NONE)
    ensures m.deliveredDate == (if isSent then row.dateSent else 0)
    ensures m.isRead <==> row.read == 1
  {
    SmsMessage(
      row.id, row.address, ContactName(lookup(row.address)), row.body, row.date, isSent,
      if isSent then row.status else 0,
      if isSent then row.dateSent else 0,
      row.read == 1)
  }

  /** The records of a whole cursor, in cursor order; a null cursor adds none. */
  function Loaded(cursor: Option<seq<CursorRow>>, isSent: bool, lookup: string -> seq<string>): (r: seq<SmsMessage>)
    ensures cursor.None? ==> r == []
    ensures cursor.Some? ==> |r| == |cursor.value|
    ensures cursor.Some? ==> forall i :: 0 <= i < |r| ==> r[i] == ToMessage(cursor.value[i], isSent, lookup)
  {
    match cursor
    case None => []
    case Some(rows) => seq(|rows|, i requires 0 <= i < |rows| => ToMessage(rows[i], isSent, lookup))
  }

  /** Every received record reads as delivered and carries no delivery time. */
  lemma ReceivedRecordsReadDelivered(cursor: Option<seq<CursorRow>>, lookup: string -> seq<string>)
    ensures forall m :: m in Loaded(cursor, false, lookup) ==>
      !m.isSent && IsDelivered(m) && m.deliveredDate == 0 && !BindItem(m).deliveryIcon.Some?
  {
  }

  /** `loadMessages(uri, isSent, messages)`: the cursor's records are appended, in order, to the list passed in. */
  method LoadMessages(cursor: Option<seq<CursorRow>>, isSent: bool, lookup: string -> seq<string>, messages: seq<SmsMessage>)
    returns (result: seq<SmsMessage>)
    ensures result == messages + Loaded(cursor, isSent, lookup)
  {
    result := messages;
    if cursor.None? {
      return;
    }
    var rows := cursor.value;
    var i := 0;
    while i < |rows|
      invariant 0 <= i <= |rows|
      invariant result == messages + Loaded(Some(rows[..i]), isSent, lookup)
    {
      var row := rows[i];
      var message := ToMessage(row, isSent, lookup);
      result := result + [message];
      i := i + 1;
    }
    assert rows[..|rows|] == rows;
  }

  /** `sortByDescending { it.date }` as "comes before": a later date. */
  function NewerFirst(): (SmsMessage, SmsMessage) -> bool {
    (a: SmsMessage, b: SmsMessage) => a.date > b.date
  }

  lemma NewerFirstIsStrictWeakOrder()
    ensures StrictWeakOrder(NewerFirst())
  {
  }

  /** The list `loadAllMessages` hands to the adapter. */
  function Timeline(inbox: Option<seq<CursorRow>>, sent: Option<seq<CursorRow>>, lookup: string -> seq<string>): (t: seq<SmsMessage>)
    ensures multiset(t) == multiset(Loaded(inbox, false, lookup)) + multiset(Loaded(sent, true, lookup))
  {
    Sort(Loaded(inbox, false, lookup) + Loaded(sent, true, lookup), NewerFirst())
  }

  /**
   * The timeline holds exactly the inbox and sent records, newest first;
   * records with the same date keep their order (inbox before sent, then
   * cursor order).
   */
  lemma TimelineOrder(inbox: Option<seq<CursorRow>>, sent: Option<seq<CursorRow>>, lookup: string -> seq<string>, e: SmsMessage)
    ensures var merged := Loaded(inbox, false, lookup) + Loaded(sent, true, lookup);
      var t := Timeline(inbox, sent, lookup);
      && multiset(t) == multiset(merged)
      && (forall i, j :: 0 <= i < j < |t| ==> t[i].date >= t[j].date)
      && TiedWith(t, e, NewerFirst()) == TiedWith(merged, e, NewerFirst())
  {
    var merged := Loaded(inbox, false, lookup) + Loaded(sent, true, lookup);
    NewerFirstIsStrictWeakOrder();
    SortSorted(merged, NewerFirst());
    SortStable(merged, e, NewerFirst());
  }

  /** Two records tie under the date order exactly when their dates are equal. */
  lemma TiedMeansSameDate(a: SmsMessage, b: SmsMessage)
    ensures Tied(a, b, NewerFirst()) <==> a.date == b.date
  {
  }

  /** `loadAllMessages`: inbox then sent into one list, sorted, then shown unfiltered. */
  method LoadAllMessages(adapter: SmsAdapter, inbox: Option<seq<CursorRow>>, sent: Option<seq<CursorRow>>, lookup: string -> seq<string>)
    modifies adapter
    ensures adapter.messages == Timeline(inbox, sent, lookup)
    ensures adapter.filteredMessages == adapter.messages
    ensures adapter.Valid()
  {
    var messages: seq<SmsMessage> := [];
    messages := LoadMessages(inbox, false, lookup, messages);
    assert messages == Loaded(inbox, false, lookup);
    messages := LoadMessages(sent, true, lookup, messages);
    messages := Sort(messages, NewerFirst());
    assert messages == Timeline(inbox, sent, lookup);
    adapter.SetMessages(messages);
  }

  /** The tap handler's guard: only a received, unread message is marked read. */
  predicate MarksReadOnClick(m: SmsMessage) {
    !m.isSent && !m.isRead
  }

  /** The collection `markMessageAsRead` writes through. */
  function ReadTarget(isSent: bool): Collection {
    if isSent then Sent else Inbox
  }

  /**
   * `markMessageAsRead(id, isSent)`: nothing unless this is the default SMS
   * app; otherwise READ = 1 on that id through Sent or Inbox, then a reload.
   */
  method MarkMessageAsRead(store: SmsProvider, messageId: int, isSent: bool, isDefault: bool) returns (reload: bool)
    requires store.Valid()
    modifies store
    ensures store.Valid() && store.nextId == old(store.nextId)
    ensures reload <==> isDefault
    ensures isDefault ==> store.rows == Updated(old(store.rows), ReadTarget(isSent), messageId, READ_VALUES)
    ensures !isDefault ==> store.rows == old(store.rows)
  {
    if !isDefault {
      return false;
    }
    var _ := store.Update(ReadTarget(isSent), messageId, READ_VALUES, isDefault);
    reload := true;
  }

  /**
   * The tap on a list item: mark read when the guard holds, then open the
   * detail screen with the message's extras. A tap only ever writes READ
   * through the Inbox.
   */
  method OnMessageClick(store: SmsProvider, m: SmsMessage, isDefault: bool) returns (reload: bool, extras: Detail.DetailExtras)
    requires store.Valid()
    modifies store
    ensures store.Valid() && store.nextId == old(store.nextId)
    ensures extras == Detail.CreateIntent(m)
    ensures reload <==> MarksReadOnClick(m) && isDefault
    ensures reload ==> store.rows == Updated(old(store.rows), Inbox, m.id, READ_VALUES)
    ensures !reload ==> store.rows == old(store.rows)
  {
    reload := false;
    if !m.isSent && !m.isRead {
      reload := MarkMessageAsRead(store, m.id, m.isSent, isDefault);
    }
    extras := Detail.CreateIntent(m);
  }
}
