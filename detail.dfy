/**
 * The message detail screen: the extras a list item hands over, the
 * defaults for missing ones, the label, status line and clipboard text it
 * shows, and the two store writes it can make (mark read on open, delete).
 */
module Detail {
  import opened Wrappers
  import opened Text
  import opened Provider
  import Messages

  /** The intent extras; a missing extra is `None`. */
  datatype DetailExtras = DetailExtras(
    id: Option<int>,
    address: Option<string>,
    contactName: Option<string>,
    body: Option<string>,
    date: Option<int>,
    isSent: Option<bool>,
    deliveryStatus: Option<int>,
    deliveredDate: Option<int>)

  /** `createIntent(context, message)`: every field is put; a null contact name stays absent. */
  function CreateIntent(m: Messages.SmsMessage): (e: DetailExtras)
    ensures e.id == Some(m.id) && e.address == Some(m.address) && e.contactName == m.contactName
    ensures e.body == Some(m.body) && e.date == Some(m.date) && e.isSent == Some(m.isSent)
    ensures e.deliveryStatus == Some(m.deliveryStatus) && e.deliveredDate == Some(m.deliveredDate)
  {
    DetailExtras(Some(m.id), Some(m.address), m.contactName, Some(m.body), Some(m.date),
                 Some(m.isSent), Some(m.deliveryStatus), Some(m.deliveredDate))
  }

  /** What `onCreate` reads out of the extras. */
  datatype DetailFields = DetailFields(
    messageId: int,
    sender: string,
    contactName: Option<string>,
    messageBody: string,
    date: int,
    isSent: bool,
    deliveryStatus: int,
    deliveredDate: int)

  /** The extras with their defaults: id -1, sender "Unknown", body "", everything else 0 or false. */
  function ReadExtras(e: DetailExtras): (f: DetailFields)
    ensures e.id.None? ==> f.messageId == -1
    ensures e.address.None? ==> f.sender == "Unknown"
    ensures e.body.None? ==> f.messageBody == ""
    ensures e.date.None? ==> f.date == 0
    ensures e.isSent.None? ==> !f.isSent
    ensures e.deliveryStatus.None? ==> f.deliveryStatus == 0
    ensures e.deliveredDate.None? ==> f.deliveredDate == 0
    ensures f.contactName == e.contactName
  {
    DetailFields(e.id.GetOr(-1), e.address.GetOr("Unknown"), e.contactName, e.body.GetOr(""),
                 e.date.GetOr(0), e.isSent.GetOr(false), e.deliveryStatus.GetOr(0), e.deliveredDate.GetOr(0))
  }

  /** Opening a message from the list shows that message's own fields. */
  lemma ExtrasRoundTrip(m: Messages.SmsMessage)
    ensures ReadExtras(CreateIntent(m))
         == DetailFields(m.id, m.address, m.contactName, m.body, m.date, m.isSent, m.deliveryStatus, m.deliveredDate)
  {
  }

  /** Without a status extra a sent message reads as delivered, since the default 0 is the complete status. */
  lemma MissingStatusReadsDelivered(e: DetailExtras)
    requires e.deliveryStatus.None?
    ensures ReadExtras(e).deliveryStatus == Messages.STATUS_COMPLETE
  {
  }

  /** The word before the name: "To" for sent, "From" for received. */
  function LabelWord(isSent: bool): (r: string)
    ensures r == "To" <==> isSent
    ensures r == "From" <==> !isSent
  {
    if isSent then "To" else "From"
  }

  /** The name shown: the contact name, else the sender's address. */
  function ShownName(f: DetailFields): (r: string)
    ensures f.contactName.Some? ==> r == f.contactName.value
    ensures f.contactName.None? ==> r == f.sender
  {
    f.contactName.GetOr(f.sender)
  }

  /**
   * The status line under a message: only for sent messages; complete shows
   * the tick, plus the delivery time when one was recorded; pending and
   * failed have their own text; any other status hides the line.
   */
  function StatusLine(f: DetailFields, format: int -> string): (r: Option<string>)
    ensures r.Some? ==> f.isSent
    ensures r.Some? <==>
      f.isSent && (f.deliveryStatus == STATUS_COMPLETE || f.deliveryStatus == STATUS_PENDING || f.deliveryStatus == STATUS_FAILED)
  {
    if !f.isSent then None
    else if f.deliveryStatus == STATUS_COMPLETE then
      Some("✓ Delivered" + (if f.deliveredDate > 0 then "\nDelivered: " + format(f.deliveredDate) else ""))
    else if f.deliveryStatus == STATUS_PENDING then Some("⏳ Pending")
    else if f.deliveryStatus == STATUS_FAILED then Some("❌ Failed to deliver")
    else None
  }

  /** The delivery time is appended exactly when a positive one was recorded. */
  lemma DeliveredTimeShownWhenRecorded(f: DetailFields, format: int -> string)
    requires f.isSent && f.deliveryStatus == STATUS_COMPLETE
    ensures var line := StatusLine(f, format).value;
      && StartsWith(line, "✓ Delivered")
      && (|line| > |"✓ Delivered"| <==> f.deliveredDate > 0)
      && (f.deliveredDate > 0 ==> line[|"✓ Delivered"|..] == "\nDelivered: " + format(f.deliveredDate))
  {
    var line := StatusLine(f, format).value;
    assert line[..|"✓ Delivered"|] == "✓ Delivered";
  }

  /** The detail screen's status line and the list row's delivery icon agree on every message. */
  lemma StatusLineMatchesListIcon(m: Messages.SmsMessage, format: int -> string)
    ensures var f := ReadExtras(CreateIntent(m));
      var icon := Messages.BindItem(m).deliveryIcon;
      && (StatusLine(f, format).Some? <==> icon.Some?)
      && (icon == Some(Messages.DeliveredIcon) <==> StatusLine(f, format).Some? && StartsWith(StatusLine(f, format).value, "✓"))
      && (icon == Some(Messages.PendingIcon) <==> StatusLine(f, format) == Some("⏳ Pending"))
      && (icon == Some(Messages.FailedIcon) <==> StatusLine(f, format) == Some("❌ Failed to deliver"))
  {
    var f := ReadExtras(CreateIntent(m));
    var line := StatusLine(f, format);
    if line.Some? && m.deliveryStatus == STATUS_COMPLETE {
      assert line.value[..1] == "✓";
    }
    if line.Some? && m.deliveryStatus != STATUS_COMPLETE {
      assert line.value[0] != '✓';
    }
  }

  /**
   * `copyMessageToClipboard`'s text: the label word and the shown name, then
   * the sender's number, then the whole body at the end.
   */
  function ClipboardText(f: DetailFields): (t: string)
    ensures StartsWith(t, LabelWord(f.isSent) + ": " + ShownName(f) + "\nPhone: " + f.sender + "\nMessage: ")
    ensures |f.messageBody| <= |t| && t[|t| - |f.messageBody|..] == f.messageBody
    ensures |t| == |LabelWord(f.isSent) + ": " + ShownName(f) + "\nPhone: " + f.sender + "\nMessage: "| + |f.messageBody|
  {
    var head := LabelWord(f.isSent) + ": " + ShownName(f) + "\nPhone: " + f.sender + "\nMessage: ";
    assert (head + f.messageBody)[..|head|] == head;
    head + f.messageBody
  }

  /** The copied text opens with the same label the list row shows, then the number and the body. */
  lemma ClipboardOpensWithListLabel(m: Messages.SmsMessage)
    ensures ClipboardText(ReadExtras(CreateIntent(m)))
         == Messages.DisplayLabel(m) + "\nPhone: " + m.address + "\nMessage: " + m.body
  {
  }

  /** What a delete request ended in. */
  datatype DeleteOutcome = NotDefaultApp | Cancelled | InvalidId | Deleted | NothingDeleted

  class DetailScreen {
    var fields: DetailFields
    var finished: bool

    /** `onCreate`'s reading of the extras. */
    constructor (extras: DetailExtras)
      ensures fields == ReadExtras(extras) && !finished
    {
      fields := ReadExtras(extras);
      finished := false;
    }

    /** The collection a write goes through: Sent for sent messages, Inbox otherwise. */
    function Source(): Collection
      reads this
    {
      if fields.isSent then Sent else Inbox
    }

    /**
     * The read-marking in `onCreate`: a received message with a known id is
     * marked read if this is the default SMS app, and the list is asked to refresh.
     */
    method MarkReadOnOpen(store: SmsProvider, isDefault: bool) returns (refresh: bool)
      requires store.Valid()
      modifies store
      ensures store.Valid() && store.nextId == old(store.nextId)
      ensures refresh <==> !fields.isSent && fields.messageId != -1 && isDefault
      ensures refresh ==> store.rows == Updated(old(store.rows), Inbox, fields.messageId, READ_VALUES)
      ensures !refresh ==> store.rows == old(store.rows)
    {
      refresh := false;
      if !fields.isSent && fields.messageId != -1 {
        if isDefault {
          var _ := store.Update(Source(), fields.messageId, READ_VALUES, isDefault);
          refresh := true;
        }
      }
    }

    /**
     * The delete menu action: refused unless this is the default SMS app,
     * then the confirmation dialog, then `deleteMessage`, which refuses id -1
     * and otherwise deletes through the message's own collection; only when
     * a row went is the list asked to refresh and the screen closed.
     */
    method RequestDelete(store: SmsProvider, isDefault: bool, confirmed: bool) returns (outcome: DeleteOutcome, refresh: bool)
      requires store.Valid()
      modifies this, store
      ensures store.Valid() && store.nextId == old(store.nextId)
      ensures fields == old(fields)
      ensures !isDefault ==> outcome == NotDefaultApp
      ensures isDefault && !confirmed ==> outcome == Cancelled
      ensures isDefault && confirmed && fields.messageId == -1 ==> outcome == InvalidId
      ensures outcome in {NotDefaultApp, Cancelled, InvalidId} ==>
        store.rows == old(store.rows) && finished == old(finished)
      ensures isDefault && confirmed && fields.messageId != -1 ==>
        && store.rows == Removed(old(store.rows), Source(), fields.messageId)
        && (outcome == Deleted <==> Selects(old(store.rows), Source(), fields.messageId))
        && (outcome == Deleted ==> finished)
        && (outcome != Deleted ==> outcome == NothingDeleted && finished == old(finished))
    ensures refresh <==> outcome == Deleted
    {
      refresh := false;
      if !isDefault {
        return NotDefaultApp, false;
      }
      if !confirmed {
        return Cancelled, false;
      }
      if fields.messageId == -1 {
        return InvalidId, false;
      }
      var result := store.Delete(Source(), fields.messageId);
      if result > 0 {
        refresh := true;
        finished := true;
        outcome := Deleted;
      } else {
        outcome := NothingDeleted;
      }
    }
  }
}
