/**
 * The compose screen: the recipient field with its contact suggestions,
 * and the send action that validates the input, stores a pending "sent"
 * record, and hands the text to the radio with delivery reports requested.
 */
module Compose {
  import opened Wrappers
  import opened Text
  import opened Provider
  import Contacts
  import DeliveryReports

  /** The action of the delivery-report intent. */
  const DELIVERED_ACTION: string := "android.provider.Telephony.SMS_DELIVERED"

  /**
   * The number inside a recipient: with both "(" and ")" present, the text
   * after the first "(" up to the next ")"; otherwise the recipient itself.
   */
  function ExtractNumber(recipient: string): (r: string)
    ensures !('(' in recipient && ')' in recipient) ==> r == recipient
    ensures '(' in recipient && ')' in recipient ==> ')' !in r
  {
    if '(' in recipient && ')' in recipient then
      SubstringBefore(SubstringAfter(recipient, '('), ')')
    else recipient
  }

  /**
   * With both brackets present and the first "(" at `i`, the number is the
   * text that starts just after it and stops at the next ")" or at the end.
   */
  lemma ExtractNumberBetweenBrackets(recipient: string, i: nat)
    requires i < |recipient| && recipient[i] == '(' && '(' !in recipient[..i]
    requires ')' in recipient
    ensures var r := ExtractNumber(recipient);
      && i + 1 + |r| <= |recipient|
      && recipient[i + 1..i + 1 + |r|] == r
      && ')' !in r
      && (i + 1 + |r| == |recipient| || recipient[i + 1 + |r|] == ')')
  {
    var after := SubstringAfter(recipient, '(');
    assert after == recipient[i + 1..];
    var r := SubstringBefore(after, ')');
    assert recipient[i + 1..i + 1 + |r|] == after[..|r|];
  }

  /** In a display string whose name has no "(", the text after the first "(" is the number and ")". */
  lemma AfterOpenBracket(name: string, number: string)
    requires '(' !in name
    ensures SubstringAfter(name + " (" + number + ")", '(') == number + ")"
  {
    var d := name + " (" + number + ")";
    var tail := " (" + number + ")";
    assert d == name + tail;
    assert IndexOf(tail, '(') == Some(1) by {
      assert tail[0] != '(' && tail[1] == '(';
    }
    IndexOfPastPrefix(name, tail, '(');
    assert d[|name| + 2..] == number + ")";
  }

  /** A number without ")" is all that comes before the closing bracket. */
  lemma BeforeCloseBracket(number: string)
    requires ')' !in number
    ensures SubstringBefore(number + ")", ')') == number
  {
    assert IndexOf(")", ')') == Some(0);
    IndexOfPastPrefix(number, ")", ')');
    assert (number + ")")[..|number|] == number;
  }

  /** Picking a suggestion and sending gives back the contact's number, when brackets do not interfere. */
  lemma ExtractFromDisplayString(name: string, number: string)
    requires '(' !in name && ')' !in number
    ensures ExtractNumber(name + " (" + number + ")") == number
  {
    var d := name + " (" + number + ")";
    assert d[|d| - 1] == ')' && d[|name| + 1] == '(';
    AfterOpenBracket(name, number);
    BeforeCloseBracket(number);
  }

  /**
   * Blankness is checked on the recipient as typed: "Name ()" passes the
   * check although the number extracted from it is empty.
   */
  lemma EmptyBracketsPassValidation(name: string)
    requires '(' !in name
    ensures !IsBlank(name + " ()")
    ensures Trim(ExtractNumber(name + " ()")) == []
  {
    ExtractFromDisplayString(name, "");
    assert name + " ()" == name + " (" + "" + ")";
    assert !IsWhitespace((name + " ()")[|name| + 1]);
  }

  /** `messageUri?.lastPathSegment?.toLongOrNull() ?: -1`. */
  function MessageIdFromUri(uri: Option<Uri>): (id: int)
    ensures id != -1 ==> uri.Some? && LastPathSegment(uri.value).Some?
    ensures id != -1 ==> IsNumeral(LastPathSegment(uri.value).value)
    ensures LONG_MIN <= id <= LONG_MAX
  {
    match uri
    case None => -1
    case Some(u) =>
      match LastPathSegment(u)
      case None => -1
      case Some(segment) => ToLongOrNull(segment).GetOr(-1)
  }

  /** A last segment with a non-digit in it, other than a leading sign, gives -1. */
  lemma NonNumericSegmentGivesNoId(u: Uri, i: int)
    requires LastPathSegment(u).Some?
    requires var segment := LastPathSegment(u).value;
      && 0 <= i < |segment| && !IsDigit(segment[i])
      && (i == 0 ==> segment[0] != '-' && segment[0] != '+')
    ensures MessageIdFromUri(Some(u)) == -1
  {
    NonDigitIsNull(LastPathSegment(u).value, i);
  }

  /** The id read back from the provider's answer to an insert is the id the row was stored under. */
  lemma InsertedIdReadsBack(id: nat)
    requires id <= LONG_MAX
    ensures MessageIdFromUri(Some(Uri("sms", [ToDecimal(id)]))) == id
  {
    DecimalRoundTrip(id);
  }

  /**
   * The row stored before sending: a pending "sent" message. The provider
   * marks every row outside the inbox read on insert; `DATE_SENT` is unwritten
   * and keeps the table's default.
   */
  function PendingRow(address: string, body: string, now: int): (row: SmsRow)
    ensures row.msgType == MESSAGE_TYPE_SENT && row.status == STATUS_PENDING
    ensures row.address == address && row.body == body && row.date == now
  {
    SmsRow(address, body, now, MESSAGE_TYPE_SENT, STATUS_PENDING, 1, 0)
  }

  /** The broadcast a delivery report will carry: the delivered action and the message id. */
  datatype PendingDelivery = PendingDelivery(action: string, messageId: int)

  /** What the receiver sees when the pending broadcast fires. */
  function ReportOf(p: PendingDelivery): DeliveryReports.ReportIntent {
    DeliveryReports.ReportIntent(Some(p.messageId))
  }

  /** A report for a message whose insert failed carries id -1, and the receiver drops it. */
  lemma FailedInsertReportsAreDropped(p: PendingDelivery, hasContext: bool)
    requires p.messageId == -1
    ensures !DeliveryReports.Proceeds(hasContext, Some(ReportOf(p)))
  {
  }

  /** The call made to the radio. */
  datatype Dispatch =
    | SingleSend(destination: string, text: string, deliveryIntent: PendingDelivery)
    | MultipartSend(destination: string, parts: seq<string>, deliveryIntents: seq<PendingDelivery>)

  /** The dispatch `sendMessage` chooses for a message divided into `parts`. */
  function PlanDispatch(destination: string, message: string, parts: seq<string>, pi: PendingDelivery): (d: Dispatch)
    ensures d.MultipartSend? <==> |parts| > 1
    ensures d.destination == destination
    ensures d.MultipartSend? ==> d.parts == parts && |d.deliveryIntents| == |parts|
    ensures d.MultipartSend? ==> forall i :: 0 <= i < |d.deliveryIntents| ==> d.deliveryIntents[i] == pi
    ensures d.SingleSend? ==> d.text == message && d.deliveryIntent == pi
  {
    if |parts| > 1 then MultipartSend(destination, parts, seq(|parts|, _ => pi))
    else SingleSend(destination, message, pi)
  }

  /** The `for (i in messages.indices)` loop: one copy of the same intent per segment. */
  method RepeatIntent(pi: PendingDelivery, n: nat) returns (intents: seq<PendingDelivery>)
    ensures |intents| == n
    ensures forall i :: 0 <= i < n ==> intents[i] == pi
  {
    intents := [];
    for i := 0 to n
      invariant |intents| == i
      invariant forall j :: 0 <= j < i ==> intents[j] == pi
    {
      intents := intents + [pi];
    }
  }

  /** What pressing send led to. */
  datatype SendOutcome =
    | RecipientRejected
    | MessageRejected
    | Dispatched(messageId: int, dispatch: Dispatch)
    | DispatchFailed(messageId: int, dispatch: Dispatch)

  const RECIPIENT_ERROR: string := "Please enter a recipient"
  const MESSAGE_ERROR: string := "Please enter a message"

  /** The screen's state: the two text fields, the picked suggestion, the field errors, and whether it closed. */
  class ComposeScreen {
    var recipientText: Option<string>
    var messageText: Option<string>
    var selectedContact: Option<Contacts.Contact>
    var recipientError: Option<string>
    var messageError: Option<string>
    var finished: bool

    constructor (recipient: Option<string>)
      ensures recipientText == recipient && messageText == Some([])
      ensures selectedContact == None && recipientError == None && messageError == None && !finished
    {
      recipientText := recipient;
      messageText := Some([]);
      selectedContact := None;
      recipientError := None;
      messageError := None;
      finished := false;
    }

    /**
     * The user typed in the recipient field: the text watcher forgets the
     * picked suggestion, and the platform drops the field's error, as a
     * `TextView` does when a key event changes its text.
     */
    method OnRecipientEdited(text: string)
      modifies this
      ensures recipientText == Some(text) && selectedContact == None && recipientError == None
      ensures messageText == old(messageText) && finished == old(finished)
      ensures messageError == old(messageError)
    {
      recipientText := Some(text);
      selectedContact := None;
      recipientError := None;
    }

    /** The user typed in the message field; the platform drops that field's error. */
    method OnMessageEdited(text: string)
      modifies this
      ensures messageText == Some(text) && messageError == None
      ensures recipientText == old(recipientText) && selectedContact == old(selectedContact)
      ensures recipientError == old(recipientError) && finished == old(finished)
    {
      messageText := Some(text);
      messageError := None;
    }

    /**
     * A suggestion was picked: it is remembered, then its display string is
     * put in the field, whose watcher runs at once and forgets it again. The
     * text is set by the program, not typed, so the field's error is kept.
     */
    method OnSuggestionPicked(contact: Contacts.Contact)
      modifies this
      ensures selectedContact == None
      ensures recipientText == Some(contact.displayString)
      ensures messageText == old(messageText) && finished == old(finished)
      ensures recipientError == old(recipientError) && messageError == old(messageError)
    {
      selectedContact := Some(contact);
      recipientText := Some(contact.displayString);
      selectedContact := None;
    }

    /** `selectedContact?.number ?: recipientEditText.text?.toString()`. */
    function Recipient(): (r: Option<string>)
      reads this
      ensures selectedContact.Some? ==> r == Some(selectedContact.value.number)
      ensures selectedContact.None? ==> r == recipientText
    {
      if selectedContact.Some? then Some(selectedContact.value.number) else recipientText
    }

    /**
     * `sendMessage`: reject a blank recipient, then a blank message, each
     * before anything is stored; otherwise run the store-and-send step, and
     * close the screen only when the radio call returned.
     */
    method SendMessage(store: SmsProvider, divide: string -> seq<string>, now: int,
                       writable: bool, refusal: Option<Uri>, radioFails: bool)
      returns (outcome: SendOutcome)
      requires store.Valid()
      modifies this, store
      ensures store.Valid()
      ensures recipientText == old(recipientText) && messageText == old(messageText)
      ensures selectedContact == old(selectedContact)
      ensures !outcome.RecipientRejected? ==> recipientError == old(recipientError)
      ensures !outcome.MessageRejected? ==> messageError == old(messageError)
      ensures IsNullOrBlank(old(Recipient())) ==>
        outcome == RecipientRejected && recipientError == Some(RECIPIENT_ERROR)
        && store.rows == old(store.rows) && store.nextId == old(store.nextId) && finished == old(finished)
      ensures !IsNullOrBlank(old(Recipient())) && IsNullOrBlank(old(messageText)) ==>
        outcome == MessageRejected && messageError == Some(MESSAGE_ERROR)
        && store.rows == old(store.rows) && store.nextId == old(store.nextId) && finished == old(finished)
      ensures !IsNullOrBlank(old(Recipient())) && !IsNullOrBlank(old(messageText)) ==>
        && StoredAndSent(old(store.rows), old(store.nextId), store.rows, outcome,
                         old(Recipient()).value, old(messageText).value, divide, now, writable, refusal, radioFails)
        && (finished <==> outcome.Dispatched? || old(finished))
    {
      var recipient := Recipient();
      var message := messageText;
      if IsNullOrBlank(recipient) {
        recipientError := Some(RECIPIENT_ERROR);
        return RecipientRejected;
      }
      if IsNullOrBlank(message) {
        messageError := Some(MESSAGE_ERROR);
        return MessageRejected;
      }
      outcome := StoreAndSend(store, recipient.value, message.value, divide, now, writable, refusal, radioFails);
      if outcome.Dispatched? {
        finished := true;
      }
    }
  }

  /**
   * The id `sendMessage` obtains: the stored row's id when the insert was
   * accepted (and fits in 64 bits), otherwise whatever the refusal's answer
   * parses to: -1 for null, 0 for the platform's denial.
   */
  function IdAfterInsert(writable: bool, nextId: nat, refusal: Option<Uri>): (id: int)
    ensures writable && nextId <= LONG_MAX ==> id == nextId
    ensures writable && nextId > LONG_MAX ==> id == -1
    ensures !writable && refusal.None? ==> id == -1
    ensures !writable && refusal == Some(DENIED_INSERT_URI) ==> id == 0
  {
    if writable then
      if nextId <= LONG_MAX then nextId else -1
    else
      assert DigitsValue("0"[..0]) == Some(0);
      MessageIdFromUri(refusal)
  }

  /**
   * Whether the radio call throws: the send failed, or the destination is
   * empty, which `SmsManager` rejects with an exception before sending.
   */
  predicate RadioRefuses(destination: string, radioFails: bool) {
    radioFails || destination == []
  }

  /**
   * What the store-and-send step leaves behind: the pending row stored
   * under the next id (when the provider accepts it), and a dispatch to the
   * trimmed number with delivery reports carrying the id read back.
   */
  ghost predicate StoredAndSent(rows: map<int, SmsRow>, nextId: nat, rows': map<int, SmsRow>, outcome: SendOutcome,
                                recipient: string, message: string, divide: string -> seq<string>,
                                now: int, writable: bool, refusal: Option<Uri>, radioFails: bool)
  {
    var destination := Trim(ExtractNumber(recipient));
    var id := IdAfterInsert(writable, nextId, refusal);
    var dispatch := PlanDispatch(destination, message, divide(message), PendingDelivery(DELIVERED_ACTION, id));
    && rows' == (if writable then rows[nextId := PendingRow(destination, message, now)] else rows)
    && outcome == (if RadioRefuses(destination, radioFails) then DispatchFailed(id, dispatch) else Dispatched(id, dispatch))
  }

  /**
   * The `try` block of `sendMessage`: store the pending row first, read the
   * id back from the answer, then dispatch. A failing radio call does not
   * undo the stored row.
   */
  method StoreAndSend(store: SmsProvider, recipient: string, message: string, divide: string -> seq<string>,
                      now: int, writable: bool, refusal: Option<Uri>, radioFails: bool)
    returns (outcome: SendOutcome)
    requires store.Valid()
    modifies store
    ensures store.Valid()
    ensures StoredAndSent(old(store.rows), old(store.nextId), store.rows, outcome,
                          recipient, message, divide, now, writable, refusal, radioFails)
  {
    var phoneNumber := ExtractNumber(recipient);
    var destination := Trim(phoneNumber);
    ghost var firstId := store.nextId;
    var messageUri := store.Insert(PendingRow(destination, message, now), writable, refusal);
    var messageId := MessageIdFromUri(messageUri);
    if writable && firstId <= LONG_MAX {
      InsertedIdReadsBack(firstId);
    } else if writable {
      DecimalRoundTrip(firstId);
    }
    assert messageId == IdAfterInsert(writable, firstId, refusal);
    var deliveryPI := PendingDelivery(DELIVERED_ACTION, messageId);
    var parts := divide(message);
    var dispatch: Dispatch;
    if |parts| > 1 {
      var deliveryIntents := RepeatIntent(deliveryPI, |parts|);
      dispatch := MultipartSend(destination, parts, deliveryIntents);
    } else {
      dispatch := SingleSend(destination, message, deliveryPI);
    }
    assert dispatch == PlanDispatch(destination, message, parts, deliveryPI);
    if radioFails || destination == [] {
      return DispatchFailed(messageId, dispatch);
    }
    outcome := Dispatched(messageId, dispatch);
  }

  /**
   * A recipient such as "Bob ()" passes validation, so the pending row is
   * stored; the radio then rejects the empty destination and the send fails.
   */
  lemma EmptyBracketsStoredThenFail(name: string, message: string, rows: map<int, SmsRow>, nextId: nat,
                                    rows': map<int, SmsRow>, outcome: SendOutcome, divide: string -> seq<string>,
                                    now: int, writable: bool, refusal: Option<Uri>, radioFails: bool)
    requires '(' !in name
    requires StoredAndSent(rows, nextId, rows', outcome, name + " ()", message, divide, now, writable, refusal, radioFails)
    ensures outcome.DispatchFailed?
    ensures writable ==> rows' == rows[nextId := PendingRow("", message, now)]
  {
    EmptyBracketsPassValidation(name);
  }

  /**
   * When the platform denies the insert, the reports carry id 0: they pass
   * the receiver's -1 guard (so a refresh is sent), but no row has id 0, so
   * the table is left as it was.
   */
  lemma DeniedInsertReportsChangeNothing(rows: map<int, SmsRow>, nextId: nat, resultCode: int, now: int)
    requires forall id :: id in rows ==> 1 <= id
    ensures var p := PendingDelivery(DELIVERED_ACTION, IdAfterInsert(false, nextId, Some(DENIED_INSERT_URI)));
      && p.messageId == 0
      && DeliveryReports.Proceeds(true, Some(ReportOf(p)))
      && DeliveryReports.AfterReport(rows, true, Some(ReportOf(p)), resultCode, now) == rows
  {
    assert !Selects(rows, AllMessages, 0);
  }
}
