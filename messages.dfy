/**
 * The message record shown in the list (`SmsMessage`) and the list adapter
 * that holds the loaded messages together with the currently filtered view.
 */
module Messages {
  import opened Wrappers
  import opened Text
  import Provider

  // `SmsMessage.STATUS_NONE` is the literal 0; the other three alias the
  // provider's values, so "none" and "complete" are the same number.
  const STATUS_NONE: int := 0
  const STATUS_COMPLETE: int := Provider.STATUS_COMPLETE
  const STATUS_PENDING: int := Provider.STATUS_PENDING
  const STATUS_FAILED: int := Provider.STATUS_FAILED

  datatype SmsMessage = SmsMessage(
    id: int,
    address: string,
    contactName: Option<string>,
    body: string,
    date: int,
    isSent: bool,
    deliveryStatus: int,
    deliveredDate: int,
    isRead: bool)

  /** `displayName`: the resolved contact name, else the raw address. */
  function DisplayName(m: SmsMessage): (r: string)
    ensures m.contactName.Some? ==> r == m.contactName.value
    ensures m.contactName.None? ==> r == m.address
  {
    m.contactName.GetOr(m.address)
  }

  /** `displayLabel`: "To: " or "From: " followed by the display name. */
  function DisplayLabel(m: SmsMessage): (r: string)
    ensures |DisplayName(m)| < |r|
    ensures r[|r| - |DisplayName(m)|..] == DisplayName(m)
    ensures r[..|r| - |DisplayName(m)|] == if m.isSent then "To: " else "From: "
  {
    (if m.isSent then "To: " else "From: ") + DisplayName(m)
  }

  /** The label tells the direction and ends with the display name. */
  lemma LabelShowsDirectionAndName(m: SmsMessage)
    ensures StartsWith(DisplayLabel(m), "To: ") <==> m.isSent
    ensures StartsWith(DisplayLabel(m), "From: ") <==> !m.isSent
    ensures var l := DisplayLabel(m);
      l[|l| - |DisplayName(m)|..] == DisplayName(m)
    ensures |DisplayLabel(m)| == (if m.isSent then 4 else 6) + |DisplayName(m)|
  {
    var l := DisplayLabel(m);
    if m.isSent {
      assert l[..4] == "To: ";
      if |l| >= 6 {
        assert l[..6][0] == 'T';
      }
    } else {
      assert l[..6] == "From: ";
      assert l[..4][0] == 'F';
    }
  }

  /** `isDelivered`: the status column says complete. */
  predicate IsDelivered(m: SmsMessage): (r: bool)
    ensures r ==> m.deliveryStatus != STATUS_PENDING && m.deliveryStatus != STATUS_FAILED
    ensures r <==> m.deliveryStatus == STATUS_NONE
  {
    m.deliveryStatus == STATUS_COMPLETE
  }

  /** A record with status "none" reads as delivered, because the two constants coincide. */
  lemma NoStatusReadsAsDelivered(m: SmsMessage)
    requires m.deliveryStatus == STATUS_NONE
    ensures IsDelivered(m)
  {
  }

  // ---------------------------------------------------------------------
  // What one list row shows
  // ---------------------------------------------------------------------

  datatype DeliveryIcon = DeliveredIcon | PendingIcon | FailedIcon

  /** The text and the two status icons `onBindViewHolder` sets on a row. */
  datatype ItemView = ItemView(labelText: string, body: string, deliveryIcon: Option<DeliveryIcon>, unreadIcon: bool)

  /** The decisions of `onBindViewHolder` for one message (both icons start hidden). */
  function BindItem(m: SmsMessage): (v: ItemView)
    ensures v.labelText == DisplayLabel(m) && v.body == m.body
    ensures v.deliveryIcon.Some? <==>
      m.isSent && (m.deliveryStatus == STATUS_COMPLETE || m.deliveryStatus == STATUS_PENDING || m.deliveryStatus == STATUS_FAILED)
    ensures v.deliveryIcon == Some(DeliveredIcon) <==> m.isSent && IsDelivered(m)
    ensures v.deliveryIcon == Some(PendingIcon) <==> m.isSent && m.deliveryStatus == STATUS_PENDING
    ensures v.deliveryIcon == Some(FailedIcon) <==> m.isSent && m.deliveryStatus == STATUS_FAILED
    ensures v.unreadIcon <==> !m.isSent && !m.isRead
    ensures !(v.deliveryIcon.Some? && v.unreadIcon)
  {
    var icon :=
      if !m.isSent then None
      else if m.deliveryStatus == STATUS_COMPLETE then Some(DeliveredIcon)
      else if m.deliveryStatus == STATUS_PENDING then Some(PendingIcon)
      else if m.deliveryStatus == STATUS_FAILED then Some(FailedIcon)
      else None;
    ItemView(DisplayLabel(m), m.body, icon, !m.isSent && !m.isRead)
  }

  // ---------------------------------------------------------------------
  // The live filter
  // ---------------------------------------------------------------------

  /** A message survives a query when its display name or body contains it, ignoring case. */
  predicate FilterHit(m: SmsMessage, query: string) {
    ContainsIgnoreCase(DisplayName(m), query) || ContainsIgnoreCase(m.body, query)
  }

  /** `messages.filter { … }`: the hits, in list order. */
  function Matching(s: seq<SmsMessage>, query: string): (r: seq<SmsMessage>)
    ensures |r| <= |s|
    ensures forall m :: m in r ==> m in s && FilterHit(m, query)
  {
    if s == [] then []
    else (if FilterHit(s[0], query) then [s[0]] else []) + Matching(s[1..], query)
  }

  /** What `filter(query)` shows: everything for the empty query, otherwise the hits. */
  function Filtered(messages: seq<SmsMessage>, query: string): (r: seq<SmsMessage>)
    ensures query == [] ==> r == messages
    ensures forall m :: m in r ==> m in messages
    ensures query != [] ==> forall m :: m in r ==> FilterHit(m, query)
    ensures IsSubsequence(r, messages)
  {
    if query == [] then
      SubsequenceOfItself(messages);
      messages
    else
      MatchingKeepsExactlyTheHits(messages, query);
      Matching(messages, query)
  }

  /** Every sequence is a subsequence of itself. */
  lemma {:induction false} SubsequenceOfItself<T>(s: seq<T>)
    ensures IsSubsequence(s, s)
  {
    if s != [] {
      SubsequenceOfItself(s[1..]);
    }
  }

  /** A subsequence is never longer than the sequence it is taken from. */
  lemma {:induction false} SubsequenceNoLonger<T>(a: seq<T>, b: seq<T>)
    ensures IsSubsequence(a, b) ==> |a| <= |b|
  {
    if b != [] && IsSubsequence(a, b) {
      if a != [] && a[0] == b[0] && IsSubsequence(a[1..], b[1..]) {
        SubsequenceNoLonger(a[1..], b[1..]);
      } else {
        SubsequenceNoLonger(a, b[1..]);
      }
    }
  }

  /** `a` is `b` with some elements left out, the rest in order. */
  ghost predicate IsSubsequence<T>(a: seq<T>, b: seq<T>) {
    if b == [] then a == []
    else (a != [] && a[0] == b[0] && IsSubsequence(a[1..], b[1..])) || IsSubsequence(a, b[1..])
  }

  /**
   * The filter keeps exactly the hits: every kept message is a hit, every hit
   * is kept, and the kept ones are an order-preserving subsequence.
   */
  lemma {:induction false} MatchingKeepsExactlyTheHits(s: seq<SmsMessage>, query: string)
    ensures forall m :: m in Matching(s, query) ==> m in s && FilterHit(m, query)
    ensures forall i :: 0 <= i < |s| && FilterHit(s[i], query) ==> s[i] in Matching(s, query)
    ensures IsSubsequence(Matching(s, query), s)
  {
    if s != [] {
      MatchingKeepsExactlyTheHits(s[1..], query);
      var rest := Matching(s[1..], query);
      forall i | 0 <= i < |s| && FilterHit(s[i], query) ensures s[i] in Matching(s, query) {
        if i > 0 {
          assert s[i] == s[1..][i - 1];
        }
      }
      if FilterHit(s[0], query) {
        assert Matching(s, query) == [s[0]] + rest;
        assert ([s[0]] + rest)[1..] == rest;
      } else {
        assert Matching(s, query) == rest;
      }
    }
  }

  /** Filtering a concatenation filters each part. */
  lemma {:induction false} MatchingDistributes(a: seq<SmsMessage>, b: seq<SmsMessage>, query: string)
    ensures Matching(a + b, query) == Matching(a, query) + Matching(b, query)
  {
    if a == [] {
      assert a + b == b;
    } else {
      assert (a + b)[0] == a[0];
      assert (a + b)[1..] == a[1..] + b;
      MatchingDistributes(a[1..], b, query);
    }
  }

  /** The empty query is contained in everything, so the general branch would keep all too. */
  lemma {:induction false} EmptyQueryKeepsAll(s: seq<SmsMessage>)
    ensures Matching(s, []) == s
  {
    if s != [] {
      assert OccursAt(Lower(s[0].body), Lower([]), 0);
      EmptyQueryKeepsAll(s[1..]);
    }
  }

  // ---------------------------------------------------------------------
  // The adapter
  // ---------------------------------------------------------------------

  class SmsAdapter {
    var messages: seq<SmsMessage>
    var filteredMessages: seq<SmsMessage>

    /** The view shows some of the loaded messages, in their order. */
    ghost predicate Valid()
      reads this
    {
      IsSubsequence(filteredMessages, messages)
    }

    constructor ()
      ensures Valid()
      ensures messages == [] && filteredMessages == []
    {
      messages := [];
      filteredMessages := [];
    }

    /** `getItemCount`. */
    function ItemCount(): (n: nat)
      reads this
      ensures Valid() ==> n <= |messages|
    {
      SubsequenceNoLonger(filteredMessages, messages);
      |filteredMessages|
    }

    /** `onBindViewHolder(holder, position)`: the row shows the filtered message at that position. */
    method BindViewHolder(position: nat) returns (v: ItemView)
      requires position < |filteredMessages|
      ensures v == BindItem(filteredMessages[position])
    {
      v := BindItem(filteredMessages[position]);
    }

    /** `setMessages`: a new list replaces both views, dropping any active filter. */
    method SetMessages(newMessages: seq<SmsMessage>)
      modifies this
      ensures Valid()
      ensures messages == newMessages && filteredMessages == newMessages
    {
      SubsequenceOfItself(newMessages);
      messages := newMessages;
      filteredMessages := newMessages;
    }

    /** `filter(query)`: re-derived from the full list every time; the full list is kept. */
    method Filter(query: string)
      modifies this
      ensures Valid()
      ensures messages == old(messages)
      ensures filteredMessages == Filtered(messages, query)
    {
      filteredMessages := if query == [] then messages else Matching(messages, query);
      assert filteredMessages == Filtered(messages, query);
    }
  }

  /** A second query replaces the first: the view depends only on the full list and the last query. */
  method RetypeQuery(adapter: SmsAdapter, first: string, second: string)
    modifies adapter
    ensures adapter.Valid()
    ensures adapter.messages == old(adapter.messages)
    ensures adapter.filteredMessages == Filtered(old(adapter.messages), second)
  {
    adapter.Filter(first);
    adapter.Filter(second);
  }
}
