/** The application's in-memory message ledger: ten-slot arrays of sent,
    discarded and stored messages, the hashes and IDs of the sent ones kept
    in step, and a counter per array. Dialog inputs are parameters and
    dialog outputs are results. */
module StructuMessage {
  import opened JavaStrings
  import opened MessageJson
  import opened Messages

  const Capacity := 10

  /* ------------------------------------------------------------------ */
  /* Specification functions over slot sequences                         */

  /** The occupied slots, in index order. */
  function Present(slots: seq<Message?>): (r: seq<Message>)
    ensures |r| <= |slots|
    ensures forall m :: m in r ==> m in slots
  {
    if slots == [] then []
    else
      var last := slots[|slots| - 1];
      Present(slots[..|slots| - 1]) + (if last != null then [last] else [])
  }

  /** A slot addressed to `recipient`. */
  predicate AddressedTo(m: Message?, recipient: string)
    reads m
  {
    m != null && m.recipient == recipient
  }

  /** One line `- body` plus `suffix` for each occupied slot addressed to
      `recipient`, in index order. */
  function Listing(slots: seq<Message?>, recipient: string, suffix: string): (text: string)
    reads set m: Message | m in slots
  {
    if slots == [] then ""
    else
      var last := slots[|slots| - 1];
      Listing(slots[..|slots| - 1], recipient, suffix)
      + (if AddressedTo(last, recipient) then "- " + last.message + suffix else "")
  }

  /** A listing is empty exactly when no slot is addressed to the recipient. */
  lemma {:induction false} ListingEmpty(slots: seq<Message?>, recipient: string, suffix: string)
    ensures Listing(slots, recipient, suffix) == ""
            <==> forall k :: 0 <= k < |slots| ==> !AddressedTo(slots[k], recipient)
  {
    if slots != [] {
      var init := slots[..|slots| - 1];
      ListingEmpty(init, recipient, suffix);
      assert forall k :: 0 <= k < |init| ==> init[k] == slots[k];
    }
  }

  lemma {:induction false} PresentAppend(a: seq<Message?>, b: seq<Message?>)
    ensures Present(a + b) == Present(a) + Present(b)
    decreases |b|
  {
    if b != [] {
      var init := b[..|b| - 1];
      var last := b[|b| - 1];
      var tail: seq<Message> := if last != null then [last] else [];
      assert (a + b)[..|a + b| - 1] == a + init;
      assert (a + b)[|a + b| - 1] == last;
      assert Present(a + b) == Present(a + init) + tail;
      PresentAppend(a, init);
      assert Present(b) == Present(init) + tail;
    } else {
      assert a + b == a;
    }
  }

  /** Clearing an occupied slot removes exactly that message from the
      occupied slots, and keeps the others in order. */
  lemma ClearRemovesOne(slots: seq<Message?>, i: nat)
    requires i < |slots| && slots[i] != null
    ensures Present(slots) == Present(slots[..i]) + [slots[i]] + Present(slots[i + 1..])
    ensures Present(slots[i := null]) == Present(slots[..i]) + Present(slots[i + 1..])
  {
    var cleared := slots[i := null];
    assert slots == slots[..i] + [slots[i]] + slots[i + 1..];
    assert cleared == slots[..i] + [null] + slots[i + 1..];
    PresentAppend(slots[..i] + [slots[i]], slots[i + 1..]);
    PresentAppend(slots[..i], [slots[i]]);
    PresentAppend(slots[..i] + [null], slots[i + 1..]);
    PresentAppend(slots[..i], [null]);
    assert Present([slots[i]]) == [slots[i]] by {
      assert [slots[i]][..0] == [];
    }
    var gap: seq<Message?> := [null];
    assert Present(gap) == [] by {
      assert gap[..0] == [];
    }
  }

  /** Every slot value of the ledger. */
  datatype LedgerState = LedgerState(
    sent: seq<Message?>, disregarded: seq<Message?>, stored: seq<Message?>,
    hashes: seq<Nullable<string>>, ids: seq<Nullable<string>>,
    sentCount: int, discardCount: int, storeCount: int)

  /** The slot values of a ledger as `Valid` leaves them: ten slots per
      array and counters within them. */
  predicate Shaped(s: LedgerState)
  {
    && |s.sent| == Capacity && |s.disregarded| == Capacity && |s.stored| == Capacity
    && |s.hashes| == Capacity && |s.ids| == Capacity
    && 0 <= s.sentCount <= Capacity && 0 <= s.discardCount <= Capacity && 0 <= s.storeCount <= Capacity
  }

  /** Whether the chosen action is carried out: send while a sent slot is
      free, discard and store always. */
  predicate Succeeds(s: LedgerState, action: int)
  {
    (action == 0 && s.sentCount < Capacity) || action == 1 || action == 2
  }

  /** The slot values after the chosen action on a message: send fills the
      next sent slot and records the message's hash and ID beside it while
      there is room; discard and store fill the next slot of their array;
      any other action, or send on a full array, leaves everything as it was. */
  function AfterAction(s: LedgerState, action: int, msg: Message, hash: string, id: string): (t: LedgerState)
    requires Shaped(s)
    requires action == 1 ==> s.discardCount < Capacity
    requires action == 2 ==> s.storeCount < Capacity
  {
    if action == 0 && s.sentCount < Capacity then
      s.(sent := s.sent[s.sentCount := msg],
         hashes := s.hashes[s.sentCount := NonNull(hash)],
         ids := s.ids[s.sentCount := NonNull(id)],
         sentCount := s.sentCount + 1)
    else if action == 1 then
      s.(disregarded := s.disregarded[s.discardCount := msg], discardCount := s.discardCount + 1)
    else if action == 2 then
      s.(stored := s.stored[s.storeCount := msg], storeCount := s.storeCount + 1)
    else s
  }

  /** An action that is carried out fills exactly one slot and raises exactly
      one counter by one, in the array it names, leaving the other arrays and
      counters alone; one that is not carried out changes nothing. The sent
      message's hash and ID land in the slot beside it. */
  lemma ActionFillsOneSlot(s: LedgerState, action: int, msg: Message, hash: string, id: string)
    requires Shaped(s)
    requires action == 1 ==> s.discardCount < Capacity
    requires action == 2 ==> s.storeCount < Capacity
    ensures var t := AfterAction(s, action, msg, hash, id);
      && Shaped(t)
      && t.sentCount + t.discardCount + t.storeCount
         == s.sentCount + s.discardCount + s.storeCount + (if Succeeds(s, action) then 1 else 0)
      && (!Succeeds(s, action) ==> t == s)
      && (Succeeds(s, action) && action == 0 ==>
            t.sent[s.sentCount] == msg && t.hashes[s.sentCount] == NonNull(hash)
            && t.ids[s.sentCount] == NonNull(id)
            && t.disregarded == s.disregarded && t.stored == s.stored)
      && (action == 1 ==> t.disregarded[s.discardCount] == msg && t.sent == s.sent && t.stored == s.stored)
      && (action == 2 ==> t.stored[s.storeCount] == msg && t.sent == s.sent && t.disregarded == s.disregarded)
      && (forall k :: 0 <= k < Capacity && k != s.sentCount ==> t.sent[k] == s.sent[k])
  {
  }

  class Ledger {
    const sentMessages: array<Message?>
    const disregardedMessages: array<Message?>
    const storedMessages: array<Message?>
    const messageHashes: array<Nullable<string>>
    const messageIDs: array<Nullable<string>>
    var sentCount: int
    var discardCount: int
    var storeCount: int

    function State(): LedgerState
      reads this, sentMessages, disregardedMessages, storedMessages, messageHashes, messageIDs
    {
      LedgerState(sentMessages[..], disregardedMessages[..], storedMessages[..],
                  messageHashes[..], messageIDs[..], sentCount, discardCount, storeCount)
    }

    /** Ten slots per array; each counter is the number of slots filled from
        the front (a sent slot may since have been cleared); the hash and ID
        of every sent slot are recorded and nothing lies past a counter. */
    predicate Valid()
      reads this, sentMessages, disregardedMessages, storedMessages, messageHashes, messageIDs
    {
      && sentMessages.Length == Capacity && disregardedMessages.Length == Capacity
      && storedMessages.Length == Capacity
      && messageHashes.Length == Capacity && messageIDs.Length == Capacity
      && sentMessages != disregardedMessages && sentMessages != storedMessages
      && disregardedMessages != storedMessages && messageHashes != messageIDs
      && 0 <= sentCount <= Capacity && 0 <= discardCount <= Capacity && 0 <= storeCount <= Capacity
      && (forall i :: sentCount <= i < Capacity ==> sentMessages[i] == null)
      && (forall i :: sentCount <= i < Capacity ==> messageHashes[i] == Null && messageIDs[i] == Null)
      && (forall i :: 0 <= i < sentCount ==> messageHashes[i].NonNull? && messageIDs[i].NonNull?)
      && (forall i :: 0 <= i < Capacity ==> (disregardedMessages[i] != null <==> i < discardCount))
      && (forall i :: 0 <= i < Capacity ==> (storedMessages[i] != null <==> i < storeCount))
    }

    /** The static initialisers: five empty arrays and three zero counters. */
    constructor ()
      ensures Valid() && sentCount == 0 && discardCount == 0 && storeCount == 0
      ensures fresh(sentMessages) && fresh(disregardedMessages) && fresh(storedMessages)
      ensures fresh(messageHashes) && fresh(messageIDs)
      ensures Present(sentMessages[..]) == []
    {
      sentMessages := new Message?[Capacity](_ => null);
      disregardedMessages := new Message?[Capacity](_ => null);
      storedMessages := new Message?[Capacity](_ => null);
      messageHashes := new Nullable<string>[Capacity](_ => Null);
      messageIDs := new Nullable<string>[Capacity](_ => Null);
      sentCount := 0;
      discardCount := 0;
      storeCount := 0;
      new;
      NoneArePresent(sentMessages[..]);
    }

    /** `sendMessage(msgNum)`, with the recipient, the body, the chosen
        action (0 send, 1 discard, 2 store) and the ID draws as parameters.
        A bad recipient or an over-long body is refused before any message
        is built; otherwise the message is built and the action applied as
        `AfterAction` describes, storing also writing the message's line to
        the file. `msg` is the message built, null when refused early. */
    method SendMessage(msgNum: int, recipient: string, content: string, action: int,
                       draws: seq<int>, shared: SharedState)
      returns (ok: bool, msg: Message?)
      requires Valid() && ValidDraws(draws)
      requires CheckRecipientCell(recipient) && |content| <= MaxLength && action == 1 ==> discardCount < Capacity
      requires CheckRecipientCell(recipient) && |content| <= MaxLength && action == 2 ==> storeCount < Capacity
      modifies this, sentMessages, disregardedMessages, storedMessages, messageHashes, messageIDs, shared
      ensures Valid()
      ensures shared.totalMessages == old(shared.totalMessages)
      ensures !CheckRecipientCell(recipient) || ValidateMessageLength(content) != ReadyText ==>
        && !ok && msg == null
        && State() == old(State()) && shared.jsonLines == old(shared.jsonLines)
      ensures CheckRecipientCell(recipient) && ValidateMessageLength(content) == ReadyText ==>
        && msg != null && fresh(msg)
        && msg.recipient == recipient && msg.message == content
        && IsGeneratedId(msg.messageID)
        && msg.messageHash == CreateMessageHash(msg.messageID, msgNum, content)
      ensures msg != null ==>
        && ok == Succeeds(old(State()), action)
        && State() == AfterAction(old(State()), action, msg, msg.messageHash, msg.messageID)
        && shared.jsonLines == old(shared.jsonLines) + (if action == 2 then [EncodeLine(msg.Stored())] else [])
    {
      msg := null;
      if !CheckRecipientCell(recipient) {
        return false, msg;
      }
      var feedback := ValidateMessageLength(content);
      LengthFeedback(content);
      if feedback != ReadyText {
        return false, msg;
      }
      var m := new Message(recipient, content, msgNum, draws);
      msg := m;
      ok := Dispatch(m, action, shared);
    }

    /** The chosen action on a built message. */
    method Dispatch(msg: Message, action: int, shared: SharedState) returns (ok: bool)
      requires Valid()
      requires action == 1 ==> discardCount < Capacity
      requires action == 2 ==> storeCount < Capacity
      modifies this, sentMessages, disregardedMessages, storedMessages, messageHashes, messageIDs, shared
      ensures Valid()
      ensures ok == Succeeds(old(State()), action)
      ensures State() == AfterAction(old(State()), action, msg, msg.messageHash, msg.messageID)
      ensures shared.jsonLines == old(shared.jsonLines) + (if action == 2 then [EncodeLine(msg.Stored())] else [])
      ensures shared.totalMessages == old(shared.totalMessages)
    {
      if action == 0 {
        ok := RecordSent(msg);
      } else if action == 1 {
        RecordDiscarded(msg);
        ok := true;
      } else if action == 2 {
        msg.StoreMessageToJson(shared);
        RecordStored(msg);
        ok := true;
      } else {
        ok := false;
      }
    }

    /** The send action: the next sent slot and its hash and ID, while
        there is room. */
    method RecordSent(msg: Message) returns (ok: bool)
      requires Valid()
      modifies this, sentMessages, messageHashes, messageIDs
      ensures Valid()
      ensures ok == Succeeds(old(State()), 0)
      ensures State() == AfterAction(old(State()), 0, msg, msg.messageHash, msg.messageID)
    {
      if sentCount < sentMessages.Length {
        sentMessages[sentCount] := msg;
        messageHashes[sentCount] := NonNull(msg.messageHash);
        messageIDs[sentCount] := NonNull(msg.messageID);
        sentCount := sentCount + 1;
        ok := true;
      } else {
        ok := false;
      }
    }

    /** The discard action: the next discarded slot; past ten the Java array
        store fails, so there must be room. */
    method RecordDiscarded(msg: Message)
      requires Valid() && discardCount < Capacity
      modifies this, disregardedMessages
      ensures Valid()
      ensures State() == AfterAction(old(State()), 1, msg, msg.messageHash, msg.messageID)
    {
      disregardedMessages[discardCount] := msg;
      discardCount := discardCount + 1;
    }

    /** The store action's array part: the next stored slot, which must exist. */
    method RecordStored(msg: Message)
      requires Valid() && storeCount < Capacity
      modifies this, storedMessages
      ensures Valid()
      ensures State() == AfterAction(old(State()), 2, msg, msg.messageHash, msg.messageID)
    {
      storedMessages[storeCount] := msg;
      storeCount := storeCount + 1;
    }

    /** Every cleared sent slot comes after a slot whose message matches:
        the search stops before it would dereference the cleared slot. */
    predicate ClearedAfterIDMatch(id: string)
      reads this, sentMessages, set i | 0 <= i < sentMessages.Length :: sentMessages[i]
    {
      forall i :: 0 <= i < sentCount && i < sentMessages.Length && sentMessages[i] == null ==>
        exists j :: 0 <= j < i && sentMessages[j] != null && sentMessages[j].messageID == id
    }

    predicate ClearedAfterHashMatch(hash: string)
      reads this, sentMessages, set i | 0 <= i < sentMessages.Length :: sentMessages[i]
    {
      forall i :: 0 <= i < sentCount && i < sentMessages.Length && sentMessages[i] == null ==>
        exists j :: 0 <= j < i && sentMessages[j] != null && sentMessages[j].messageHash == hash
    }

    /** `searchByMessageID`: the first sent slot whose ID equals `id`, with
        the text shown for it, or -1 and the not-found text. */
    method SearchByMessageID(id: string) returns (index: int, shown: string)
      requires Valid() && ClearedAfterIDMatch(id)
      ensures -1 <= index < sentCount
      ensures forall j :: 0 <= j < (if index == -1 then sentCount else index) ==>
        sentMessages[j] != null && sentMessages[j].messageID != id
      ensures index >= 0 ==>
        && sentMessages[index] != null && sentMessages[index].messageID == id
        && shown == "Recipient: " + sentMessages[index].recipient + "\nMessage: " + sentMessages[index].message
      ensures index == -1 ==> shown == "Message ID not found."
    {
      var i := 0;
      while i < sentCount
        invariant 0 <= i <= sentCount
        invariant forall j :: 0 <= j < i ==> sentMessages[j] != null && sentMessages[j].messageID != id
      {
        if sentMessages[i].messageID == id {
          return i, "Recipient: " + sentMessages[i].recipient + "\nMessage: " + sentMessages[i].message;
        }
        i := i + 1;
      }
      return -1, "Message ID not found.";
    }

    /** `showLongestMessage`: the body of the earliest sent message of
        greatest length, or "" when nothing was sent. */
    method ShowLongestMessage() returns (longest: string)
      requires Valid()
      requires forall i :: 0 <= i < sentCount ==> sentMessages[i] != null
      ensures forall j :: 0 <= j < sentCount ==> |sentMessages[j].message| <= |longest|
      ensures sentCount == 0 ==> longest == ""
      ensures sentCount > 0 ==>
        exists k :: 0 <= k < sentCount && longest == sentMessages[k].message
                    && forall j :: 0 <= j < k ==> |sentMessages[j].message| < |longest|
    {
      longest := "";
      ghost var at := 0;
      for i := 0 to sentCount
        invariant forall j :: 0 <= j < i ==> |sentMessages[j].message| <= |longest|
        invariant i == 0 ==> longest == ""
        invariant i > 0 ==> 0 <= at < i && longest == sentMessages[at].message
        invariant i > 0 ==> forall j :: 0 <= j < at ==> |sentMessages[j].message| < |longest|
        invariant i > 0 && longest == "" ==> at == 0
      {
        if |sentMessages[i].message| > |longest| {
          longest := sentMessages[i].message;
          at := i;
        } else if i == 0 {
          at := 0;
        }
      }
    }

    /** `searchByRecipient`: the header, then every sent slot addressed to
        `recipient`, then every stored one tagged as stored, each group in
        slot order, cleared slots skipped. The header is never empty, so the
        not-found text is never shown. */
    method SearchByRecipient(recipient: string) returns (shown: string)
      requires Valid()
      ensures shown == "Messages sent/stored to " + recipient + ":\n"
                       + Listing(sentMessages[..], recipient, "\n")
                       + Listing(storedMessages[..], recipient, " (stored)\n")
    {
      var found := "Messages sent/stored to " + recipient + ":\n";
      var header := found;
      for i := 0 to sentMessages.Length
        invariant found == header + Listing(sentMessages[..i], recipient, "\n")
      {
        assert sentMessages[..i + 1][..i] == sentMessages[..i];
        var m := sentMessages[i];
        if m != null && m.recipient == recipient {
          found := found + "- " + m.message + "\n";
        }
      }
      assert sentMessages[..sentMessages.Length] == sentMessages[..];
      var afterSent := found;
      for i := 0 to storedMessages.Length
        invariant found == afterSent + Listing(storedMessages[..i], recipient, " (stored)\n")
      {
        assert storedMessages[..i + 1][..i] == storedMessages[..i];
        var m := storedMessages[i];
        if m != null && m.recipient == recipient {
          found := found + "- " + m.message + " (stored)\n";
        }
      }
      assert storedMessages[..storedMessages.Length] == storedMessages[..];
      shown := if |found| > 0 then found else "No messages found.";
    }

    /** `deleteByMessageHash`: clears the first sent slot whose message has
        the given hash and leaves everything else, the counters and the hash
        and ID arrays included, as it was; with no match nothing changes. */
    method DeleteByMessageHash(hash: string) returns (index: int, shown: string)
      requires Valid() && ClearedAfterHashMatch(hash)
      modifies sentMessages
      ensures Valid()
      ensures -1 <= index < sentCount
      ensures forall j :: 0 <= j < (if index == -1 then sentCount else index) ==>
        old(sentMessages[j]) != null && old(sentMessages[j]).messageHash != hash
      ensures index >= 0 ==>
        && old(sentMessages[index]) != null && old(sentMessages[index]).messageHash == hash
        && State() == old(State()).(sent := old(sentMessages[..])[index := null])
        && shown == "Message \"" + old(sentMessages[index]).message + "\" successfully deleted."
      ensures index == -1 ==> State() == old(State()) && shown == "Hash not found."
    {
      var i := 0;
      while i < sentCount
        invariant 0 <= i <= sentCount
        invariant forall j :: 0 <= j < i ==> sentMessages[j] != null && sentMessages[j].messageHash != hash
      {
        if sentMessages[i].messageHash == hash {
          shown := "Message \"" + sentMessages[i].message + "\" successfully deleted.";
          sentMessages[i] := null;
          return i, shown;
        }
        i := i + 1;
      }
      return -1, "Hash not found.";
    }

    /** `displayReport`: the occupied sent slots, in order (the report shows
        each one's hash, recipient and body). */
    method DisplayReport() returns (shown: seq<Message>)
      requires Valid()
      ensures shown == Present(sentMessages[..sentCount])
    {
      shown := [];
      for i := 0 to sentCount
        invariant shown == Present(sentMessages[..i])
      {
        assert sentMessages[..i + 1][..i] == sentMessages[..i];
        if sentMessages[i] != null {
          shown := shown + [sentMessages[i]];
        }
      }
    }
  }

  lemma {:induction false} NoneArePresent(slots: seq<Message?>)
    requires forall i :: 0 <= i < |slots| ==> slots[i] == null
    ensures Present(slots) == []
  {
    if slots != [] {
      NoneArePresent(slots[..|slots| - 1]);
    }
  }

  /** After a delete, the report lists the same messages less the deleted one. */
  lemma DeleteLeavesReport(before: seq<Message?>, index: nat, count: nat)
    requires index < count <= |before| && before[index] != null
    ensures Present(before[..count])
            == Present(before[..index]) + [before[index]] + Present(before[index + 1..count])
    ensures Present(before[index := null][..count])
            == Present(before[..index]) + Present(before[index + 1..count])
  {
    var s := before[..count];
    ClearRemovesOne(s, index);
    assert s[..index] == before[..index];
    assert s[index + 1..] == before[index + 1..count];
    assert before[index := null][..count] == s[index := null];
  }
}
