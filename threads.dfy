/**
 * One-to-one conversation threads: the participant list a call/text thread
 * is parsed into, the choice of each message's recipient, and the writing
 * of a thread's identities and messages into the store, for the call/text
 * export and for the Messenger export.
 */
module Threads {
  import opened Wrappers
  import opened Schema

  /** One message of a 1:1 text thread: the sender's `tel:` link, its text, the message text and time. */
  datatype TextMessage = TextMessage(idString: string, senderName: string, text: string, dateTime: Timestamp)

  /** A parsed 1:1 text thread: its messages and the participants with their display names, index-aligned. */
  datatype TextThread = TextThread(messages: seq<TextMessage>, idStrings: seq<string>, displayNames: seq<string>)

  /** One Messenger message; `content` is absent for stickers, photos and the like. */
  datatype MessengerMessage = MessengerMessage(senderName: string, content: Option<string>, timestamp: Timestamp)

  ghost predicate NoDuplicates(s: seq<string>) {
    forall i, j :: 0 <= i < j < |s| ==> s[i] != s[j]
  }

  // ------------------------------------------------------------ participants

  /** The position of the first message sent from `id`, or the number of messages if there is none. */
  function FirstSent(messages: seq<TextMessage>, id: string): (r: nat)
    ensures r <= |messages|
    ensures r < |messages| ==> messages[r].idString == id
    ensures forall m :: 0 <= m < r ==> messages[m].idString != id
  {
    if messages == [] then 0
    else if messages[0].idString == id then 0
    else 1 + FirstSent(messages[1..], id)
  }

  /**
   * Where a participant enters the list: the sender of message j at 2j, and
   * the owner's phone at 1, right after the first sender, unless the owner
   * sent the first message.
   */
  function Rank(messages: seq<TextMessage>, selfPhone: string, id: string): (r: nat)
    ensures r < 2 * |messages| <==>
      (exists m :: 0 <= m < |messages| && messages[m].idString == id) || (id == selfPhone && messages != [])
  {
    if id == selfPhone && (messages == [] || messages[0].idString != selfPhone) then 1
    else 2 * FirstSent(messages, id)
  }

  /** The display name listed for a participant: "Me" for the owner added implicitly, else its first message's sender text. */
  function ListedName(messages: seq<TextMessage>, selfPhone: string, id: string): (r: string)
    ensures r == "Me" || r == "" || exists m :: 0 <= m < |messages| && messages[m].idString == id && messages[m].senderName == r
    ensures id != selfPhone && (exists m :: 0 <= m < |messages| && messages[m].idString == id) ==>
      r == messages[FirstSent(messages, id)].senderName
  {
    if id == selfPhone && (messages == [] || messages[0].idString != selfPhone) then "Me"
    else
      var m := FirstSent(messages, id);
      if m < |messages| then messages[m].senderName else ""
  }

  /**
   * What the participant list holds after the first `n` messages, with the
   * owner's phone already added (`withSelf`) or not yet.
   */
  ghost predicate ListedUpTo(messages: seq<TextMessage>, selfPhone: string, n: nat, withSelf: bool,
                             ids: seq<string>, names: seq<string>)
  {
    && n <= |messages|
    && |names| == |ids|
    && NoDuplicates(ids)
    && (n == 0 ==> ids == [])
    && (withSelf ==> selfPhone in ids)
    && (forall m :: 0 <= m < n ==> messages[m].idString in ids)
    && (forall k :: 0 <= k < |ids| ==> (withSelf && ids[k] == selfPhone) || FirstSent(messages, ids[k]) < n)
    && (forall k :: 0 <= k < |ids| ==> names[k] == ListedName(messages, selfPhone, ids[k]))
    && (forall k :: 0 <= k < |ids| ==> Rank(messages, selfPhone, ids[k]) < 2 * n)
    && (forall k, l :: 0 <= k < l < |ids| ==>
          Rank(messages, selfPhone, ids[k]) < Rank(messages, selfPhone, ids[l]))
  }

  /** Listing the sender of message n, seen for the first time, extends the list to n + 1 messages. */
  lemma ListSender(messages: seq<TextMessage>, selfPhone: string, n: nat, withSelf: bool,
                   ids: seq<string>, names: seq<string>)
    requires n < |messages| && ListedUpTo(messages, selfPhone, n, withSelf, ids, names)
    requires messages[n].idString !in ids
    requires withSelf == (n > 0)
    ensures ListedUpTo(messages, selfPhone, n + 1, withSelf,
      ids + [messages[n].idString], names + [messages[n].senderName])
  {
    var s := messages[n].idString;
    var ids', names' := ids + [s], names + [messages[n].senderName];
    assert FirstSent(messages, s) == n;
    assert Rank(messages, selfPhone, s) == 2 * n && ListedName(messages, selfPhone, s) == messages[n].senderName by {
      assert withSelf ==> s != selfPhone;
    }
    forall k | 0 <= k < |ids'|
      ensures names'[k] == ListedName(messages, selfPhone, ids'[k])
      ensures Rank(messages, selfPhone, ids'[k]) < 2 * (n + 1)
      ensures (withSelf && ids'[k] == selfPhone) || FirstSent(messages, ids'[k]) < n + 1
    {
      if k < |ids| {
        assert ids'[k] == ids[k] && names'[k] == names[k];
      }
    }
    forall k, l | 0 <= k < l < |ids'|
      ensures ids'[k] != ids'[l]
      ensures Rank(messages, selfPhone, ids'[k]) < Rank(messages, selfPhone, ids'[l])
    {
      assert ids'[k] == ids[k];
      if l < |ids| {
        assert ids'[l] == ids[l];
      }
    }
  }

  /** A sender already listed leaves the list as it is for n + 1 messages. */
  lemma SenderListed(messages: seq<TextMessage>, selfPhone: string, n: nat, withSelf: bool,
                     ids: seq<string>, names: seq<string>)
    requires n < |messages| && ListedUpTo(messages, selfPhone, n, withSelf, ids, names)
    requires messages[n].idString in ids
    ensures ListedUpTo(messages, selfPhone, n + 1, withSelf, ids, names)
  {
  }

  /** After the first message, adding the owner's phone as "Me" completes the list. */
  lemma ListSelf(messages: seq<TextMessage>, selfPhone: string, ids: seq<string>, names: seq<string>)
    requires |messages| > 0 && ListedUpTo(messages, selfPhone, 1, false, ids, names)
    requires selfPhone !in ids
    ensures ListedUpTo(messages, selfPhone, 1, true, ids + [selfPhone], names + ["Me"])
  {
    assert messages[0].idString != selfPhone;
  }

  /**
   * The participant list of a 1:1 text thread: every sender once, in order of
   * first appearance, with the owner's phone added after the first message
   * when it is not there yet.
   */
  method ParseTextThread(messages: seq<TextMessage>, selfPhone: string) returns (thread: TextThread)
    ensures thread.messages == messages
    ensures |thread.displayNames| == |thread.idStrings|
    ensures NoDuplicates(thread.idStrings)
    ensures messages == [] ==> thread.idStrings == []
    ensures messages != [] ==> selfPhone in thread.idStrings
    ensures forall m :: 0 <= m < |messages| ==> messages[m].idString in thread.idStrings
    ensures forall k :: 0 <= k < |thread.idStrings| ==>
      thread.idStrings[k] == selfPhone || FirstSent(messages, thread.idStrings[k]) < |messages|
    ensures forall k :: 0 <= k < |thread.idStrings| ==>
      thread.displayNames[k] == ListedName(messages, selfPhone, thread.idStrings[k])
    ensures forall k, l :: 0 <= k < l < |thread.idStrings| ==>
      Rank(messages, selfPhone, thread.idStrings[k]) < Rank(messages, selfPhone, thread.idStrings[l])
  {
    var idStrings: seq<string> := [];
    var names: seq<string> := [];
    for j := 0 to |messages|
      invariant ListedUpTo(messages, selfPhone, j, j > 0, idStrings, names)
    {
      var msg := messages[j];
      if msg.idString !in idStrings {
        ListSender(messages, selfPhone, j, j > 0, idStrings, names);
        idStrings := idStrings + [msg.idString];
        names := names + [msg.senderName];
      } else {
        SenderListed(messages, selfPhone, j, j > 0, idStrings, names);
      }
      if selfPhone !in idStrings {
        ListSelf(messages, selfPhone, idStrings, names);
        idStrings := idStrings + [selfPhone];
        names := names + ["Me"];
      }
    }
    thread := TextThread(messages, idStrings, names);
  }

  // --------------------------------------------------------------- recipient

  /**
   * The recipient of a message in a 1:1 thread: the first listed participant
   * that is not the sender, or the sender itself when every participant is
   * the sender (a message to oneself).
   */
  function Recipient(participants: seq<string>, sender: string): (r: string)
    ensures r == sender <==> forall k :: 0 <= k < |participants| ==> participants[k] == sender
    ensures r != sender ==> exists k :: (0 <= k < |participants| && participants[k] == r
      && forall j :: 0 <= j < k ==> participants[j] == sender)
  {
    if participants == [] then sender
    else if participants[0] != sender then participants[0]
    else
      var r := Recipient(participants[1..], sender);
      assert forall k :: 1 <= k < |participants| ==> participants[k] == participants[1..][k - 1];
      r
  }

  /** In a two-party thread each side's messages go to the other side. */
  lemma RecipientOfPair(a: string, b: string)
    requires a != b
    ensures Recipient([a, b], a) == b && Recipient([a, b], b) == a
  {
  }

  // ----------------------------------------------------------------- writing

  /** `row` is the message written for one sent from `senderId` to `recipientId` on `platform`. */
  ghost predicate WrittenAs(ids: seq<Identity>, platform: nat, senderId: string, recipientId: string,
                            text: Option<string>, timestamp: Timestamp, row: Message)
  {
    && row.text == text
    && row.timestamp == timestamp
    && row.sender == FindIdentity(ids, senderId, platform)
    && FindIdentity(ids, recipientId, platform) == Some(row.recipient)
  }

  /** Every listed participant has an identity on the platform. */
  ghost predicate Registered(ids: seq<Identity>, platform: nat, idStrings: seq<string>) {
    forall s :: s in idStrings ==> FindIdentity(ids, s, platform).Some?
  }

  /** Every identity in `added` is a listed participant on the platform, with the name listed beside it and no person. */
  ghost predicate ListedIdentities(added: seq<Identity>, platform: nat, idStrings: seq<string>, displayNames: seq<string>)
    requires |displayNames| == |idStrings|
  {
    forall i :: 0 <= i < |added| ==>
      exists k :: 0 <= k < |idStrings| && added[i] == Identity(idStrings[k], platform, Some(displayNames[k]), None)
  }

  /** `written` is one message per text message, in order, each from its sender to its recipient among `idStrings`. */
  ghost predicate TextWritten(ids: seq<Identity>, platform: nat, idStrings: seq<string>,
                              messages: seq<TextMessage>, written: seq<Message>)
  {
    && |written| == |messages|
    && forall m :: 0 <= m < |messages| ==>
         WrittenAs(ids, platform, messages[m].idString, Recipient(idStrings, messages[m].idString),
           Some(messages[m].text), messages[m].dateTime, written[m])
  }

  /** `written` is one message per Messenger message, in order, each from its sender to its recipient among `participants`. */
  ghost predicate MessengerWritten(ids: seq<Identity>, platform: nat, participants: seq<string>,
                                   messages: seq<MessengerMessage>, written: seq<Message>)
  {
    && |written| == |messages|
    && forall m :: 0 <= m < |messages| ==>
         WrittenAs(ids, platform, messages[m].senderName, Recipient(participants, messages[m].senderName),
           messages[m].content, messages[m].timestamp, written[m])
  }

  lemma ListedIdentitiesAppend(added: seq<Identity>, platform: nat, idStrings: seq<string>,
                               displayNames: seq<string>, k: nat)
    requires |displayNames| == |idStrings| && k < |idStrings|
    requires ListedIdentities(added, platform, idStrings, displayNames)
    ensures ListedIdentities(added + [Identity(idStrings[k], platform, Some(displayNames[k]), None)],
      platform, idStrings, displayNames)
  {
    var r := added + [Identity(idStrings[k], platform, Some(displayNames[k]), None)];
    forall i | 0 <= i < |r|
      ensures exists k' :: 0 <= k' < |idStrings| && r[i] == Identity(idStrings[k'], platform, Some(displayNames[k']), None)
    {
      if i < |added| {
        assert r[i] == added[i];
      } else {
        assert r[i] == Identity(idStrings[k], platform, Some(displayNames[k]), None);
      }
    }
  }

  /** Writing one more text message extends what has been written by one row. */
  lemma TextWrittenStep(ids: seq<Identity>, platform: nat, idStrings: seq<string>, messages: seq<TextMessage>,
                        m: nat, start: nat, before: seq<Message>, after: seq<Message>)
    requires m < |messages| && start <= |before|
    requires TextWritten(ids, platform, idStrings, messages[..m], before[start..])
    requires |after| == |before| + 1 && after[..|before|] == before
    requires WrittenAs(ids, platform, messages[m].idString, Recipient(idStrings, messages[m].idString),
      Some(messages[m].text), messages[m].dateTime, after[|before|])
    ensures TextWritten(ids, platform, idStrings, messages[..m + 1], after[start..])
  {
    forall i | 0 <= i < m
      ensures messages[..m + 1][i] == messages[..m][i] && after[start..][i] == before[start..][i]
    {
      assert after[start + i] == after[..|before|][start + i];
    }
  }

  /** Writing one more Messenger message extends what has been written by one row. */
  lemma MessengerWrittenStep(ids: seq<Identity>, platform: nat, participants: seq<string>,
                             messages: seq<MessengerMessage>, written: seq<Message>, msg: MessengerMessage, row: Message)
    requires MessengerWritten(ids, platform, participants, messages, written)
    requires WrittenAs(ids, platform, msg.senderName, Recipient(participants, msg.senderName), msg.content, msg.timestamp, row)
    ensures MessengerWritten(ids, platform, participants, messages + [msg], written + [row])
  {
    assert forall m :: 0 <= m < |messages| ==> (messages + [msg])[m] == messages[m] && (written + [row])[m] == written[m];
  }

  /**
   * Registers each listed participant on the platform with the display name
   * listed beside it (existing identities are kept as they are).
   */
  method RegisterParticipants(store: Store, platform: nat, idStrings: seq<string>, displayNames: seq<string>)
    requires store.Valid()
    requires platform < |store.platforms|
    requires |displayNames| == |idStrings|
    modifies store
    ensures store.Valid()
    ensures store.platforms == old(store.platforms) && store.people == old(store.people)
    ensures store.messages == old(store.messages)
    ensures old(store.identities) <= store.identities
    ensures IdentityKeysUnique(old(store.identities)) ==> IdentityKeysUnique(store.identities)
    ensures Registered(store.identities, platform, idStrings)
    ensures ListedIdentities(store.identities[|old(store.identities)|..], platform, idStrings, displayNames)
  {
    ghost var start := store.identities;
    for k := 0 to |idStrings|
      invariant store.Valid()
      invariant store.platforms == old(store.platforms) && store.people == old(store.people)
      invariant store.messages == old(store.messages)
      invariant start <= store.identities
      invariant IdentityKeysUnique(start) ==> IdentityKeysUnique(store.identities)
      invariant Registered(store.identities, platform, idStrings[..k])
      invariant ListedIdentities(store.identities[|start|..], platform, idStrings, displayNames)
    {
      ghost var before := store.identities;
      var _ := store.GetOrCreateIdentity(idStrings[k], platform, Some(displayNames[k]));
      RegisteredStep(before, store.identities, platform, idStrings, k);
      if |store.identities| > |before| {
        ListedIdentitiesAppend(before[|start|..], platform, idStrings, displayNames, k);
        assert store.identities[|start|..]
          == before[|start|..] + [Identity(idStrings[k], platform, Some(displayNames[k]), None)];
      }
    }
    assert idStrings[..|idStrings|] == idStrings;
  }

  /** Registering participant k keeps the earlier ones registered. */
  lemma RegisteredStep(before: seq<Identity>, after: seq<Identity>, platform: nat, idStrings: seq<string>, k: nat)
    requires k < |idStrings| && before <= after
    requires Registered(before, platform, idStrings[..k])
    requires FindIdentity(after, idStrings[k], platform).Some?
    ensures Registered(after, platform, idStrings[..k + 1])
  {
    assert before + after[|before|..] == after;
    forall s | s in idStrings[..k + 1]
      ensures FindIdentity(after, s, platform).Some?
    {
      if s != idStrings[k] {
        assert s in idStrings[..k];
        FindIdentityStable(before, after[|before|..], s, platform);
      }
    }
  }

  /**
   * Writes the messages of a parsed 1:1 text thread whose participants are
   * registered: each from its sender to its recipient.
   */
  method WriteTextMessages(store: Store, platform: nat, thread: TextThread)
    requires store.Valid()
    requires Registered(store.identities, platform, thread.idStrings)
    requires forall m :: 0 <= m < |thread.messages| ==> thread.messages[m].idString in thread.idStrings
    modifies store
    ensures store.Valid()
    ensures store.platforms == old(store.platforms) && store.people == old(store.people)
    ensures store.identities == old(store.identities)
    ensures old(store.messages) <= store.messages
    ensures TextWritten(store.identities, platform, thread.idStrings, thread.messages,
      store.messages[|old(store.messages)|..])
  {
    ghost var start := store.messages;
    for m := 0 to |thread.messages|
      invariant store.Valid()
      invariant store.platforms == old(store.platforms) && store.people == old(store.people)
      invariant store.identities == old(store.identities)
      invariant start <= store.messages
      invariant TextWritten(store.identities, platform, thread.idStrings, thread.messages[..m], store.messages[|start|..])
    {
      var msg := thread.messages[m];
      var recipientTel := Recipient(thread.idStrings, msg.idString);
      assert recipientTel == msg.idString || recipientTel in thread.idStrings;
      var sender := FindIdentity(store.identities, msg.idString, platform);
      var recipient := FindIdentity(store.identities, recipientTel, platform);
      ghost var before := store.messages;
      var _ := store.RecordMessage(Some(msg.text), msg.dateTime, sender, recipient.value);
      TextWrittenStep(store.identities, platform, thread.idStrings, thread.messages, m, |start|, before, store.messages);
    }
    assert thread.messages[..|thread.messages|] == thread.messages;
  }

  /**
   * Writes a parsed 1:1 text thread: registers every participant on the
   * platform, then writes each message from its sender to its recipient.
   */
  method IngestTextThread(store: Store, platform: nat, thread: TextThread)
    requires store.Valid()
    requires platform < |store.platforms|
    requires |thread.displayNames| == |thread.idStrings|
    requires forall m :: 0 <= m < |thread.messages| ==> thread.messages[m].idString in thread.idStrings
    modifies store
    ensures store.Valid()
    ensures store.platforms == old(store.platforms) && store.people == old(store.people)
    ensures old(store.identities) <= store.identities
    ensures IdentityKeysUnique(old(store.identities)) ==> IdentityKeysUnique(store.identities)
    ensures Registered(store.identities, platform, thread.idStrings)
    ensures ListedIdentities(store.identities[|old(store.identities)|..], platform, thread.idStrings, thread.displayNames)
    ensures old(store.messages) <= store.messages
    ensures TextWritten(store.identities, platform, thread.idStrings, thread.messages,
      store.messages[|old(store.messages)|..])
  {
    RegisterParticipants(store, platform, thread.idStrings, thread.displayNames);
    WriteTextMessages(store, platform, thread);
  }

  /** The Messenger messages that are written: those with a non-empty sender name. */
  function Kept(messages: seq<MessengerMessage>): (r: seq<MessengerMessage>)
    ensures |r| <= |messages|
    ensures forall k :: 0 <= k < |r| ==> r[k].senderName != ""
  {
    if messages == [] then []
    else
      var last := messages[|messages| - 1];
      assert messages == messages[..|messages| - 1] + [last];
      Kept(messages[..|messages| - 1]) + (if last.senderName != "" then [last] else [])
  }

  /** A message is kept exactly when it is one of the thread's messages and has a sender name. */
  lemma {:induction false} KeptMembers(messages: seq<MessengerMessage>)
    ensures forall msg :: msg in Kept(messages) <==> msg in messages && msg.senderName != ""
    decreases |messages|
  {
    if messages != [] {
      var init, last := messages[..|messages| - 1], messages[|messages| - 1];
      assert messages == init + [last];
      KeptMembers(init);
    }
  }

  /** Skipping distributes over concatenation, so the kept messages keep their order. */
  lemma {:induction false} KeptAppend(a: seq<MessengerMessage>, b: seq<MessengerMessage>)
    ensures Kept(a + b) == Kept(a) + Kept(b)
    decreases |b|
  {
    if b == [] {
      assert a + b == a;
    } else {
      var init, last := b[..|b| - 1], b[|b| - 1];
      var tail := if last.senderName != "" then [last] else [];
      assert (a + b)[..|a + b| - 1] == a + init;
      assert (a + b)[|a + b| - 1] == last;
      assert Kept(a + b) == Kept(a + init) + tail;
      assert Kept(b) == Kept(init) + tail;
      KeptAppend(a, init);
    }
  }

  /**
   * Writes the messages of a 1:1 Messenger thread whose participants are
   * registered. Messages with an empty sender name are skipped; the sender's
   * identity is absent when the sender is not registered. A recipient that
   * is not registered aborts: the source fails there.
   */
  method WriteMessengerMessages(store: Store, platform: nat, participants: seq<string>,
                                messages: seq<MessengerMessage>)
    returns (outcome: Outcome<string>)
    requires store.Valid()
    requires Registered(store.identities, platform, participants)
    modifies store
    ensures store.Valid()
    ensures store.platforms == old(store.platforms) && store.people == old(store.people)
    ensures store.identities == old(store.identities)
    ensures old(store.messages) <= store.messages
    ensures outcome.Fail? ==> participants == []
    ensures outcome.Pass? ==>
      MessengerWritten(store.identities, platform, participants, Kept(messages), store.messages[|old(store.messages)|..])
  {
    outcome := Pass;
    ghost var start := store.messages;
    for m := 0 to |messages|
      invariant store.Valid()
      invariant store.platforms == old(store.platforms) && store.people == old(store.people)
      invariant store.identities == old(store.identities)
      invariant start <= store.messages
      invariant MessengerWritten(store.identities, platform, participants, Kept(messages[..m]), store.messages[|start|..])
    {
      var msg := messages[m];
      assert messages[..m + 1][..m] == messages[..m];
      if msg.senderName == "" {
        continue;
      }
      var sender := FindIdentity(store.identities, msg.senderName, platform);
      var recipientName := Recipient(participants, msg.senderName);
      var recipient := FindIdentity(store.identities, recipientName, platform);
      if recipient.None? {
        return Fail(recipientName);
      }
      ghost var before := store.messages;
      var _ := store.RecordMessage(msg.content, msg.timestamp, sender, recipient.value);
      MessengerWrittenStep(store.identities, platform, participants, Kept(messages[..m]), before[|start|..],
        msg, store.messages[|before|]);
      assert store.messages[|start|..] == before[|start|..] + [store.messages[|before|]];
    }
    assert messages[..|messages|] == messages;
  }

  /**
   * Writes one Messenger thread. Group threads (more than two participants)
   * are skipped. Otherwise every participant is registered under its name,
   * and the thread's messages are written.
   */
  method IngestMessengerThread(store: Store, platform: nat, participants: seq<string>,
                               messages: seq<MessengerMessage>)
    returns (outcome: Outcome<string>)
    requires store.Valid()
    requires platform < |store.platforms|
    modifies store
    ensures store.Valid()
    ensures store.platforms == old(store.platforms) && store.people == old(store.people)
    ensures old(store.identities) <= store.identities
    ensures old(store.messages) <= store.messages
    ensures IdentityKeysUnique(old(store.identities)) ==> IdentityKeysUnique(store.identities)
    ensures |participants| > 2 ==>
      outcome.Pass? && store.identities == old(store.identities) && store.messages == old(store.messages)
    ensures |participants| <= 2 ==> Registered(store.identities, platform, participants)
    ensures |participants| <= 2 ==>
      ListedIdentities(store.identities[|old(store.identities)|..], platform, participants, participants)
    ensures outcome.Fail? ==> participants == []
    ensures outcome.Pass? && |participants| <= 2 ==>
      MessengerWritten(store.identities, platform, participants, Kept(messages), store.messages[|old(store.messages)|..])
  {
    if |participants| > 2 {
      return Pass;
    }
    RegisterParticipants(store, platform, participants, participants);
    outcome := WriteMessengerMessages(store, platform, participants, messages);
  }
}
