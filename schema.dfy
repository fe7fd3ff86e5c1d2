/**
 * The relational store the pipeline writes into (one SQLAlchemy session),
 * as a class holding the four tables in row order: platforms, identities,
 * people and messages. A row's id is its position; a reference to a row is
 * that position.
 *
 * Here live the registrar operations `verify_or_make_platform` and
 * `get_or_create_identity`, the message writer, the contact-to-identity
 * loop and `Message.export_dict`.
 */
module Schema {
  import opened Wrappers
  import opened Contacts

  /** A communication service or data source; its name is unique in the store. */
  datatype Platform = Platform(name: string)

  /** "This person as known on this platform"; `person` is set by the resolver. */
  datatype Identity = Identity(
    idString: string,
    platform: nat,
    displayName: Option<string>,
    person: Option<nat>)

  /** A real individual, the target identities are linked to. */
  datatype Person = Person(name: string, isSelf: bool)

  /** A point in time as the source already converted and rendered it (its `str`). */
  datatype Timestamp = Timestamp(rendered: string)

  /** A directed message; `sender` is absent when the Messenger sender was never registered. */
  datatype Message = Message(
    text: Option<string>,
    timestamp: Timestamp,
    sender: Option<nat>,
    recipient: nat)

  /** The flat record `Message.export_dict` produces. */
  datatype ExportRecord = ExportRecord(
    messageId: nat,
    platform: string,
    senderName: Option<string>,
    recipientName: Option<string>,
    timestamp: string,
    content: Option<string>)

  /** `export_dict` dereferences the sender, which fails when it is absent. */
  datatype ExportError = MissingSender

  // ---------------------------------------------------------------- queries

  /** No two platforms carry the same name. */
  ghost predicate PlatformNamesUnique(platforms: seq<Platform>) {
    forall i, j :: 0 <= i < j < |platforms| ==> platforms[i].name != platforms[j].name
  }

  /** Every identity refers to an existing platform and, when linked, to an existing person. */
  ghost predicate IdentitiesFit(ids: seq<Identity>, platformCount: nat, peopleCount: nat) {
    forall i :: 0 <= i < |ids| ==>
      ids[i].platform < platformCount && (ids[i].person.Some? ==> ids[i].person.value < peopleCount)
  }

  /** Every message refers to existing identities. */
  ghost predicate MessagesFit(messages: seq<Message>, identityCount: nat) {
    forall m :: 0 <= m < |messages| ==>
      (messages[m].sender.Some? ==> messages[m].sender.value < identityCount)
      && messages[m].recipient < identityCount
  }

  /** At most one identity per (id_string, platform) pair. */
  ghost predicate IdentityKeysUnique(ids: seq<Identity>) {
    forall i, j :: 0 <= i < j < |ids| ==>
      ids[i].idString != ids[j].idString || ids[i].platform != ids[j].platform
  }

  /** The first platform with that name, in store order. */
  function FindPlatform(platforms: seq<Platform>, name: string): (r: Option<nat>)
    ensures r.Some? ==> r.value < |platforms| && platforms[r.value].name == name
    ensures r.Some? ==> forall q :: 0 <= q < r.value ==> platforms[q].name != name
    ensures r.None? ==> forall q :: 0 <= q < |platforms| ==> platforms[q].name != name
  {
    if platforms == [] then None
    else if platforms[0].name == name then Some(0)
    else match FindPlatform(platforms[1..], name)
      case None => None
      case Some(k) => Some(k + 1)
  }

  /** The first identity with that id_string on that platform, in store order. */
  function FindIdentity(ids: seq<Identity>, idString: string, platform: nat): (r: Option<nat>)
    ensures r.Some? ==> r.value < |ids| && ids[r.value].idString == idString && ids[r.value].platform == platform
    ensures r.Some? ==> forall q :: 0 <= q < r.value ==> ids[q].idString != idString || ids[q].platform != platform
    ensures r.None? ==> forall q :: 0 <= q < |ids| ==> ids[q].idString != idString || ids[q].platform != platform
  {
    if ids == [] then None
    else if ids[0].idString == idString && ids[0].platform == platform then Some(0)
    else match FindIdentity(ids[1..], idString, platform)
      case None => None
      case Some(k) => Some(k + 1)
  }

  /** Once an identity is appended for a key that was missing, the lookup finds exactly that row. */
  lemma FindIdentityAfterAppend(ids: seq<Identity>, id: Identity)
    requires FindIdentity(ids, id.idString, id.platform).None?
    ensures FindIdentity(ids + [id], id.idString, id.platform) == Some(|ids|)
    ensures IdentityKeysUnique(ids) ==> IdentityKeysUnique(ids + [id])
  {
    assert (ids + [id])[|ids|] == id;
  }

  /** Appending rows never changes what an earlier successful lookup found. */
  lemma FindIdentityStable(ids: seq<Identity>, more: seq<Identity>, idString: string, platform: nat)
    requires FindIdentity(ids, idString, platform).Some?
    ensures FindIdentity(ids + more, idString, platform) == FindIdentity(ids, idString, platform)
  {
    var k := FindIdentity(ids, idString, platform).value;
    assert (ids + more)[k] == ids[k];
  }

  /** The identities the contact loop creates: one per field of every contact, in dictionary order. */
  function ContactIdentities(contacts: seq<Contact>, platform: nat): (r: seq<Identity>)
    ensures |r| == FieldCount(contacts)
  {
    if contacts == [] then []
    else
      var last := contacts[|contacts| - 1];
      ContactIdentities(contacts[..|contacts| - 1], platform) + FieldIdentities(last, |last.fields|, platform)
  }

  /** The identities for the first `n` fields of one contact. */
  function FieldIdentities(c: Contact, n: nat, platform: nat): (r: seq<Identity>)
    requires n <= |c.fields|
    ensures |r| == n
    ensures forall k :: 0 <= k < n ==> r[k] == Identity(c.fields[k].value, platform, Some(c.name), None)
  {
    if n == 0 then []
    else FieldIdentities(c, n - 1, platform) + [Identity(c.fields[n - 1].value, platform, Some(c.name), None)]
  }

  /** The identity the contact loop makes for field `f` of contact `c`. */
  function FieldIdentity(contacts: seq<Contact>, c: nat, f: nat, platform: nat): Identity
    requires c < |contacts| && f < |contacts[c].fields|
  {
    Identity(contacts[c].fields[f].value, platform, Some(contacts[c].name), None)
  }

  /** The number of fields over all contacts. */
  function FieldCount(contacts: seq<Contact>): nat {
    if contacts == [] then 0 else FieldCount(contacts[..|contacts| - 1]) + |contacts[|contacts| - 1].fields|
  }

  /** Where the identities of contact `c` start: the number of fields of the contacts before it. */
  function Offset(contacts: seq<Contact>, c: nat): nat
    requires c <= |contacts|
  {
    FieldCount(contacts[..c])
  }

  /** The identities of consecutive contacts are laid out back to back. */
  lemma OffsetNext(contacts: seq<Contact>, c: nat)
    requires c < |contacts|
    ensures Offset(contacts, c + 1) == Offset(contacts, c) + |contacts[c].fields|
    ensures Offset(contacts, |contacts|) == FieldCount(contacts)
  {
    assert contacts[..c + 1][..c] == contacts[..c];
    assert contacts[..|contacts|] == contacts;
  }

  /** Handling one more contact appends exactly the identities for its fields. */
  lemma ContactIdentitiesNext(contacts: seq<Contact>, c: nat, platform: nat)
    requires c < |contacts|
    ensures ContactIdentities(contacts[..c + 1], platform)
         == ContactIdentities(contacts[..c], platform) + FieldIdentities(contacts[c], |contacts[c].fields|, platform)
  {
    assert contacts[..c + 1][..c] == contacts[..c];
  }

  /** The identities of contact c fit in the list from Offset(c) on. */
  lemma {:induction false} ContactBlockFits(contacts: seq<Contact>, platform: nat, c: nat)
    requires c < |contacts|
    ensures Offset(contacts, c) + |contacts[c].fields| <= |ContactIdentities(contacts, platform)|
    decreases |contacts|
  {
    var n := |contacts| - 1;
    var init := contacts[..n];
    var last := contacts[n];
    assert ContactIdentities(contacts, platform)
        == ContactIdentities(init, platform) + FieldIdentities(last, |last.fields|, platform);
    if c < n {
      assert contacts[..c] == init[..c];
      ContactBlockFits(init, platform, c);
    } else {
      assert contacts[..c] == init;
    }
  }

  /** The identity for field f of contact c sits at position Offset(c) + f. */
  lemma {:induction false} ContactIdentityAt(contacts: seq<Contact>, platform: nat, c: nat, f: nat)
    requires c < |contacts| && f < |contacts[c].fields|
    ensures Offset(contacts, c) + f < |ContactIdentities(contacts, platform)|
    ensures ContactIdentities(contacts, platform)[Offset(contacts, c) + f] == FieldIdentity(contacts, c, f, platform)
    decreases |contacts|
  {
    var n := |contacts| - 1;
    var init := contacts[..n];
    var last := contacts[n];
    var head := ContactIdentities(init, platform);
    var tail := FieldIdentities(last, |last.fields|, platform);
    assert ContactIdentities(contacts, platform) == head + tail;
    if c < n {
      assert contacts[..c] == init[..c];
      ContactIdentityAt(init, platform, c, f);
    } else {
      assert contacts[..c] == init;
    }
  }

  /** Every identity the contact loop makes comes from some field of some contact. */
  lemma {:induction false} ContactIdentitySource(contacts: seq<Contact>, platform: nat, k: nat) returns (c: nat, f: nat)
    requires k < |ContactIdentities(contacts, platform)|
    ensures c < |contacts| && f < |contacts[c].fields|
    ensures ContactIdentities(contacts, platform)[k] == FieldIdentity(contacts, c, f, platform)
    decreases |contacts|
  {
    var n := |contacts| - 1;
    var init := contacts[..n];
    var last := contacts[n];
    var head := ContactIdentities(init, platform);
    var tail := FieldIdentities(last, |last.fields|, platform);
    assert ContactIdentities(contacts, platform) == head + tail;
    if k < |head| {
      c, f := ContactIdentitySource(init, platform, k);
      assert init[c] == contacts[c];
    } else {
      c, f := n, k - |head|;
    }
  }

  /**
   * The contact loop makes exactly one identity per (contact, field): as many
   * identities as fields, the identities of each contact in one block from
   * Offset(c) on, and the one for field f of contact c at Offset(c) + f; the
   * blocks lie back to back (OffsetNext).
   */
  lemma ContactIdentitiesLayout(contacts: seq<Contact>, platform: nat)
    ensures |ContactIdentities(contacts, platform)| == FieldCount(contacts)
    ensures forall c :: 0 <= c < |contacts| ==> Offset(contacts, c) + |contacts[c].fields| <= FieldCount(contacts)
    ensures forall c, f :: 0 <= c < |contacts| && 0 <= f < |contacts[c].fields| ==>
      ContactIdentities(contacts, platform)[Offset(contacts, c) + f] == FieldIdentity(contacts, c, f, platform)
  {
    forall c | 0 <= c < |contacts|
      ensures Offset(contacts, c) + |contacts[c].fields| <= FieldCount(contacts)
    {
      ContactBlockFits(contacts, platform, c);
    }
    forall c, f | 0 <= c < |contacts| && 0 <= f < |contacts[c].fields|
      ensures ContactIdentities(contacts, platform)[Offset(contacts, c) + f] == FieldIdentity(contacts, c, f, platform)
    {
      ContactIdentityAt(contacts, platform, c, f);
    }
  }

  /** Every created identity comes from one field of one contact, and every field of every contact yields one. */
  lemma {:induction false} ContactIdentitiesExact(contacts: seq<Contact>, platform: nat)
    ensures forall id :: id in ContactIdentities(contacts, platform) ==>
      (exists c, f :: 0 <= c < |contacts| && 0 <= f < |contacts[c].fields| &&
        id == FieldIdentity(contacts, c, f, platform))
    ensures forall c, f :: 0 <= c < |contacts| && 0 <= f < |contacts[c].fields| ==>
      FieldIdentity(contacts, c, f, platform) in ContactIdentities(contacts, platform)
  {
    forall id | id in ContactIdentities(contacts, platform)
      ensures exists c, f :: (0 <= c < |contacts| && 0 <= f < |contacts[c].fields| &&
        id == FieldIdentity(contacts, c, f, platform))
    {
      var k :| 0 <= k < |ContactIdentities(contacts, platform)| && ContactIdentities(contacts, platform)[k] == id;
      var c, f := ContactIdentitySource(contacts, platform, k);
    }
    forall c, f | 0 <= c < |contacts| && 0 <= f < |contacts[c].fields|
      ensures FieldIdentity(contacts, c, f, platform) in ContactIdentities(contacts, platform)
    {
      ContactIdentityAt(contacts, platform, c, f);
    }
  }

  // ------------------------------------------------------------------ store

  class Store {
    var platforms: seq<Platform>
    var identities: seq<Identity>
    var people: seq<Person>
    var messages: seq<Message>

    /** Platform names are unique and every reference points at an existing row. */
    ghost predicate Valid()
      reads this
    {
      && PlatformNamesUnique(platforms)
      && IdentitiesFit(identities, |platforms|, |people|)
      && MessagesFit(messages, |identities|)
    }

    /** A fresh, empty store. */
    constructor ()
      ensures Valid()
      ensures platforms == [] && identities == [] && people == [] && messages == []
    {
      platforms, identities, people, messages := [], [], [], [];
    }

    /** `verify_or_make_platform`: the platform with that name, created only when there is none. */
    method VerifyOrMakePlatform(name: string) returns (p: nat)
      requires Valid()
      modifies this
      ensures Valid()
      ensures p < |platforms| && platforms[p].name == name
      ensures old(FindPlatform(platforms, name)).Some? ==>
        platforms == old(platforms) && Some(p) == old(FindPlatform(platforms, name))
      ensures old(FindPlatform(platforms, name)).None? ==>
        platforms == old(platforms) + [Platform(name)] && p == old(|platforms|)
      ensures identities == old(identities) && people == old(people) && messages == old(messages)
    {
      var found := FindPlatform(platforms, name);
      if found.None? {
        platforms := platforms + [Platform(name)];
        p := |platforms| - 1;
      } else {
        p := found.value;
      }
    }

    /**
     * `get_or_create_identity`: the identity with that (id_string, platform),
     * created with the given display name and no person only when there is
     * none. An existing record is returned as it is (first write wins).
     */
    method GetOrCreateIdentity(idString: string, platform: nat, displayName: Option<string>) returns (i: nat)
      requires Valid()
      requires platform < |platforms|
      modifies this
      ensures Valid()
      ensures i < |identities| && identities[i].idString == idString && identities[i].platform == platform
      ensures Some(i) == FindIdentity(identities, idString, platform)
      ensures old(FindIdentity(identities, idString, platform)).Some? ==>
        identities == old(identities) && Some(i) == old(FindIdentity(identities, idString, platform))
      ensures old(FindIdentity(identities, idString, platform)).None? ==>
        identities == old(identities) + [Identity(idString, platform, displayName, None)]
        && i == old(|identities|)
      ensures IdentityKeysUnique(old(identities)) ==> IdentityKeysUnique(identities)
      ensures platforms == old(platforms) && people == old(people) && messages == old(messages)
    {
      var found := FindIdentity(identities, idString, platform);
      if found.None? {
        var id := Identity(idString, platform, displayName, None);
        FindIdentityAfterAppend(identities, id);
        identities := identities + [id];
        i := |identities| - 1;
      } else {
        i := found.value;
      }
    }

    /** The message writer: appends one message between two existing identities, with no duplicate check. */
    method RecordMessage(text: Option<string>, timestamp: Timestamp, sender: Option<nat>, recipient: nat)
      returns (m: nat)
      requires Valid()
      requires sender.Some? ==> sender.value < |identities|
      requires recipient < |identities|
      modifies this
      ensures Valid()
      ensures messages == old(messages) + [Message(text, timestamp, sender, recipient)]
      ensures m == old(|messages|)
      ensures Export(m).Success? <==> sender.Some?
      ensures Export(m).Success? ==>
        && Export(m).value.content == text
        && Export(m).value.timestamp == timestamp.rendered
        && Export(m).value.senderName == identities[sender.value].displayName
        && Export(m).value.recipientName == identities[recipient].displayName
      ensures platforms == old(platforms) && identities == old(identities) && people == old(people)
    {
      messages := messages + [Message(text, timestamp, sender, recipient)];
      m := |messages| - 1;
    }

    /**
     * `Message.export_dict`: the message's row id (ids count from 1), the
     * sender's platform name, both display names, the rendered timestamp and
     * the text. Fails when the message has no sender.
     */
    function Export(m: nat): (r: ExportResult)
      requires Valid() && m < |messages|
      reads this
      ensures r.Success? <==> messages[m].sender.Some?
      ensures r.Success? ==>
        && r.value.messageId == m + 1
        && r.value.platform == platforms[identities[messages[m].sender.value].platform].name
        && r.value.senderName == identities[messages[m].sender.value].displayName
        && r.value.recipientName == identities[messages[m].recipient].displayName
        && r.value.timestamp == messages[m].timestamp.rendered
        && r.value.content == messages[m].text
    {
      var msg := messages[m];
      if msg.sender.None? then ExportFailure(MissingSender)
      else
        var s := identities[msg.sender.value];
        Success(ExportRecord(m + 1, platforms[s.platform].name, s.displayName,
          identities[msg.recipient].displayName, msg.timestamp.rendered, msg.text))
    }

    /** The inner contact loop: one identity per field of `contact`, in field order. */
    method AddFieldIdentities(platform: nat, contact: Contact)
      requires Valid()
      requires platform < |platforms|
      modifies this
      ensures Valid()
      ensures identities == old(identities) + FieldIdentities(contact, |contact.fields|, platform)
      ensures platforms == old(platforms) && people == old(people) && messages == old(messages)
    {
      for f := 0 to |contact.fields|
        invariant Valid()
        invariant platforms == old(platforms) && people == old(people) && messages == old(messages)
        invariant identities == old(identities) + FieldIdentities(contact, f, platform)
      {
        var id := Identity(contact.fields[f].value, platform, Some(contact.name), None);
        identities := identities + [id];
      }
    }

    /**
     * The contact loop: one identity per field of every contact, on the
     * contacts platform, with the contact's name as display name. It appends
     * directly, without looking up existing identities first.
     */
    method AddContactIdentities(platform: nat, contacts: seq<Contact>)
      requires Valid()
      requires platform < |platforms|
      modifies this
      ensures Valid()
      ensures identities == old(identities) + ContactIdentities(contacts, platform)
      ensures platforms == old(platforms) && people == old(people) && messages == old(messages)
    {
      for c := 0 to |contacts|
        invariant Valid()
        invariant platforms == old(platforms) && people == old(people) && messages == old(messages)
        invariant identities == old(identities) + ContactIdentities(contacts[..c], platform)
      {
        AddFieldIdentities(platform, contacts[c]);
        ContactIdentitiesNext(contacts, c, platform);
      }
      assert contacts[..|contacts|] == contacts;
    }
  }

  /** What `export_dict` gives: the record, or the reason it cannot be built. */
  datatype ExportResult = Success(value: ExportRecord) | ExportFailure(error: ExportError)
}
