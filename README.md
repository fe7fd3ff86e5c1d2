# Identity ingestion and resolution, modelled in Dafny

`createDatabase_v2.py` builds a small relational database of someone's
conversations. It has four tables:

- **Platform**: Google Voice, Facebook Messenger, Google Contacts.
- **Identity**: a handle such as `tel:+13035550100`, an e-mail address or a
  Messenger name, on one platform, with an optional display name and an
  optional link to a Person.
- **Person**.
- **Message**: text, timestamp, sender identity and recipient identity.

It fills these tables from three exports:

- **Google Voice 1:1 text threads.** Each thread's participant list is built
  from the senders, plus the owner's own phone. Each message goes to the
  first participant that is not its sender.
- **Facebook Messenger 1:1 threads.** Group threads and messages with an
  empty sender are skipped.
- **The Google Contacts spreadsheet.** Rows are grouped by name into
  dictionaries that never overwrite a field. Phone numbers are normalised to
  `tel:+<digits>`. Then one identity is made per field.

A resolver runs once at the end:

- **Phase A** links every identity whose display name looks like a real name
  to the Person of exactly that name. It creates that Person the first time.
- **Phase B**, a single pass, gives each identity still without a Person the
  Person of the first linked identity that shares its id_string.

The model keeps the database as a class `Schema.Store`. The class has one
sequence per table, and row references are positions in those sequences.
Every step that changes the database is a method with `modifies` and a
contract. That contract states the new tables, and loops carry the
invariants. The pure helpers are functions with lemmas:

- `is_name`
- `format_phone`
- the `_dup_i` key choice
- the recipient rule
- `export_dict`

Modules:

- `Wrappers`: `Option` and `Outcome`.
- `Names`: `is_name`, with Python's `str.isalpha`/`str.isspace` on Latin-1.
- `Contacts`: `format_phone`, `update_contact_dict` (class `ContactCard`),
  and the row grouping (class `ContactBook`).
- `Schema`: the tables, platform and identity registration, message writing,
  `export_dict`, and the contact-to-identity loop.
- `Threads`: the 1:1 participant list, the recipient rule, and the writing
  of text and Messenger threads.
- `Resolver`: Phases A and B.
- `Scenarios`: short end-to-end runs on a fresh store.

## Code and description differ

- `Contacts.Updated` / `Contacts.ContactCard.Update` follow
  `createDatabase_v2.py:495-515` as written. The "value already present"
  test (line 506) runs only when the key is already taken. A value that is
  already stored under another key is therefore stored again when its own
  key is free, for example the same address as `email_1` of one row and
  `email_2` of the next. The comment at line 505 reads as if no value were
  ever stored twice. `Contacts.UpdatedPlacement` states the behaviour of the
  code.
- `Schema.Message.sender` is optional. The Messenger loop leaves the sender
  as `None` when no registered identity carries the sender's name (line
  451).

## Model

| member | source | states |
|---|---|---|
| Names.IsName | createDatabase_v2.py:581-588 | `is_name`, a scan that stops at the first character that is not a name character, accepts exactly the strings whose every character is alphabetic, whitespace or one of `.()-` (both directions); the empty string is accepted |
| Names.DigitIsNotNameChar | createDatabase_v2.py:584 | a decimal digit is neither alphabetic, whitespace nor one of `.()-` |
| Names.DigitRejects | createDatabase_v2.py:581-588 | any string with a digit at any position is rejected |
| Names.DigitNamesRejected | createDatabase_v2.py:581-588 | "12345" and "John123" are rejected |
| Names.PlainNamesAccepted | createDatabase_v2.py:581-588 | "Jane Doe" and "" are accepted |
| Contacts.Digits | createDatabase_v2.py:520-521 | the joined `[0-9]+` matches are digits only and no longer than the input |
| Contacts.DigitsAppend | createDatabase_v2.py:520-521 | digit extraction distributes over concatenation, so digits keep their order and nothing else survives |
| Contacts.DigitsOfDigits | createDatabase_v2.py:520-521 | a string of digits is its own digit string |
| Contacts.FormatPhone | createDatabase_v2.py:519-531 | the result is "" exactly when fewer than 10 digits are present; otherwise it starts with `tel:+`, is all digits after that, is at least 16 characters long, and ends with the input's digits in order |
| Contacts.FormatPhoneDigits | createDatabase_v2.py:525-530 | the formatted number's digits are `1` followed by the input digits when there are exactly 10, and the input digits alone when there are more |
| Contacts.FormatPhoneIdempotent | createDatabase_v2.py:519-531 | formatting an already formatted number returns it unchanged |
| Contacts.NatToString | createDatabase_v2.py:512 | `str(i)` is a non-empty string of decimal digits, with a leading zero only for 0 |
| Contacts.NatToStringValue | createDatabase_v2.py:512 | the numeral `str(i)` reads back as i, so different suffixes give different keys |
| Contacts.Pow10Length | createDatabase_v2.py:511-513 | 10^k has k+1 decimal digits, which bounds the `_dup_i` probing |
| Contacts.MaxKeyLength | createDatabase_v2.py:511 | an upper bound on the length of every key in the dictionary |
| Contacts.DupBoundFree | createDatabase_v2.py:511-513 | the probe `key_dup_i` at i = 10^L (L the longest key length) is free, so the probing loop ends |
| Contacts.FreeDupFrom | createDatabase_v2.py:511-513 | probing upwards from `from` returns the least free suffix at or after `from` |
| Contacts.FirstFreeDup | createDatabase_v2.py:509-514 | the suffix chosen is the least i >= 1 such that `key_dup_i` is free |
| Contacts.FirstFreeDupUnique | createDatabase_v2.py:511-513 | a free suffix whose predecessors from 1 on are all taken is the one `FirstFreeDup` names |
| Contacts.ProbeFreeKey | createDatabase_v2.py:509-513 | the probing loop stops at `key_dup_i` for the least free i, and the key it returns is not in use |
| Contacts.Updated | createDatabase_v2.py:495-515 | `update_contact_dict` on a dictionary of fields in insertion order keeps the old dictionary as a prefix (no entry changed or removed) and adds at most one entry |
| Contacts.UpdatedKeepsKeysUnique | createDatabase_v2.py:495-515 | keys stay unique after an update |
| Contacts.UpdatedKeepsValue | createDatabase_v2.py:497-515 | a non-empty value is among the values afterwards; an empty value leaves the dictionary unchanged |
| Contacts.UpdatedPlacement | createDatabase_v2.py:501-514 | a free key receives the value; a taken key with the value already present changes nothing; otherwise exactly one entry is appended under the first free `key_dup_i`, i >= 1 |
| Contacts.ValuesGrow | createDatabase_v2.py:495-515 | a dictionary extended at the end keeps all its values |
| Contacts.RowUpdates | createDatabase_v2.py:546-552 | the seven (key, value) updates of one row: seven distinct keys, and every phone value empty or a `tel:+` number of at least 16 characters |
| Contacts.Applied | createDatabase_v2.py:546-552 | updates applied left to right keep the old dictionary as a prefix and add at most one entry each |
| Contacts.RowApplied | createDatabase_v2.py:546-552 | one row keeps the old dictionary as a prefix and adds at most seven entries |
| Contacts.AppliedStep | createDatabase_v2.py:546-552 | a run of updates is the first update followed by the rest |
| Contacts.UpdateStep | createDatabase_v2.py:495-515 | one update grows the dictionary, keeps its values and unique keys, and stores a non-empty value |
| Contacts.AppliedKeepsData | createDatabase_v2.py:546-552 | after a run of updates the old dictionary is a prefix, keys are unique, and every non-empty value of the run is stored |
| Contacts.RowAppliedKeepsData | createDatabase_v2.py:546-552 | one spreadsheet row loses nothing: both non-empty e-mails and every phone with at least 10 digits (formatted) end up among the contact's values, keys unique |
| Contacts.ContactCard.constructor | createDatabase_v2.py:545 | a new contact dictionary is empty |
| Contacts.ContactCard.From | createDatabase_v2.py:543-545 | the dictionary of an existing contact, reopened for updating |
| Contacts.ContactCard.Update | createDatabase_v2.py:495-515 | the in-place update, with its `while` probe over `key_dup_i`, produces exactly `Updated` of the old dictionary and keeps keys unique |
| Contacts.ContactCard.AddRow | createDatabase_v2.py:546-552 | the seven updates of one row (`email_1`, `email_2`, then `phone_1`..`phone_5` formatted) in that order |
| Contacts.FindName | createDatabase_v2.py:543 | the position of the first card with that name, or the number of cards when none has it |
| Contacts.Paired | createDatabase_v2.py:561 | names and dictionaries zipped, position by position |
| Contacts.ContactBook.constructor | createDatabase_v2.py:488 | the contacts dictionary starts empty |
| Contacts.ContactBook.Entries | createDatabase_v2.py:561 | the contacts in insertion order, each with its own dictionary |
| Contacts.ContactBook.AddCsvRow | createDatabase_v2.py:538-552 | a row without a name changes nothing; a known name updates that contact's dictionary only; a new name appends one contact whose dictionary is the row's updates applied to an empty one; names stay unique and non-empty |
| Schema.FindPlatform | createDatabase_v2.py:170 | the first platform of that name, or none when no platform has it |
| Schema.FindIdentity | createDatabase_v2.py:187-188 | the first identity with that (id_string, platform), or none when no identity has that key |
| Schema.FindIdentityAfterAppend | createDatabase_v2.py:189-195 | after appending an identity whose key was absent, the lookup finds the new row, and key uniqueness is kept |
| Schema.FindIdentityStable | createDatabase_v2.py:187-196 | appending rows never changes a lookup that already succeeded |
| Schema.FieldIdentities | createDatabase_v2.py:563-565 | the first n fields of one contact as identities: value as id_string, contact name as display name, no person |
| Schema.ContactIdentities | createDatabase_v2.py:561-566 | the identities of the nested contact loop, in loop order; there are as many as the contacts have fields in all |
| Schema.ContactIdentitiesNext | createDatabase_v2.py:561-566 | handling one more contact appends exactly the identities of its fields |
| Schema.OffsetNext | createDatabase_v2.py:561-566 | the identities of consecutive contacts lie back to back, the last block ending at the field count |
| Schema.ContactBlockFits | createDatabase_v2.py:561-566 | the identities of contact c fit within the list from its offset on |
| Schema.ContactIdentityAt | createDatabase_v2.py:563-565 | the identity for field f of contact c is at position offset(c) + f |
| Schema.ContactIdentitySource | createDatabase_v2.py:561-566 | the identity at any position k of the list was made from some field f of some contact c (the witnesses are returned) |
| Schema.ContactIdentitiesLayout | createDatabase_v2.py:561-566 | exactly one identity per (contact, field): as many identities as fields, each contact's block inside the list, and field f of contact c at offset(c) + f |
| Schema.ContactIdentitiesExact | createDatabase_v2.py:561-566 | every identity appended comes from some (contact, field), and every (contact, field) yields one |
| Schema.Store.constructor | createDatabase_v2.py:153-161 | a fresh database has empty tables |
| Schema.Store.VerifyOrMakePlatform | createDatabase_v2.py:168-181 | returns the platform of that name; appends exactly one when none exists and otherwise changes nothing; platform names stay unique |
| Schema.Store.GetOrCreateIdentity | createDatabase_v2.py:185-196 | returns the identity with that (id_string, platform), leaving the table (including its display name) untouched when it exists; otherwise appends exactly one row with the given display name and no person; key uniqueness is kept |
| Schema.Store.RecordMessage | createDatabase_v2.py:359-363 | appends exactly one message with the given text, timestamp, sender and recipient; it exports exactly when it has a sender, with both display names, its text and its timestamp |
| Schema.Store.Export | createDatabase_v2.py:133-142 | the exported record: message id = row number counted from 1, the sender's platform name, both display names, the rendered timestamp, the text; fails exactly when there is no sender |
| Schema.Store.AddFieldIdentities | createDatabase_v2.py:563-565 | the inner loop appends exactly the identities of one contact's fields, in order; nothing else changes |
| Schema.Store.AddContactIdentities | createDatabase_v2.py:561-566 | appends exactly `ContactIdentities` of the contacts, without looking for existing identities; nothing else changes |
| Threads.Rank | createDatabase_v2.py:256-264 | where a participant enters the list; it falls inside the thread exactly for a sender, or for the owner once any message exists |
| Threads.ListedName | createDatabase_v2.py:256-264 | the listed name is "Me", empty, or the sender text of one of that id's messages; for a sender other than the owner it is the text of its first message |
| Threads.FirstSent | createDatabase_v2.py:235-258 | the position of the first message from an id_string, or the message count |
| Threads.ListSender | createDatabase_v2.py:256-258 | listing a sender seen for the first time extends the participant list invariant by one message |
| Threads.SenderListed | createDatabase_v2.py:256 | a sender already listed leaves the list unchanged |
| Threads.ListSelf | createDatabase_v2.py:262-264 | adding the owner's phone as "Me" after the first message keeps the list invariant |
| Threads.ParseTextThread | createDatabase_v2.py:230-268 | the participant list has no duplicates, is index-aligned with the display names, contains every sender and (once any message exists) the owner's phone, and contains nothing else; each name is the sender text of that participant's first message, or "Me" for an implicit owner; order is order of first appearance, with the owner right after the first sender |
| Threads.Recipient | createDatabase_v2.py:340-346 | the first participant different from the sender; the sender itself exactly when every participant is the sender |
| Threads.RecipientOfPair | createDatabase_v2.py:340-346 | in a two-party thread each side's messages go to the other |
| Threads.ListedIdentitiesAppend | createDatabase_v2.py:331-335 | registering one more listed participant keeps "every new identity is a listed participant with its listed name" |
| Threads.RegisterParticipants | createDatabase_v2.py:331-335 | every participant is registered on the platform afterwards; only listed participants with their listed display names are added; nothing else changes |
| Threads.RegisteredStep | createDatabase_v2.py:331-335 | after one more participant has an identity, every participant so far still has one, since registration only appends |
| Threads.WriteTextMessages | createDatabase_v2.py:338-363 | one message per thread message, in order, from the sender's identity to the identity of `Recipient`, with its text and time |
| Threads.TextWrittenStep | createDatabase_v2.py:338-363 | appending the row for message m extends "the first m messages were written as the thread says" to m + 1 |
| Threads.IngestTextThread | createDatabase_v2.py:328-363 | registration followed by message writing, with both contracts combined |
| Threads.Kept | createDatabase_v2.py:441-442 | the Messenger messages kept, each with a non-empty sender name and no more of them than the thread has |
| Threads.KeptMembers | createDatabase_v2.py:441-442 | a message is kept exactly when it is in the thread and its sender name is not empty |
| Threads.KeptAppend | createDatabase_v2.py:436-442 | skipping distributes over concatenation, so the kept messages are written in their original order |
| Threads.WriteMessengerMessages | createDatabase_v2.py:436-473 | one message per kept message, in order, from the sender's identity (absent when unregistered) to the recipient chosen by the recipient rule; a missing recipient identity aborts, which can only happen with no participants |
| Threads.MessengerWrittenStep | createDatabase_v2.py:445-473 | appending the row for one more kept message extends the written messages by exactly that message |
| Threads.IngestMessengerThread | createDatabase_v2.py:423-473 | a thread with more than two participants changes nothing; otherwise participants are registered under their names and the kept messages are written |
| Resolver.Plausible | createDatabase_v2.py:577-594 | an identity is considered in Phase A exactly when its display name is present, not empty, and made only of name characters |
| Resolver.FindPerson | createDatabase_v2.py:596 | the first Person of that name, or none when no Person has it |
| Resolver.FindPersonStable | createDatabase_v2.py:596-604 | creating people never changes a name lookup that already succeeded |
| Resolver.FindPersonNew | createDatabase_v2.py:600-604 | a Person appended under a name no Person had is what a later lookup of that name finds |
| Resolver.FirstLinkedTwin | createDatabase_v2.py:617 | the first identity, in store order, that has a Person and the given id_string, or none when no such identity exists |
| Resolver.TwinPerson | createDatabase_v2.py:617-620 | none exactly when no identity with that id_string has a Person; otherwise the Person of such a twin |
| Resolver.TwinPersonStable | createDatabase_v2.py:615-620 | the links Phase B makes do not change which Person the first linked twin has, so the pass gives the same answer as a query made before the pass |
| Resolver.TwinSkip | createDatabase_v2.py:615 | an identity that already has a Person is passed over by Phase B and the invariant extends by one |
| Resolver.TwinLink | createDatabase_v2.py:615-620 | giving an unlinked identity the Person of its first linked twin (or nothing when there is none) agrees with a query made before Phase B, and extends the invariant by one |
| Resolver.SkipImplausible | createDatabase_v2.py:594 | an identity that fails the name test is left as it is |
| Resolver.LinkFound | createDatabase_v2.py:596-599 | linking to an existing Person of that name keeps the Phase A invariant |
| Resolver.CreatedForKept | createDatabase_v2.py:600-604 | appending a Person leaves how every earlier Person came to be created unchanged |
| Resolver.FindPersonPrefix | createDatabase_v2.py:596 | a name no Person has is not found among the People that existed at the start either |
| Resolver.LinksKept | createDatabase_v2.py:596-604 | appending a Person keeps every identity already linked in Phase A pointing at the first Person of its name |
| Resolver.CreateLinksIds | createDatabase_v2.py:600-604 | creating a Person for a new name and linking identity k to it extends the identity part of the Phase A invariant by one |
| Resolver.CreateKeepsPeople | createDatabase_v2.py:600-604 | every Person added so far, including the new one, is not the owner, has a name no earlier Person has, and has the plausible display name of some identity; People are added only when some plausible name was missing at the start |
| Resolver.CreateAndLink | createDatabase_v2.py:600-604 | creating a new Person for a name that no Person has, and linking to it, keeps the Phase A invariant |
| Resolver.LinkByDisplayName | createDatabase_v2.py:577-606 | every identity with a plausible name is linked to the first Person of exactly that name; the others are untouched; only id_string/platform/display name stay as they were; each new Person is not the owner, has a name no earlier Person has and is some identity's display name; with all names already present no Person is created |
| Resolver.LinkByTwin | createDatabase_v2.py:612-620 | linked identities keep their Person; each unlinked one gets the Person of the first identity linked when the pass started with the same id_string, or stays unlinked when there is none; no other row or table changes |
| Resolver.CreatedKeepsNamesUnique | createDatabase_v2.py:596-604 | Phase A never creates two People with the same name |
| Resolver.ResolvedProvenance | createDatabase_v2.py:592-620 | after both phases: plausible identities carry a Person of their name; every Person held is explained by an identity with the same id_string that is plausible and holds that Person, or held it before; twins agree on being linked; a linked identity whose name fails the test keeps its Person |
| Resolver.Resolve | createDatabase_v2.py:577-622 | the two phases together: the guarantees of `ResolvedProvenance` on the store, name uniqueness of People preserved, People only gain rows, only the person column of identities changes, and an identity already linked keeps its Person unless Phase A relinks it by its plausible name |
| Scenarios.RegisterTwice | createDatabase_v2.py:185-196 | registering the same handle twice yields the same identity and one row |
| Scenarios.SharedPhone | createDatabase_v2.py:592-620 | one phone number on two platforms, one with a usable name and one with an empty name, ends up with one Person of that name |
| Scenarios.DigitNameStaysUnlinked | createDatabase_v2.py:581-620 | a handle whose only display name is "John123" stays without a Person |
| Scenarios.OnlyTwinSupplies | createDatabase_v2.py:612-620 | with two twins, both unlinked at the start and the second unnamed, a Person the second ends up with came from the first |
| Scenarios.DisplayNamePhaseTwice | createDatabase_v2.py:592-606 | running Phase A a second time creates no further Person |

## Left out

- Database engine and file management (`create_fresh_database`,
  `open_existing_database`, `open_most_recent_database`, engine and session
  set-up, `commit`). The store is kept in memory. Transactions are not
  modelled because every pass commits before the next one reads.
- ORM relationships and back-references. Rows refer to each other by
  position.
- HTML parsing of Google Voice files. The model works on already-extracted
  messages.
  - The thread type and the group test (lines 204-224) are not modelled.
  - Voicemail, missed, received and placed call files are not modelled.
    Only 1:1 text threads are written.
- Directory walking, JSON loading and the CSV reader. Messenger threads and
  spreadsheet rows are inputs to the model.
- The `file_limit` cut-off of `load_google_voice_export`. It only limits how
  many files are read.
- Timestamp conversion (`dateutil.parse`, and `fromtimestamp` of
  milliseconds divided by 1000.0). It is a library parser and floating
  point, so timestamps are opaque values carrying their rendered text.
- Console output.
- Code after `exit()` (line 630 onwards). It is unreachable.
- `social_reciprocity_v1.py` and `create_time_series_by_contact.py`. They
  are pandas reports over the finished database.
- Names.IsName: non-Latin-1 characters are neither letters nor whitespace
  here. Python's `isalpha`/`isspace` are followed exactly for code points
  below 256 only, because the full Unicode tables are not part of this
  model.
- Threads.WriteTextMessages / Threads.WriteMessengerMessages: the in-memory
  identity lists of lines 308 and 404 are modelled as lookups in the
  identity table by (id_string, platform). These lists hold exactly the
  identities registered on that platform, so the first match is the same
  row.
- Resolver.LinkByDisplayName / Resolver.LinkByTwin: the queries at lines
  577, 612 and 617 have no ordering. The model takes insertion order for
  all three. For line 617 this fixes which twin is "first". The order of
  line 612 does not matter, because `TwinPersonStable` shows that links
  made during the pass never change a later answer. The order of line 577
  only decides the order in which new People are appended. Every plausible
  identity still ends up with the one Person of its name.
- Schema.Store.Export: the Python `str()` of the timestamp is the opaque
  timestamp's rendered text. The exported platform name is modelled, but
  the ORM's lazy loading is not.
