/** Small end-to-end runs of the ingestion and resolution operations on a fresh store. */
module Scenarios {
  import opened Wrappers
  import Names
  import opened Schema
  import opened Resolver

  /**
   * Two identities sharing a handle, none linked beforehand, the second without a usable
   * name: if resolution links the second, the person can only have come from the first.
   */
  lemma OnlyTwinSupplies(before: seq<Identity>, ids: seq<Identity>)
    requires |ids| == 2 == |before|
    requires ids[0].idString == ids[1].idString
    requires !Plausible(ids[1].displayName) && before[0].person.None? && before[1].person.None?
    requires ids[1].person.Some?
    requires exists j :: (0 <= j < |ids| && ids[j].idString == ids[1].idString
                          && ((Plausible(ids[j].displayName) && ids[j].person == ids[1].person)
                              || before[j].person == ids[1].person))
    ensures ids[0].person == ids[1].person
  {
  }

  /**
   * A single identity, unlinked at the start and without a usable name: if
   * resolution explains every Person it holds, it holds none.
   */
  lemma LoneImplausibleUnlinked(before: seq<Identity>, ids: seq<Identity>)
    requires |ids| == 1 == |before|
    requires before[0].person.None? && !Plausible(ids[0].displayName)
    requires ids[0].person.Some? ==>
      exists j :: (0 <= j < |ids| && ids[j].idString == ids[0].idString
                   && ((Plausible(ids[j].displayName) && ids[j].person == ids[0].person)
                       || before[j].person == ids[0].person))
    ensures ids[0].person.None?
  {
  }

  /** Registering the same handle twice on one platform yields one identity row. */
  method RegisterTwice() returns (first: nat, second: nat, rows: nat)
    ensures first == second && rows == 1
  {
    var store := new Store();
    var sms := store.VerifyOrMakePlatform("SMS");
    first := store.GetOrCreateIdentity("tel:+15551234567", sms, Some("Jane Doe"));
    second := store.GetOrCreateIdentity("tel:+15551234567", sms, Some("Jane Doe"));
    rows := |store.identities|;
  }

  /**
   * The same phone number seen on two platforms, once with a usable display name and
   * once with an empty one: after resolution both identities belong to the same person,
   * who carries the usable name.
   */
  method SharedPhone() returns (named: Option<nat>, unnamed: Option<nat>, name: string)
    ensures named.Some? && named == unnamed && name == "Jane Doe"
  {
    var store := new Store();
    var sms := store.VerifyOrMakePlatform("SMS");
    var contacts := store.VerifyOrMakePlatform("Contacts");
    var a := store.GetOrCreateIdentity("tel:+15551234567", sms, Some("Jane Doe"));
    var b := store.GetOrCreateIdentity("tel:+15551234567", contacts, Some(""));
    assert a == 0 && b == 1 && |store.identities| == 2;
    ghost var before := store.identities;
    assert before[0].person.None? && before[1].person.None?;
    Names.PlainNamesAccepted();
    Resolve(store);
    ghost var ids := store.identities;
    assert ids[0].idString == ids[1].idString;
    assert Plausible(ids[0].displayName) && !Plausible(ids[1].displayName);
    assert ids[1].person.Some?;
    OnlyTwinSupplies(before, ids);
    named := store.identities[0].person;
    unnamed := store.identities[1].person;
    name := store.people[named.value].name;
  }

  /** A handle whose only display name contains digits stays unlinked. */
  method DigitNameStaysUnlinked() returns (person: Option<nat>)
    ensures person.None?
  {
    var store := new Store();
    var sms := store.VerifyOrMakePlatform("SMS");
    var a := store.GetOrCreateIdentity("tel:+15559876543", sms, Some("John123"));
    Names.DigitNamesRejected();
    assert a == 0 && |store.identities| == 1;
    ghost var before := store.identities;
    Resolve(store);
    LoneImplausibleUnlinked(before, store.identities);
    person := store.identities[a].person;
  }

  /** Running the display-name phase a second time creates no further person. */
  method DisplayNamePhaseTwice() returns (after1: nat, after2: nat)
    ensures after1 == after2 && after1 >= 1
  {
    var store := new Store();
    var sms := store.VerifyOrMakePlatform("SMS");
    var a := store.GetOrCreateIdentity("tel:+15551234567", sms, Some("Jane Doe"));
    var b := store.GetOrCreateIdentity("jane@example.com", sms, Some("Jane Doe"));
    Names.PlainNamesAccepted();
    LinkByDisplayName(store);
    after1 := |store.people|;
    assert Plausible(store.identities[0].displayName);
    LinkByDisplayName(store);
    after2 := |store.people|;
  }
}
