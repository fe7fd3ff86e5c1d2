/**
 * The identity resolver, run once after all ingestion. Phase A links every
 * identity with a plausible display name to the Person of exactly that name,
 * creating the Person when there is none. Phase B then gives each identity
 * still without a Person the Person of the first linked identity sharing its
 * id_string. It is a single pass, not iterated to a fixpoint.
 */
module Resolver {
  import opened Wrappers
  import opened Names
  import opened Schema

  /**
   * Phase A considers an identity when its display name is present, not
   * empty (the query's `display_name != ''`, which also drops NULL) and
   * passes `is_name`.
   */
  predicate Plausible(displayName: Option<string>): (r: bool)
    ensures r <==> displayName.Some? && displayName.value != ""
                   && forall i :: 0 <= i < |displayName.value| ==> NameChar(displayName.value[i])
  {
    displayName.Some? && displayName.value != "" && IsName(displayName.value)
  }

  /** No two people carry the same name. */
  ghost predicate PersonNamesUnique(people: seq<Person>) {
    forall p, q :: 0 <= p < q < |people| ==> people[p].name != people[q].name
  }

  /** The first person with that name, in store order. */
  function FindPerson(people: seq<Person>, name: string): (r: Option<nat>)
    ensures r.Some? ==> r.value < |people| && people[r.value].name == name
    ensures r.Some? ==> forall q :: 0 <= q < r.value ==> people[q].name != name
    ensures r.None? ==> forall q :: 0 <= q < |people| ==> people[q].name != name
  {
    if people == [] then None
    else if people[0].name == name then Some(0)
    else match FindPerson(people[1..], name)
      case None => None
      case Some(k) => Some(k + 1)
  }

  /** Appending people never changes a lookup that already succeeded. */
  lemma FindPersonStable(people: seq<Person>, more: seq<Person>, name: string)
    requires FindPerson(people, name).Some?
    ensures FindPerson(people + more, name) == FindPerson(people, name)
  {
    var k := FindPerson(people, name).value;
    assert (people + more)[k] == people[k];
  }

  /** A person appended under a name no one had is the one a lookup of that name finds. */
  lemma FindPersonNew(people: seq<Person>, p: Person)
    requires FindPerson(people, p.name).None?
    ensures FindPerson(people + [p], p.name) == Some(|people|)
  {
    assert (people + [p])[|people|] == p;
    assert forall q :: 0 <= q < |people| ==> (people + [p])[q] == people[q];
  }

  /** A twin of an identity with id string `s` that already has a person. */
  predicate LinkedTwin(id: Identity, s: string) {
    id.idString == s && id.person.Some?
  }

  /** The first identity, in store order, with id string `s` and a person (the query at Phase B). */
  function FirstLinkedTwin(ids: seq<Identity>, s: string): (r: Option<nat>)
    ensures r.Some? ==> r.value < |ids| && LinkedTwin(ids[r.value], s)
    ensures r.Some? ==> forall q :: 0 <= q < r.value ==> !LinkedTwin(ids[q], s)
    ensures r.None? ==> forall q :: 0 <= q < |ids| ==> !LinkedTwin(ids[q], s)
  {
    if ids == [] then None
    else if LinkedTwin(ids[0], s) then Some(0)
    else match FirstLinkedTwin(ids[1..], s)
      case None => None
      case Some(k) => Some(k + 1)
  }

  /** The person Phase B gives an unlinked identity with id string `s`: that of its first linked twin. */
  function TwinPerson(ids: seq<Identity>, s: string): (r: Option<nat>)
    ensures r.None? <==> forall q :: 0 <= q < |ids| ==> !LinkedTwin(ids[q], s)
    ensures r.Some? ==> exists q :: 0 <= q < |ids| && LinkedTwin(ids[q], s) && ids[q].person == r
  {
    match FirstLinkedTwin(ids, s)
    case None => None
    case Some(q) => ids[q].person
  }

  /** Two identity rows that differ at most in their person. */
  predicate SameButPerson(a: Identity, b: Identity) {
    a.idString == b.idString && a.platform == b.platform && a.displayName == b.displayName
  }

  /**
   * Linking unlinked identities with id string `s` to T, the person of the
   * first linked twin, does not change which person the first linked twin
   * has: earlier twins that were linked meanwhile carry T as well.
   */
  lemma TwinPersonStable(cur: seq<Identity>, start: seq<Identity>, s: string)
    requires |cur| == |start|
    requires forall i :: 0 <= i < |start| ==> cur[i].idString == start[i].idString
    requires forall i :: 0 <= i < |start| && start[i].person.Some? ==> cur[i].person == start[i].person
    requires forall i :: 0 <= i < |start| && start[i].person.None? && start[i].idString == s ==>
      cur[i].person.None? || cur[i].person == TwinPerson(start, s)
    ensures TwinPerson(cur, s) == TwinPerson(start, s)
  {
    var now := FirstLinkedTwin(cur, s);
    var was := FirstLinkedTwin(start, s);
    if was.Some? {
      assert LinkedTwin(cur[was.value], s);
      var j := now.value;
      if j < was.value {
        assert !LinkedTwin(start[j], s);
      }
    } else if now.Some? {
      assert !LinkedTwin(start[now.value], s);
    }
  }

  /** Every identity Phase A considers already has a person of its name in `people`. */
  ghost predicate AllNamed(ids: seq<Identity>, people: seq<Person>) {
    forall i :: 0 <= i < |ids| && Plausible(ids[i].displayName) ==>
      FindPerson(people, ids[i].displayName.value).Some?
  }

  /** Person p was created by Phase A for one of the identities: not the owner, and a name not taken before. */
  ghost predicate CreatedFor(start: seq<Identity>, people: seq<Person>, p: nat)
    requires p < |people|
  {
    && !people[p].isSelf
    && (forall q :: 0 <= q < p ==> people[q].name != people[p].name)
    && exists i :: 0 <= i < |start| && Plausible(start[i].displayName)
         && start[i].displayName.value == people[p].name
  }

  /** The identity rows after Phase A has handled its first k identities, with the people in `people`. */
  ghost predicate IdsLinkedUpTo(start: seq<Identity>, k: nat, ids: seq<Identity>, people: seq<Person>) {
    && k <= |start|
    && |ids| == |start|
    && (forall i :: 0 <= i < |start| ==> SameButPerson(ids[i], start[i]))
    && (forall i :: k <= i < |start| ==> ids[i] == start[i])
    && (forall i :: 0 <= i < k && !Plausible(start[i].displayName) ==> ids[i] == start[i])
    && (forall i :: 0 <= i < k && Plausible(start[i].displayName) ==>
          ids[i].person.Some? && ids[i].person == FindPerson(people, start[i].displayName.value))
  }

  /** The people Phase A has added to `startPeople` so far, each created for a name of `start`. */
  ghost predicate PeopleCreated(start: seq<Identity>, startPeople: seq<Person>, people: seq<Person>) {
    && startPeople <= people
    && (forall p :: |startPeople| <= p < |people| ==> CreatedFor(start, people, p))
    && (AllNamed(start, startPeople) ==> people == startPeople)
  }

  /** The state of Phase A after its first k identities, started from `start` and `startPeople`. */
  ghost predicate LinkedUpTo(start: seq<Identity>, startPeople: seq<Person>, k: nat,
                             ids: seq<Identity>, people: seq<Person>)
  {
    IdsLinkedUpTo(start, k, ids, people) && PeopleCreated(start, startPeople, people)
  }

  /** An identity Phase A skips leaves the state as it is, one identity further. */
  lemma SkipImplausible(start: seq<Identity>, startPeople: seq<Person>, k: nat, ids: seq<Identity>, people: seq<Person>)
    requires k < |start| && LinkedUpTo(start, startPeople, k, ids, people)
    requires !Plausible(start[k].displayName)
    ensures LinkedUpTo(start, startPeople, k + 1, ids, people)
  {
  }

  /** Linking identity k to the person found under its name, one identity further. */
  lemma LinkFound(start: seq<Identity>, startPeople: seq<Person>, k: nat, ids: seq<Identity>, people: seq<Person>)
    requires k < |start| && LinkedUpTo(start, startPeople, k, ids, people)
    requires Plausible(start[k].displayName)
    requires FindPerson(people, start[k].displayName.value).Some?
    ensures LinkedUpTo(start, startPeople, k + 1,
      ids[k := ids[k].(person := FindPerson(people, start[k].displayName.value))], people)
  {
  }

  /** Appending a person keeps every earlier person's record of how Phase A created it. */
  lemma CreatedForKept(start: seq<Identity>, people: seq<Person>, extra: Person, p: nat)
    requires p < |people| && CreatedFor(start, people, p)
    ensures CreatedFor(start, people + [extra], p)
  {
    assert forall q :: 0 <= q <= p ==> (people + [extra])[q] == people[q];
  }

  /** A name missing from the people is missing from every prefix of them. */
  lemma FindPersonPrefix(before: seq<Person>, people: seq<Person>, name: string)
    requires before <= people && FindPerson(people, name).None?
    ensures FindPerson(before, name).None?
  {
    assert forall q :: 0 <= q < |before| ==> before[q] == people[q];
  }

  /** Appending a person keeps the person every linked identity finds under its name. */
  lemma LinksKept(start: seq<Identity>, k: nat, ids: seq<Identity>, people: seq<Person>, extra: Person)
    requires k <= |start| == |ids|
    requires forall i :: 0 <= i < k && Plausible(start[i].displayName) ==>
      ids[i].person.Some? && ids[i].person == FindPerson(people, start[i].displayName.value)
    ensures forall i :: 0 <= i < k && Plausible(start[i].displayName) ==>
      ids[i].person == FindPerson(people + [extra], start[i].displayName.value)
  {
    forall i | 0 <= i < k && Plausible(start[i].displayName)
      ensures ids[i].person == FindPerson(people + [extra], start[i].displayName.value)
    {
      FindPersonStable(people, [extra], start[i].displayName.value);
    }
  }

  /** The identity rows after creating a person for identity k's name and linking k to it. */
  lemma CreateLinksIds(start: seq<Identity>, k: nat, ids: seq<Identity>, people: seq<Person>,
                        ids': seq<Identity>, people': seq<Person>)
    requires k < |start| && IdsLinkedUpTo(start, k, ids, people)
    requires Plausible(start[k].displayName)
    requires FindPerson(people, start[k].displayName.value).None?
    requires people' == people + [Person(start[k].displayName.value, false)]
    requires ids' == ids[k := ids[k].(person := Some(|people|))]
    ensures IdsLinkedUpTo(start, k + 1, ids', people')
  {
    var extra := Person(start[k].displayName.value, false);
    FindPersonNew(people, extra);
    LinksKept(start, k, ids, people, extra);
  }

  /** The people after creating one for identity k's name, which no person had. */
  lemma CreateKeepsPeople(start: seq<Identity>, startPeople: seq<Person>, k: nat, people: seq<Person>)
    requires k < |start| && PeopleCreated(start, startPeople, people)
    requires Plausible(start[k].displayName)
    requires FindPerson(people, start[k].displayName.value).None?
    ensures PeopleCreated(start, startPeople, people + [Person(start[k].displayName.value, false)])
  {
    var name := start[k].displayName.value;
    var people' := people + [Person(name, false)];
    forall p | |startPeople| <= p < |people|
      ensures CreatedFor(start, people', p)
    {
      CreatedForKept(start, people, Person(name, false), p);
    }
    assert CreatedFor(start, people', |people|);
    FindPersonPrefix(startPeople, people, name);
    assert !AllNamed(start, startPeople);
  }

  /** Creating a person for identity k's name, not taken yet, and linking k to it, one identity further. */
  lemma CreateAndLink(start: seq<Identity>, startPeople: seq<Person>, k: nat, ids: seq<Identity>, people: seq<Person>)
    requires k < |start| && LinkedUpTo(start, startPeople, k, ids, people)
    requires Plausible(start[k].displayName)
    requires FindPerson(people, start[k].displayName.value).None?
    ensures LinkedUpTo(start, startPeople, k + 1,
      ids[k := ids[k].(person := Some(|people|))], people + [Person(start[k].displayName.value, false)])
  {
    CreateLinksIds(start, k, ids, people,
      ids[k := ids[k].(person := Some(|people|))], people + [Person(start[k].displayName.value, false)]);
    CreateKeepsPeople(start, startPeople, k, people);
  }

  /**
   * Phase A. Every identity with a plausible display name ends up linked to
   * the first Person of exactly that name; a Person is created, not as the
   * owner, only when none has that name yet. Other identities are untouched.
   */
  method LinkByDisplayName(store: Store)
    requires store.Valid()
    modifies store
    ensures store.Valid()
    ensures store.platforms == old(store.platforms) && store.messages == old(store.messages)
    ensures |store.identities| == |old(store.identities)|
    ensures forall i :: 0 <= i < |store.identities| ==> SameButPerson(store.identities[i], old(store.identities[i]))
    ensures forall i :: 0 <= i < |store.identities| && !Plausible(old(store.identities[i]).displayName) ==>
      store.identities[i] == old(store.identities[i])
    ensures forall i :: 0 <= i < |store.identities| && Plausible(old(store.identities[i]).displayName) ==>
      store.identities[i].person.Some?
      && store.identities[i].person == FindPerson(store.people, old(store.identities[i]).displayName.value)
    ensures old(store.people) <= store.people
    ensures forall p :: |old(store.people)| <= p < |store.people| ==>
      CreatedFor(old(store.identities), store.people, p)
    ensures AllNamed(old(store.identities), old(store.people)) ==> store.people == old(store.people)
    ensures AllNamed(store.identities, store.people)
  {
    ghost var start := store.identities;
    ghost var startPeople := store.people;
    for k := 0 to |store.identities|
      invariant store.Valid()
      invariant store.platforms == old(store.platforms) && store.messages == old(store.messages)
      invariant LinkedUpTo(start, startPeople, k, store.identities, store.people)
    {
      var identity := store.identities[k];
      if Plausible(identity.displayName) {
        var name := identity.displayName.value;
        var found := FindPerson(store.people, name);
        if found.Some? {
          LinkFound(start, startPeople, k, store.identities, store.people);
          store.identities := store.identities[k := identity.(person := found)];
        } else {
          CreateAndLink(start, startPeople, k, store.identities, store.people);
          store.identities := store.identities[k := identity.(person := Some(|store.people|))];
          store.people := store.people + [Person(name, false)];
        }
      } else {
        SkipImplausible(start, startPeople, k, store.identities, store.people);
      }
    }
  }

  /** The identity rows after Phase B has handled its first k identities, started from `start`. */
  ghost predicate TwinLinkedUpTo(start: seq<Identity>, k: nat, ids: seq<Identity>) {
    && k <= |start|
    && |ids| == |start|
    && (forall i :: 0 <= i < |start| ==> SameButPerson(ids[i], start[i]))
    && (forall i :: 0 <= i < |start| && start[i].person.Some? ==> ids[i].person == start[i].person)
    && (forall i :: k <= i < |start| ==> ids[i] == start[i])
    && (forall i :: 0 <= i < k && start[i].person.None? ==> ids[i].person == TwinPerson(start, start[i].idString))
  }

  /** Phase B passes over an identity that already has a person. */
  lemma TwinSkip(start: seq<Identity>, k: nat, ids: seq<Identity>)
    requires k < |start| && TwinLinkedUpTo(start, k, ids)
    requires ids[k].person.Some?
    ensures TwinLinkedUpTo(start, k + 1, ids)
  {
  }

  /** Phase B gives an unlinked identity the person of its first linked twin, if any: one identity further. */
  lemma TwinLink(start: seq<Identity>, k: nat, ids: seq<Identity>, ids': seq<Identity>)
    requires k < |start| && TwinLinkedUpTo(start, k, ids)
    requires ids[k].person.None?
    requires FirstLinkedTwin(ids, ids[k].idString).None? ==> ids' == ids
    requires FirstLinkedTwin(ids, ids[k].idString).Some? ==>
      ids' == ids[k := ids[k].(person := ids[FirstLinkedTwin(ids, ids[k].idString).value].person)]
    ensures TwinLinkedUpTo(start, k + 1, ids')
  {
    TwinPersonStable(ids, start, start[k].idString);
    assert ids'[k].person == TwinPerson(start, start[k].idString);
  }

  /**
   * Phase B. Only identities without a person change: each gets the person
   * of the first identity, in store order, that had a person when the phase
   * began and has the same id_string; one with no such twin stays unlinked.
   */
  method LinkByTwin(store: Store)
    requires store.Valid()
    modifies store
    ensures store.Valid()
    ensures store.platforms == old(store.platforms) && store.people == old(store.people)
    ensures store.messages == old(store.messages)
    ensures |store.identities| == |old(store.identities)|
    ensures forall i :: 0 <= i < |store.identities| ==> SameButPerson(store.identities[i], old(store.identities[i]))
    ensures forall i :: 0 <= i < |store.identities| && old(store.identities[i]).person.Some? ==>
      store.identities[i].person == old(store.identities[i]).person
    ensures forall i :: 0 <= i < |store.identities| && old(store.identities[i]).person.None? ==>
      store.identities[i].person == TwinPerson(old(store.identities), store.identities[i].idString)
  {
    ghost var start := store.identities;
    for k := 0 to |store.identities|
      invariant store.Valid()
      invariant store.platforms == old(store.platforms) && store.people == old(store.people)
      invariant store.messages == old(store.messages)
      invariant TwinLinkedUpTo(start, k, store.identities)
    {
      var identity := store.identities[k];
      if identity.person.None? {
        var mate := FirstLinkedTwin(store.identities, identity.idString);
        if mate.Some? {
          ghost var before := store.identities;
          store.identities := store.identities[k := identity.(person := store.identities[mate.value].person)];
          TwinLink(start, k, before, store.identities);
        } else {
          TwinLink(start, k, store.identities, store.identities);
        }
      } else {
        TwinSkip(start, k, store.identities);
      }
    }
  }

  /** People Phase A adds keep the names unique: each new name was not taken by any earlier person. */
  lemma CreatedKeepsNamesUnique(start: seq<Identity>, before: seq<Person>, after: seq<Person>)
    requires before <= after
    requires forall p :: |before| <= p < |after| ==> CreatedFor(start, after, p)
    requires PersonNamesUnique(before)
    ensures PersonNamesUnique(after)
  {
    forall p, q | 0 <= p < q < |after|
      ensures after[p].name != after[q].name
    {
      if q >= |before| {
        assert CreatedFor(start, after, q);
      } else {
        assert after[p] == before[p] && after[q] == before[q];
      }
    }
  }

  /**
   * What the two phases together give, stated on the identity rows before
   * (`start`), after Phase A (`linked`) and after Phase B (`resolved`), with
   * the people after Phase A.
   */
  lemma ResolvedProvenance(start: seq<Identity>, linked: seq<Identity>, resolved: seq<Identity>, people: seq<Person>)
    requires |linked| == |start| && |resolved| == |start|
    requires forall i :: 0 <= i < |start| ==> SameButPerson(linked[i], start[i]) && SameButPerson(resolved[i], linked[i])
    requires forall i :: 0 <= i < |start| && !Plausible(start[i].displayName) ==> linked[i] == start[i]
    requires forall i :: 0 <= i < |start| && Plausible(start[i].displayName) ==>
      linked[i].person.Some? && linked[i].person == FindPerson(people, start[i].displayName.value)
    requires forall i :: 0 <= i < |start| && linked[i].person.Some? ==> resolved[i].person == linked[i].person
    requires forall i :: 0 <= i < |start| && linked[i].person.None? ==>
      resolved[i].person == TwinPerson(linked, resolved[i].idString)
    ensures forall i :: 0 <= i < |start| && Plausible(resolved[i].displayName) ==>
      resolved[i].person.Some? && resolved[i].person.value < |people|
      && people[resolved[i].person.value].name == resolved[i].displayName.value
    ensures forall i :: 0 <= i < |start| && resolved[i].person.Some? ==>
      exists j :: 0 <= j < |start| && resolved[j].idString == resolved[i].idString
        && ((Plausible(resolved[j].displayName) && resolved[j].person == resolved[i].person)
            || start[j].person == resolved[i].person)
    ensures forall i, j :: (0 <= i < |start| && 0 <= j < |start| && resolved[i].idString == resolved[j].idString
                             && resolved[i].person.None?) ==> resolved[j].person.None?
    ensures forall i :: 0 <= i < |start| && start[i].person.Some? && !Plausible(start[i].displayName) ==>
      resolved[i].person == start[i].person
  {
    forall i, j | 0 <= i < |start| && 0 <= j < |start| && resolved[i].idString == resolved[j].idString
      && resolved[i].person.None?
      ensures resolved[j].person.None?
    {
      assert !LinkedTwin(linked[j], resolved[i].idString);
    }
    forall i | 0 <= i < |start| && resolved[i].person.Some?
      ensures exists j :: (0 <= j < |start| && resolved[j].idString == resolved[i].idString
        && ((Plausible(resolved[j].displayName) && resolved[j].person == resolved[i].person)
            || start[j].person == resolved[i].person))
    {
      var j := i;
      if linked[i].person.None? {
        var q :| 0 <= q < |linked| && LinkedTwin(linked[q], resolved[i].idString)
          && linked[q].person == resolved[i].person;
        j := q;
      }
      assert linked[j].person == resolved[i].person && resolved[j].idString == resolved[i].idString;
    }
  }

  /**
   * The resolver: Phase A, then Phase B. Every identity with a plausible
   * display name ends up with a Person of exactly that name, and every
   * Person an identity ends up with is explained: an identity sharing its
   * id_string has a plausible display name and the same Person, or had that
   * Person before the resolver ran.
   */
  method Resolve(store: Store)
    requires store.Valid()
    modifies store
    ensures store.Valid()
    ensures store.platforms == old(store.platforms) && store.messages == old(store.messages)
    ensures old(store.people) <= store.people
    ensures PersonNamesUnique(old(store.people)) ==> PersonNamesUnique(store.people)
    ensures |store.identities| == |old(store.identities)|
    ensures forall i :: 0 <= i < |store.identities| ==> SameButPerson(store.identities[i], old(store.identities[i]))
    ensures forall i :: 0 <= i < |store.identities| && Plausible(store.identities[i].displayName) ==>
      store.identities[i].person.Some?
      && store.people[store.identities[i].person.value].name == store.identities[i].displayName.value
    ensures forall i :: 0 <= i < |store.identities| && store.identities[i].person.Some? ==>
      exists j :: 0 <= j < |store.identities| && store.identities[j].idString == store.identities[i].idString
        && ((Plausible(store.identities[j].displayName) && store.identities[j].person == store.identities[i].person)
            || old(store.identities[j]).person == store.identities[i].person)
    ensures forall i, j :: (0 <= i < |store.identities| && 0 <= j < |store.identities|
                             && store.identities[i].idString == store.identities[j].idString
                             && store.identities[i].person.None?) ==> store.identities[j].person.None?
    ensures forall i :: 0 <= i < |store.identities| && old(store.identities[i]).person.Some?
                        && !Plausible(old(store.identities[i]).displayName) ==>
      store.identities[i].person == old(store.identities[i]).person
  {
    ghost var start := store.identities;
    ghost var startPeople := store.people;
    LinkByDisplayName(store);
    ghost var linked := store.identities;
    ghost var people := store.people;
    if PersonNamesUnique(startPeople) {
      CreatedKeepsNamesUnique(start, startPeople, people);
    }
    LinkByTwin(store);
    ResolvedProvenance(start, linked, store.identities, people);
  }
}
