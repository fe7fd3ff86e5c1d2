/**
 * Contact-sheet normalisation: `format_phone`, which puts a raw phone number
 * in the `tel:+<digits>` form the call/text export uses, and
 * `update_contact_dict`, which adds a field to one contact's dictionary
 * without ever overwriting what is there.
 */
module Contacts {
  import opened Names

  // ---------------------------------------------------------------- phones

  /** The digits of `s` in order, every other character dropped (`"".join(re.findall('[0-9]+', s))`). */
  function Digits(s: string): (d: string)
    ensures |d| <= |s|
    ensures forall i :: 0 <= i < |d| ==> IsDigit(d[i])
  {
    if s == [] then []
    else (if IsDigit(s[0]) then [s[0]] else []) + Digits(s[1..])
  }

  /** Extracting digits distributes over concatenation: nothing is reordered. */
  lemma {:induction false} DigitsAppend(a: string, b: string)
    ensures Digits(a + b) == Digits(a) + Digits(b)
  {
    if a == [] {
      assert a + b == b;
    } else {
      assert (a + b)[0] == a[0];
      assert (a + b)[1..] == a[1..] + b;
      DigitsAppend(a[1..], b);
    }
  }

  /** A string made only of digits is its own digit string. */
  lemma {:induction false} DigitsOfDigits(s: string)
    requires forall i :: 0 <= i < |s| ==> IsDigit(s[i])
    ensures Digits(s) == s
  {
    if s != [] {
      DigitsOfDigits(s[1..]);
    }
  }

  /** `format_phone`: ten digits get the country code 1, more than ten are kept as they are, fewer give "". */
  function FormatPhone(raw: string): (r: string)
    ensures r == "" <==> |Digits(raw)| < 10
    ensures r != "" ==> |r| >= 16 && r[..5] == "tel:+"
    ensures r != "" ==> forall i :: 5 <= i < |r| ==> IsDigit(r[i])
    ensures r != "" ==> |Digits(raw)| < |r| && r[|r| - |Digits(raw)|..] == Digits(raw)
  {
    var digits := Digits(raw);
    if |digits| == 10 then "tel:+1" + digits
    else if |digits| > 10 then "tel:+" + digits
    else ""
  }

  /** The digits of the formatted number: the country code 1 is prepended exactly when ten digits were given. */
  lemma FormatPhoneDigits(raw: string)
    requires |Digits(raw)| >= 10
    ensures Digits(FormatPhone(raw)) == (if |Digits(raw)| == 10 then "1" else "") + Digits(raw)
  {
    var d := Digits(raw);
    DigitsOfDigits(d);
    if |d| == 10 {
      DigitsAppend("tel:+1", d);
      assert Digits("tel:+1") == "1";
    } else {
      DigitsAppend("tel:+", d);
      assert Digits("tel:+") == "";
    }
  }

  /** Formatting an already formatted number changes nothing, so numbers from both sources compare equal. */
  lemma FormatPhoneIdempotent(raw: string)
    ensures FormatPhone(FormatPhone(raw)) == FormatPhone(raw)
  {
    var d := Digits(raw);
    if |d| == 10 {
      FormatPhoneDigits(raw);
      assert Digits(FormatPhone(raw)) == "1" + d;
      assert "tel:+" + ("1" + d) == "tel:+1" + d;
    } else if |d| > 10 {
      FormatPhoneDigits(raw);
    } else {
      assert Digits("") == "";
    }
  }

  // ------------------------------------------------------ decimal numerals

  /** The digit character for 0..9. */
  function DigitChar(n: nat): (c: char)
    requires n < 10
    ensures IsDigit(c) && DigitValue(c) == n
  {
    "0123456789"[n]
  }

  /** `str(n)` for a natural number: its decimal numeral, without leading zeros. */
  function NatToString(n: nat): (r: string)
    ensures |r| >= 1
    ensures forall i :: 0 <= i < |r| ==> IsDigit(r[i])
    ensures r[0] == '0' <==> n == 0
  {
    if n < 10 then [DigitChar(n)] else NatToString(n / 10) + [DigitChar(n % 10)]
  }

  function DigitValue(c: char): nat
    requires IsDigit(c)
  {
    c as int - '0' as int
  }

  /** The number a string of decimal digits denotes, read left to right. */
  function NumeralValue(s: string): nat
    requires forall i :: 0 <= i < |s| ==> IsDigit(s[i])
  {
    if s == [] then 0 else 10 * NumeralValue(s[..|s| - 1]) + DigitValue(s[|s| - 1])
  }

  /** Reading back the numeral of n gives n. */
  lemma {:induction false} NatToStringValue(n: nat)
    ensures NumeralValue(NatToString(n)) == n
  {
    var s := NatToString(n);
    if n >= 10 {
      assert s[..|s| - 1] == NatToString(n / 10);
      NatToStringValue(n / 10);
    } else {
      assert s[..|s| - 1] == [];
    }
  }

  function Pow10(k: nat): (r: nat)
    ensures r >= 1
  {
    if k == 0 then 1 else 10 * Pow10(k - 1)
  }

  /** 10^k is written with k + 1 digits. */
  lemma {:induction false} Pow10Length(k: nat)
    ensures |NatToString(Pow10(k))| == k + 1
  {
    if k > 0 {
      Pow10Length(k - 1);
      assert Pow10(k) / 10 == Pow10(k - 1);
    }
  }

  // ------------------------------------------------------ contact dictionary

  /** One entry of a contact's dictionary, such as `phone_1` -> `tel:+13035550100`. */
  datatype Field = Field(key: string, value: string)

  function Keys(fields: seq<Field>): set<string> {
    set i | 0 <= i < |fields| :: fields[i].key
  }

  function Values(fields: seq<Field>): set<string> {
    set i | 0 <= i < |fields| :: fields[i].value
  }

  /** A dictionary has each key at most once. */
  ghost predicate KeysUnique(fields: seq<Field>) {
    forall i, j :: 0 <= i < j < |fields| ==> fields[i].key != fields[j].key
  }

  /** The key tried on the i-th probe after `key` itself: `key + "_dup_" + str(i)`. */
  function DupKey(key: string, i: nat): string {
    key + "_dup_" + NatToString(i)
  }

  /** The length of the longest key. */
  function MaxKeyLength(fields: seq<Field>): (n: nat)
    ensures forall i :: 0 <= i < |fields| ==> |fields[i].key| <= n
  {
    if fields == [] then 0
    else
      var rest := MaxKeyLength(fields[1..]);
      assert forall i :: 1 <= i < |fields| ==> fields[i] == fields[1..][i - 1];
      if |fields[0].key| > rest then |fields[0].key| else rest
  }

  /** Probing reaches a free key at the latest at 10^L, L the longest key length: that key is longer than all. */
  lemma DupBoundFree(fields: seq<Field>, key: string)
    ensures DupKey(key, Pow10(MaxKeyLength(fields))) !in Keys(fields)
  {
    Pow10Length(MaxKeyLength(fields));
  }

  /** The least j with `from <= j` such that `DupKey(key, j)` is free, found by probing upwards. */
  function FreeDupFrom(fields: seq<Field>, key: string, from: nat, bound: nat): (j: nat)
    requires from <= bound
    requires DupKey(key, bound) !in Keys(fields)
    ensures from <= j <= bound
    ensures DupKey(key, j) !in Keys(fields)
    ensures forall k :: from <= k < j ==> DupKey(key, k) in Keys(fields)
    decreases bound - from
  {
    if DupKey(key, from) !in Keys(fields) then from
    else FreeDupFrom(fields, key, from + 1, bound)
  }

  /** The suffix number `update_contact_dict` settles on: the least i >= 1 with `key_dup_i` free. */
  function FirstFreeDup(fields: seq<Field>, key: string): (j: nat)
    ensures j >= 1
    ensures DupKey(key, j) !in Keys(fields)
    ensures forall k :: 1 <= k < j ==> DupKey(key, k) in Keys(fields)
  {
    DupBoundFree(fields, key);
    FreeDupFrom(fields, key, 1, Pow10(MaxKeyLength(fields)))
  }

  /** A free suffix all of whose predecessors from 1 on are taken is the one `FirstFreeDup` names. */
  lemma FirstFreeDupUnique(fields: seq<Field>, key: string, j: nat)
    requires j >= 1 && DupKey(key, j) !in Keys(fields)
    requires forall k :: 1 <= k < j ==> DupKey(key, k) in Keys(fields)
    ensures j == FirstFreeDup(fields, key)
  {
    var first := FirstFreeDup(fields, key);
    assert DupKey(key, first) !in Keys(fields);
    assert DupKey(key, j) !in Keys(fields);
  }

  /**
   * The probing loop of `update_contact_dict`: tries `key_dup_1`, `key_dup_2`, ...
   * until one is free, starting from the taken `key`.
   */
  method ProbeFreeKey(fields: seq<Field>, key: string) returns (testKey: string)
    requires key in Keys(fields)
    ensures testKey == DupKey(key, FirstFreeDup(fields, key))
    ensures testKey !in Keys(fields)
  {
    testKey := key;
    var i: nat := 1;
    ghost var bound := Pow10(MaxKeyLength(fields));
    DupBoundFree(fields, key);
    while testKey in Keys(fields)
      invariant 1 <= i <= bound + 1
      invariant i == 1 ==> testKey == key
      invariant i > 1 ==> testKey == DupKey(key, i - 1)
      invariant forall k :: 1 <= k < i - 1 ==> DupKey(key, k) in Keys(fields)
      decreases bound + 1 - i
    {
      testKey := DupKey(key, i);
      i := i + 1;
    }
    FirstFreeDupUnique(fields, key, i - 1);
  }

  /**
   * The dictionary after `update_contact_dict(fields, key, value)`. It never
   * overwrites or removes an entry: the old dictionary is a prefix and at
   * most one entry is added.
   */
  function Updated(fields: seq<Field>, key: string, value: string): (r: seq<Field>)
    ensures fields <= r && |r| <= |fields| + 1
  {
    if value == "" then fields
    else if key !in Keys(fields) then fields + [Field(key, value)]
    else if value in Values(fields) then fields
    else fields + [Field(DupKey(key, FirstFreeDup(fields, key)), value)]
  }

  /** An update keeps the keys unique. */
  lemma UpdatedKeepsKeysUnique(fields: seq<Field>, key: string, value: string)
    requires KeysUnique(fields)
    ensures KeysUnique(Updated(fields, key, value))
  {
    var r := Updated(fields, key, value);
    if |r| == |fields| + 1 {
      forall i | 0 <= i < |fields|
        ensures fields[i].key != r[|fields|].key
      {
        assert fields[i].key in Keys(fields);
      }
    }
  }

  /** No data is lost: a non-empty value is present after the update, and the empty value is never stored. */
  lemma UpdatedKeepsValue(fields: seq<Field>, key: string, value: string)
    ensures value != "" ==> value in Values(Updated(fields, key, value))
    ensures value == "" ==> Updated(fields, key, value) == fields
  {
    var r := Updated(fields, key, value);
    if value != "" && |r| == |fields| + 1 {
      assert r[|fields|].value == value;
    }
  }

  /** Where the new entry goes: under `key` when it is free, else under the first free `key_dup_i`, i >= 1. */
  lemma UpdatedPlacement(fields: seq<Field>, key: string, value: string)
    requires value != ""
    ensures key !in Keys(fields) ==> Updated(fields, key, value) == fields + [Field(key, value)]
    ensures key in Keys(fields) && value in Values(fields) ==> Updated(fields, key, value) == fields
    ensures key in Keys(fields) && value !in Values(fields) ==>
      exists j: nat :: j >= 1 && Updated(fields, key, value) == fields + [Field(DupKey(key, j), value)]
        && DupKey(key, j) !in Keys(fields)
        && forall k :: 1 <= k < j ==> DupKey(key, k) in Keys(fields)
  {
    if key in Keys(fields) && value !in Values(fields) {
      var j := FirstFreeDup(fields, key);
      assert Updated(fields, key, value) == fields + [Field(DupKey(key, j), value)];
    }
  }

  /** Every value stored in a prefix is still stored in the longer dictionary. */
  lemma ValuesGrow(a: seq<Field>, b: seq<Field>)
    requires a <= b
    ensures Values(a) <= Values(b)
  {
    forall v | v in Values(a)
      ensures v in Values(b)
    {
      var i :| 0 <= i < |a| && a[i].value == v;
      assert b[i] == a[i];
    }
  }

  /** The fields of one spreadsheet row, already read from the file (absent cells are ""). */
  datatype ContactRow = ContactRow(
    email1: string, email2: string,
    phone1: string, phone2: string, phone3: string, phone4: string, phone5: string)

  /**
   * The (key, value) updates one spreadsheet row makes, in order: two
   * e-mails, then five formatted phones. Each column has its own key, and a
   * phone value is either empty or a `tel:+` number.
   */
  function RowUpdates(row: ContactRow): (r: seq<(string, string)>)
    ensures |r| == 7
    ensures forall i, j :: 0 <= i < j < |r| ==> r[i].0 != r[j].0
    ensures forall i :: 2 <= i < |r| ==> r[i].1 == "" || (|r[i].1| >= 16 && r[i].1[..5] == "tel:+")
  {
    [("email_1", row.email1), ("email_2", row.email2),
     ("phone_1", FormatPhone(row.phone1)), ("phone_2", FormatPhone(row.phone2)),
     ("phone_3", FormatPhone(row.phone3)), ("phone_4", FormatPhone(row.phone4)),
     ("phone_5", FormatPhone(row.phone5))]
  }

  /** The dictionary after the given updates, applied left to right: it only grows, by at most one entry per update. */
  function Applied(fields: seq<Field>, updates: seq<(string, string)>): (r: seq<Field>)
    ensures fields <= r && |r| <= |fields| + |updates|
    decreases |updates|
  {
    if updates == [] then fields
    else Applied(Updated(fields, updates[0].0, updates[0].1), updates[1..])
  }

  /** The dictionary after one spreadsheet row: the old entries stay, and at most seven are added. */
  function RowApplied(fields: seq<Field>, row: ContactRow): (r: seq<Field>)
    ensures fields <= r && |r| <= |fields| + 7
  {
    Applied(fields, RowUpdates(row))
  }

  /** Applying a run of updates is applying the first, then the rest. */
  lemma AppliedStep(fields: seq<Field>, updates: seq<(string, string)>, i: nat)
    requires i < |updates|
    ensures Applied(fields, updates[i..]) == Applied(Updated(fields, updates[i].0, updates[i].1), updates[i + 1..])
  {
    assert updates[i..][0] == updates[i] && updates[i..][1..] == updates[i + 1..];
  }

  /** One update, summarised: the dictionary grows, keys stay unique, a non-empty value is stored. */
  lemma UpdateStep(fields: seq<Field>, key: string, value: string)
    requires KeysUnique(fields)
    ensures fields <= Updated(fields, key, value)
    ensures Values(fields) <= Values(Updated(fields, key, value))
    ensures KeysUnique(Updated(fields, key, value))
    ensures value != "" ==> value in Values(Updated(fields, key, value))
  {
    ValuesGrow(fields, Updated(fields, key, value));
    UpdatedKeepsKeysUnique(fields, key, value);
    UpdatedKeepsValue(fields, key, value);
  }

  /** A run of updates loses nothing: prefix kept, keys unique, every non-empty value stored. */
  lemma {:induction false} AppliedKeepsData(fields: seq<Field>, updates: seq<(string, string)>)
    requires KeysUnique(fields)
    ensures fields <= Applied(fields, updates)
    ensures KeysUnique(Applied(fields, updates))
    ensures forall u :: u in updates && u.1 != "" ==> u.1 in Values(Applied(fields, updates))
    decreases |updates|
  {
    if updates != [] {
      var next := Updated(fields, updates[0].0, updates[0].1);
      UpdateStep(fields, updates[0].0, updates[0].1);
      AppliedKeepsData(next, updates[1..]);
      ValuesGrow(next, Applied(next, updates[1..]));
      forall u | u in updates && u.1 != ""
        ensures u.1 in Values(Applied(fields, updates))
      {
        if u != updates[0] {
          assert u in updates[1..];
        }
      }
    }
  }

  /**
   * A row loses nothing: the old dictionary is kept as a prefix, keys stay unique, and each
   * non-empty e-mail and each phone with at least ten digits ends up among the values.
   */
  lemma RowAppliedKeepsData(fields: seq<Field>, row: ContactRow)
    requires KeysUnique(fields)
    ensures fields <= RowApplied(fields, row)
    ensures KeysUnique(RowApplied(fields, row))
    ensures row.email1 != "" ==> row.email1 in Values(RowApplied(fields, row))
    ensures row.email2 != "" ==> row.email2 in Values(RowApplied(fields, row))
    ensures |Digits(row.phone1)| >= 10 ==> FormatPhone(row.phone1) in Values(RowApplied(fields, row))
    ensures |Digits(row.phone2)| >= 10 ==> FormatPhone(row.phone2) in Values(RowApplied(fields, row))
    ensures |Digits(row.phone3)| >= 10 ==> FormatPhone(row.phone3) in Values(RowApplied(fields, row))
    ensures |Digits(row.phone4)| >= 10 ==> FormatPhone(row.phone4) in Values(RowApplied(fields, row))
    ensures |Digits(row.phone5)| >= 10 ==> FormatPhone(row.phone5) in Values(RowApplied(fields, row))
  {
    var updates := RowUpdates(row);
    AppliedKeepsData(fields, updates);
    assert updates[0] in updates && updates[1] in updates && updates[2] in updates && updates[3] in updates
      && updates[4] in updates && updates[5] in updates && updates[6] in updates;
  }

  /** A contact's name and its dictionary of fields, in insertion order. */
  datatype Contact = Contact(name: string, fields: seq<Field>)

  /** One contact's dictionary, updated in place. */
  class ContactCard {
    var fields: seq<Field>

    ghost predicate Valid()
      reads this
    {
      KeysUnique(fields)
    }

    constructor ()
      ensures Valid() && fields == []
    {
      fields := [];
    }

    /** A card holding a dictionary built earlier. */
    constructor From(existing: seq<Field>)
      requires KeysUnique(existing)
      ensures Valid() && fields == existing
    {
      fields := existing;
    }

    /** `update_contact_dict(self, newKey, newValue)`. */
    method Update(newKey: string, newValue: string)
      requires Valid()
      modifies this
      ensures Valid()
      ensures fields == Updated(old(fields), newKey, newValue)
    {
      UpdatedKeepsKeysUnique(fields, newKey, newValue);
      if newValue == "" {
        return;
      }
      if newKey !in Keys(fields) {
        fields := fields + [Field(newKey, newValue)];
        return;
      }
      if newValue in Values(fields) {
        return;
      }
      var testKey := ProbeFreeKey(fields, newKey);
      fields := fields + [Field(testKey, newValue)];
    }

    /** The updates one spreadsheet row makes to its contact: two e-mails, then five formatted phones. */
    method AddRow(row: ContactRow)
      requires Valid()
      modifies this
      ensures Valid()
      ensures fields == RowApplied(old(fields), row)
    {
      ghost var u := RowUpdates(row);
      ghost var f0 := fields;
      Update("email_1", row.email1);
      ghost var f1 := fields;
      Update("email_2", row.email2);
      ghost var f2 := fields;
      Update("phone_1", FormatPhone(row.phone1));
      ghost var f3 := fields;
      Update("phone_2", FormatPhone(row.phone2));
      ghost var f4 := fields;
      Update("phone_3", FormatPhone(row.phone3));
      ghost var f5 := fields;
      Update("phone_4", FormatPhone(row.phone4));
      ghost var f6 := fields;
      Update("phone_5", FormatPhone(row.phone5));
      assert u[0..] == u && u[7..] == [];
      AppliedStep(f0, u, 0);
      AppliedStep(f1, u, 1);
      AppliedStep(f2, u, 2);
      AppliedStep(f3, u, 3);
      AppliedStep(f4, u, 4);
      AppliedStep(f5, u, 5);
      AppliedStep(f6, u, 6);
    }
  }

  /** Where `name` sits among the names: its first position, or |names| when absent. */
  function FindName(names: seq<string>, name: string): (k: nat)
    ensures k <= |names|
    ensures k < |names| ==> names[k] == name
    ensures forall q :: 0 <= q < k ==> names[q] != name
  {
    if names == [] then 0
    else if names[0] == name then 0
    else 1 + FindName(names[1..], name)
  }

  /** Names and dictionaries zipped into contacts. */
  function Paired(names: seq<string>, cards: seq<seq<Field>>): (r: seq<Contact>)
    requires |names| == |cards|
    ensures |r| == |names|
    ensures forall i :: 0 <= i < |r| ==> r[i] == Contact(names[i], cards[i])
  {
    if names == [] then [] else [Contact(names[0], cards[0])] + Paired(names[1..], cards[1..])
  }

  /**
   * The contacts dictionary built from the spreadsheet: one card per distinct non-empty name,
   * in order of first appearance, kept as parallel sequences of names and dictionaries.
   */
  class ContactBook {
    var names: seq<string>
    var cards: seq<seq<Field>>

    ghost predicate Valid()
      reads this
    {
      && |names| == |cards|
      && (forall i, j :: 0 <= i < j < |names| ==> names[i] != names[j])
      && (forall i :: 0 <= i < |names| ==> names[i] != "" && KeysUnique(cards[i]))
    }

    constructor ()
      ensures Valid() && names == [] && cards == []
    {
      names := [];
      cards := [];
    }

    /** The book as (name, dictionary) pairs, in the dictionary's iteration order. */
    function Entries(): (r: seq<Contact>)
      requires Valid()
      reads this
      ensures |r| == |names|
      ensures forall i :: 0 <= i < |r| ==> r[i] == Contact(names[i], cards[i])
    {
      Paired(names, cards)
    }

    /**
     * One spreadsheet row: ignored when the name is empty; otherwise the row's updates go to
     * the card of that name, which is created empty at the end of the book the first time.
     */
    method AddCsvRow(name: string, row: ContactRow)
      requires Valid()
      modifies this
      ensures Valid()
      ensures name == "" ==> names == old(names) && cards == old(cards)
      ensures name != "" && name in old(names) ==>
        var k := FindName(old(names), name);
        names == old(names) && cards == old(cards)[k := RowApplied(old(cards)[k], row)]
      ensures name != "" && name !in old(names) ==>
        names == old(names) + [name] && cards == old(cards) + [RowApplied([], row)]
    {
      if name == "" {
        return;
      }
      var k := FindName(names, name);
      var card: ContactCard;
      if k == |names| {
        names := names + [name];
        cards := cards + [[]];
        card := new ContactCard();
      } else {
        card := new ContactCard.From(cards[k]);
      }
      card.AddRow(row);
      cards := cards[k := card.fields];
    }
  }
}
