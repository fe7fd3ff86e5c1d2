/**
 * The name-plausibility test `is_name` that decides which display names
 * become People, and the character classes it uses.
 */
module Names {

  /** Python's `str.isalpha` on one character, exact for code points below 256. */
  predicate IsAlpha(c: char) {
    || ('A' <= c <= 'Z') || ('a' <= c <= 'z')
    || c == '\U{AA}' || c == '\U{B5}' || c == '\U{BA}'
    || ('\U{C0}' <= c <= '\U{D6}') || ('\U{D8}' <= c <= '\U{F6}') || ('\U{F8}' <= c <= '\U{FF}')
  }

  /** Python's `str.isspace` on one character, exact for code points below 256. */
  predicate IsSpace(c: char) {
    || ('\t' <= c <= '\r')            // tab, line feed, vertical tab, form feed, carriage return
    || ('\U{1C}' <= c <= '\U{1F}')    // file, group, record and unit separators
    || c == ' ' || c == '\U{85}' || c == '\U{A0}'
  }

  /** An ASCII decimal digit, the class `[0-9]`. */
  predicate IsDigit(c: char) {
    '0' <= c <= '9'
  }

  /** The characters a plausible name may contain: letters, whitespace and `.()-`. */
  predicate NameChar(c: char) {
    IsAlpha(c) || IsSpace(c) || c in ".()-"
  }

  /**
   * `is_name`: scans the characters in order and rejects at the first one
   * that is not a name character, so it accepts exactly the strings made
   * only of name characters ("" vacuously).
   */
  function IsName(name: string): (r: bool)
    ensures r <==> forall i :: 0 <= i < |name| ==> NameChar(name[i])
  {
    if name == [] then true
    else if NameChar(name[0]) then
      assert forall i :: 1 <= i < |name| ==> name[i] == name[1..][i - 1];
      IsName(name[1..])
    else false
  }

  /** A digit is never a name character. */
  lemma DigitIsNotNameChar(c: char)
    requires IsDigit(c)
    ensures !NameChar(c)
  {
  }

  /** Any string containing a digit anywhere fails the test. */
  lemma {:induction false} DigitRejects(name: string, k: nat)
    requires k < |name| && IsDigit(name[k])
    ensures !IsName(name)
  {
    if k > 0 {
      DigitRejects(name[1..], k - 1);
    }
  }

  /** The examples of a rejected display name: all digits, and letters followed by digits. */
  lemma DigitNamesRejected()
    ensures !IsName("12345")
    ensures !IsName("John123")
  {
    DigitRejects("12345", 0);
    DigitRejects("John123", 4);
  }

  /** The examples of an accepted display name: a first and a last name, and the empty string. */
  lemma PlainNamesAccepted()
    ensures IsName("Jane Doe")
    ensures IsName("")
  {
    var jane := "Jane Doe";
    assert jane == ['J', 'a', 'n', 'e', ' ', 'D', 'o', 'e'];
    assert forall i :: 0 <= i < |jane| ==> NameChar(jane[i]);
  }
}
