/** Name canonicalisation: the first character upper case, the rest lower
    case. Both the ledger and the lifetime registry key players by it, so
    case variants of one name share a record. Case mapping is ASCII. */
module Names {

  predicate IsUpper(c: char) { 'A' <= c <= 'Z' }

  predicate IsLower(c: char) { 'a' <= c <= 'z' }

  function UpperChar(c: char): char
  {
    if IsLower(c) then (c as int - 32) as char else c
  }

  function LowerChar(c: char): char
  {
    if IsUpper(c) then (c as int + 32) as char else c
  }

  /** `toLowerCase` on ASCII. */
  function Lower(s: string): (r: string)
    ensures |r| == |s|
    ensures forall i :: 0 <= i < |s| ==> r[i] == LowerChar(s[i])
  {
    seq(|s|, i requires 0 <= i < |s| => LowerChar(s[i]))
  }

  /** `s` is already in canonical form. */
  predicate IsCapitalized(s: string)
  {
    (|s| > 0 ==> !IsLower(s[0])) && forall i :: 1 <= i < |s| ==> !IsUpper(s[i])
  }

  /** The canonical key of a player name (script.js `capitalizeName`): the
      same letters ignoring case, in canonical form. The empty name stays
      empty. */
  function CapitalizeName(name: string): (r: string)
    ensures |r| == |name|
    ensures Lower(r) == Lower(name)
    ensures IsCapitalized(r)
  {
    if name == [] then []
    else [UpperChar(name[0])] + Lower(name[1..])
  }

  /** Two strings in canonical form that agree ignoring case are equal. */
  lemma {:induction false} CapitalizedUnique(a: string, b: string)
    requires IsCapitalized(a) && IsCapitalized(b)
    requires Lower(a) == Lower(b)
    ensures a == b
  {
    assert |a| == |Lower(a)| == |b|;
    forall i | 0 <= i < |a| ensures a[i] == b[i] {
      assert LowerChar(a[i]) == Lower(a)[i] == LowerChar(b[i]);
    }
  }

  /** Case variants of a name ("bOB", "Bob", "BOB") get one key. */
  lemma CaseVariantsShareKey(a: string, b: string)
    requires Lower(a) == Lower(b)
    ensures CapitalizeName(a) == CapitalizeName(b)
  {
    CapitalizedUnique(CapitalizeName(a), CapitalizeName(b));
  }

  /** Canonicalising a canonical name changes nothing. */
  lemma CapitalizeFixesCanonical(s: string)
    requires IsCapitalized(s)
    ensures CapitalizeName(s) == s
  {
    CapitalizedUnique(CapitalizeName(s), s);
  }

  /** Canonicalisation is idempotent. */
  lemma CapitalizeIdempotent(s: string)
    ensures CapitalizeName(CapitalizeName(s)) == CapitalizeName(s)
  {
    CapitalizeFixesCanonical(CapitalizeName(s));
  }

  lemma CapitalizeExample()
    ensures CapitalizeName("bOB") == CapitalizeName("Bob") == "Bob"
  {
    CapitalizeFixesCanonical("Bob");
    CaseVariantsShareKey("bOB", "Bob");
  }
}
