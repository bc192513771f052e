/**
 * The ORCID identifier shape `[A-Z0-9]{4}-[A-Z0-9]{4}-[A-Z0-9]{4}-[A-Z0-9]{4}`
 * and the leftmost search for it that Python's `re.search` performs.
 */
module Orcid {
  import opened Wrappers
  import opened Text

  const OrcidLength: nat := 19

  predicate IsOrcidChar(c: char) {
    'A' <= c <= 'Z' || '0' <= c <= '9'
  }

  /** `s` is exactly four groups of four `[A-Z0-9]` joined by hyphens. */
  predicate IsOrcid(s: string) {
    |s| == OrcidLength &&
    forall k :: 0 <= k < OrcidLength ==> if k % 5 == 4 then s[k] == '-' else IsOrcidChar(s[k])
  }

  /** An ORCID-shaped piece of `s` starts at index `i`. */
  predicate OrcidAt(s: string, i: int) {
    0 <= i <= |s| - OrcidLength && IsOrcid(s[i..i + OrcidLength])
  }

  /** The first index at or after `i` where an ORCID-shaped piece of `s` starts. */
  function FindOrcidFrom(s: string, i: nat): (r: Option<nat>)
    requires i <= |s|
    ensures r.Some? ==> i <= r.value && OrcidAt(s, r.value)
    ensures r.Some? ==> forall j :: i <= j < r.value ==> !OrcidAt(s, j)
    ensures r.None? ==> forall j :: i <= j ==> !OrcidAt(s, j)
    decreases |s| - i
  {
    if i + OrcidLength > |s| then None
    else if OrcidAt(s, i) then Some(i)
    else FindOrcidFrom(s, i + 1)
  }

  /**
   * `re.search(pattern, s).group(0)`, or `None` where the search finds nothing:
   * the leftmost ORCID-shaped piece of `s`.
   */
  function SearchOrcid(s: string): (r: Option<string>)
    ensures r.None? <==> forall j :: !OrcidAt(s, j)
    ensures r.Some? ==> IsOrcid(r.value) && Contains(s, r.value)
    ensures r.Some? ==> exists i :: OrcidAt(s, i) && r.value == s[i..i + OrcidLength]
                                    && forall j :: 0 <= j < i ==> !OrcidAt(s, j)
  {
    match FindOrcidFrom(s, 0)
    case None => None
    case Some(i) =>
      assert OccursAt(s, s[i..i + OrcidLength], i);
      Some(s[i..i + OrcidLength])
  }

  /**
   * A creator value written as `"<name>: <identifier>"`, with no identifier
   * inside the name, yields that identifier.
   */
  lemma SearchOrcidOfCreator(name: string, id: string)
    requires IsOrcid(id)
    requires forall j :: !OrcidAt(name, j)
    ensures SearchOrcid(name + ": " + id) == Some(id)
  {
    var t := name + ": " + id;
    var n := |name|;
    forall j | 0 <= j < n + 2
      ensures !OrcidAt(t, j)
    {
      if j + OrcidLength <= n {
        assert t[j..j + OrcidLength] == name[j..j + OrcidLength];
        assert !OrcidAt(name, j);
      } else if j <= n && j + OrcidLength <= |t| {
        assert t[j..j + OrcidLength][n - j] == ':';
      } else if j + OrcidLength <= |t| {
        assert t[j..j + OrcidLength][0] == ' ';
      }
    }
    assert t[n + 2..n + 2 + OrcidLength] == id;
    assert OrcidAt(t, n + 2);
  }

  /** An identifier on its own is found whole. */
  lemma SearchOrcidOfOrcid(id: string)
    requires IsOrcid(id)
    ensures SearchOrcid(id) == Some(id)
  {
    assert id[0..OrcidLength] == id;
    assert OrcidAt(id, 0);
  }
}
