/**
 * The few Python string operations the parsers rely on: `pat in s`, `s.find(pat, start)`
 * and the fields of `s.split(sep)`, with the meaning Python gives them.
 */
module Text {
  import opened Wrappers

  /** `pat` occurs in `s` starting at index `i`. */
  predicate OccursAt(s: string, pat: string, i: int)
  {
    0 <= i && i + |pat| <= |s| && s[i..i + |pat|] == pat
  }

  /** `s.find(pat, from)`: the first index at or after `from` where `pat` occurs. */
  function IndexFrom(s: string, pat: string, from: nat): (r: Option<nat>)
    ensures r.Some? ==> from <= r.value && OccursAt(s, pat, r.value)
    ensures r.Some? ==> forall j :: from <= j < r.value ==> !OccursAt(s, pat, j)
    ensures r.None? ==> forall j :: from <= j ==> !OccursAt(s, pat, j)
    decreases |s| - from
  {
    if from + |pat| > |s| then None
    else if s[from..from + |pat|] == pat then Some(from)
    else IndexFrom(s, pat, from + 1)
  }

  /** Python's `pat in s`. */
  predicate Contains(s: string, pat: string)
  {
    IndexFrom(s, pat, 0).Some?
  }

  /** `s.split(sep)[0]`: everything before the first `sep`, or all of `s`. */
  function Field0(s: string, sep: string): (r: string)
    requires sep != []
    ensures r <= s
    ensures r == s || OccursAt(s, sep, |r|)
    ensures forall j :: 0 <= j ==> !OccursAt(r, sep, j)
  {
    match IndexFrom(s, sep, 0)
    case None => s
    case Some(i) =>
      assert forall j :: 0 <= j ==> OccursAt(s[..i], sep, j) ==> OccursAt(s, sep, j);
      s[..i]
  }

  /** `s.split(sep)[1]`: the text between the first and the second `sep`, or up to the end. */
  function Field1(s: string, sep: string): (r: string)
    requires sep != [] && Contains(s, sep)
    ensures exists i :: OccursAt(s, sep, i) && r <= s[i + |sep|..]
    ensures forall j :: 0 <= j ==> !OccursAt(r, sep, j)
  {
    var i := IndexFrom(s, sep, 0).value;
    Field0(s[i + |sep|..], sep)
  }

  /** An occurrence of `outer` holds an occurrence of each of its own parts. */
  lemma ContainsPart(s: string, outer: string, k: nat, inner: string)
    requires OccursAt(outer, inner, k)
    ensures Contains(s, outer) ==> Contains(s, inner)
  {
    if Contains(s, outer) {
      var i := IndexFrom(s, outer, 0).value;
      assert s[i + k..i + k + |inner|] == outer[k..k + |inner|];
      assert OccursAt(s, inner, i + k);
    }
  }
}
