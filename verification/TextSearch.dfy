/** Searching text for a character. */
module TextSearch {

  /** The first position of c, |s| if there is none. */
  function IndexOf(s: string, c: char): (i: nat)
    ensures i <= |s| && (i < |s| ==> s[i] == c)
    ensures forall j :: 0 <= j < i ==> s[j] != c
  {
    if s == "" || s[0] == c then 0 else 1 + IndexOf(s[1..], c)
  }

  lemma {:induction false} FirstIndex(s: string, c: char, t: string)
    requires c !in s
    ensures IndexOf(s + [c] + t, c) == |s|
  {
    var all := s + [c] + t;
    assert all[|s|] == c;
    assert forall j :: 0 <= j < |s| ==> all[j] == s[j] && s[j] in s;
  }
}
