/**
 * The string operations the write path performs on UIDs and IRIs:
 * `s.split(c)[0]` and the first position of a character.
 */
module RdfStrings {

  /** The position of the first `c` in `s`, or `|s|` when there is none. */
  function IndexOf(s: string, c: char): (i: nat)
    ensures i <= |s|
    ensures i < |s| ==> s[i] == c
    ensures forall j :: 0 <= j < i ==> s[j] != c
  {
    if s == [] then 0
    else if s[0] == c then 0
    else 1 + IndexOf(s[1..], c)
  }

  /** `s.split(c)[0]`: the text before the first `c` (all of `s` without one). */
  function Before(s: string, c: char): (r: string)
    ensures r <= s && c !in r
    ensures c in s ==> |r| < |s| && s[|r|] == c
    ensures c !in s ==> r == s
  {
    s[..IndexOf(s, c)]
  }

  /** Cutting at the first `c` of `u + [c] + v` gives back `u` when `u` has no `c`. */
  lemma {:induction false} BeforeJoin(u: string, c: char, v: string)
    requires c !in u
    ensures Before(u + [c] + v, c) == u
  {
    var s := u + [c] + v;
    assert s[|u|] == c;
    assert forall j :: 0 <= j < |u| ==> s[j] == u[j] && s[j] != c;
    assert s[..|u|] == u;
  }
}
