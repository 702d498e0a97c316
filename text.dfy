/** Character-level string operations shared by the frontend and the backend. */
module Text {

  /**
   * `s.replace(/x/g, y)` for a one-character pattern `x` and replacement `y`
   * (and Python's `str.replace` with the same arguments): every occurrence of
   * `from` becomes `to`, everything else is kept in place.
   */
  function ReplaceAll(s: string, from: char, to: char): (r: string)
    ensures |r| == |s|
    ensures forall i :: 0 <= i < |s| ==> r[i] == if s[i] == from then to else s[i]
    ensures from != to ==> from !in r
  {
    if s == [] then []
    else [if s[0] == from then to else s[0]] + ReplaceAll(s[1..], from, to)
  }

  /** `s` with no `c` in it is left as it is by replacing `c`. */
  lemma {:induction false} ReplaceAllAbsent(s: string, from: char, to: char)
    requires from !in s
    ensures ReplaceAll(s, from, to) == s
  {
    var r := ReplaceAll(s, from, to);
    assert forall i :: 0 <= i < |s| ==> r[i] == s[i];
  }
}
