/** Searching and cutting of strings. */
module Texts {
  /** `rfind` */
  function LastIndex(s: string, c: char): (r: int)
    ensures -1 <= r < |s|
    ensures r >= 0 ==> s[r] == c
    ensures forall i | r < i < |s| :: s[i] != c
  {
    if s == "" then -1
    else if s[|s| - 1] == c then |s| - 1
    else LastIndex(s[..|s| - 1], c)
  }

  /** `split` on a one-character separator, from the right. */
  function Split(s: string, c: char): (r: seq<string>)
    ensures |r| >= 1
    decreases |s|
  {
    var i := LastIndex(s, c);
    if i < 0 then [s] else Split(s[..i], c) + [s[i + 1..]]
  }
}
