/** The two operations of Go's `strings` package that the crawler relies on:
    `strings.TrimSuffix` (in the URL normaliser) and `strings.Contains` (in the
    Content-Type test). */
module Strings {

  predicate HasPrefix(s: string, prefix: string) {
    |prefix| <= |s| && s[..|prefix|] == prefix
  }

  predicate HasSuffix(s: string, suffix: string) {
    |suffix| <= |s| && s[|s| - |suffix|..] == suffix
  }

  /** `strings.TrimSuffix`: drops ONE occurrence of `suffix` at the end of `s`,
      and returns `s` unchanged when it does not end with `suffix`. */
  function TrimSuffix(s: string, suffix: string): (r: string)
    ensures HasSuffix(s, suffix) ==> r + suffix == s
    ensures !HasSuffix(s, suffix) ==> r == s
  {
    if HasSuffix(s, suffix) then s[..|s| - |suffix|] else s
  }

  /** `strings.Contains`: does `sub` occur somewhere in `s`? Scans `s` from the
      left, testing each position for a prefix match. */
  function Contains(s: string, sub: string): (found: bool)
    decreases |s|
    ensures HasPrefix(s, sub) ==> found
    ensures found ==> |sub| <= |s|
  {
    HasPrefix(s, sub) || (|s| > 0 && Contains(s[1..], sub))
  }

  /** `sub` occurs in `s` starting at offset `i`. */
  predicate OccursAt(s: string, sub: string, i: int) {
    0 <= i <= |s| - |sub| && s[i..i + |sub|] == sub
  }

  /** Dropping the first character of `s` moves every occurrence one
      offset to the left. */
  lemma OccursShift(s: string, sub: string, i: int)
    requires |s| > 0 && 0 <= i
    ensures OccursAt(s[1..], sub, i) <==> OccursAt(s, sub, i + 1)
  {
    if 0 <= i <= |s| - 1 - |sub| {
      var t := s[1..];
      assert forall k {:trigger t[k]} :: 0 <= k < |t| ==> t[k] == s[k + 1];
      assert t[i..i + |sub|] == s[i + 1..i + 1 + |sub|];
    }
  }

  /** Contains agrees with the definition of a substring occurrence: an offset
      at which `sub` is found. */
  lemma {:induction false} ContainsIff(s: string, sub: string)
    ensures Contains(s, sub) <==> exists i :: OccursAt(s, sub, i)
  {
    if HasPrefix(s, sub) {
      assert OccursAt(s, sub, 0);
    } else if |s| == 0 {
    } else {
      ContainsIff(s[1..], sub);
      if Contains(s[1..], sub) {
        var i :| OccursAt(s[1..], sub, i);
        OccursShift(s, sub, i);
      } else {
        forall i | OccursAt(s, sub, i)
          ensures false
        {
          if i > 0 {
            OccursShift(s, sub, i - 1);
          }
        }
      }
    }
  }
}
