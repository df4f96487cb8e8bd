/** ASCII letter case, defined independently of any conversion function:
    the upper-case letters `A`..`Z` and the lower-case letters `a`..`z` are
    32 code points apart. */
module Ascii {

  predicate IsUpper(c: char) {
    'A' <= c <= 'Z'
  }

  /** `x` and `y` are the same character, or the same letter in the two cases. */
  predicate SameIgnoringCase(x: char, y: char) {
    x == y
    || (IsUpper(x) && y as int == x as int + 32)
    || (IsUpper(y) && x as int == y as int + 32)
  }

  /** `a` and `b` spell the same text up to the case of their letters. */
  predicate EqualIgnoringCase(a: string, b: string) {
    |a| == |b| && forall i :: 0 <= i < |a| ==> SameIgnoringCase(a[i], b[i])
  }
}
