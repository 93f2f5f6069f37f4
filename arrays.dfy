/**
 * The one JavaScript array built-in whose meaning the front end's logic
 * depends on: `Array.prototype.some`, used by the month helpers and by the
 * navigation guard.
 */
module Arrays {

  /** `s.some(p)`: scans from the front and answers true at the first element that satisfies `p`. */
  function Any<T>(s: seq<T>, p: T -> bool): (r: bool)
    ensures r ==> s != []
    ensures s != [] && p(s[0]) ==> r
  {
    if s == [] then false else p(s[0]) || Any(s[1..], p)
  }

  /** `some` holds exactly when there is an index whose element satisfies the predicate. */
  lemma {:induction false} AnyIff<T>(s: seq<T>, p: T -> bool)
    ensures Any(s, p) <==> exists i :: 0 <= i < |s| && p(s[i])
  {
    if s != [] {
      AnyIff(s[1..], p);
      if Any(s[1..], p) {
        var i :| 0 <= i < |s[1..]| && p(s[1..][i]);
        assert p(s[i + 1]);
      }
      if exists i :: 0 <= i < |s| && p(s[i]) {
        var i :| 0 <= i < |s| && p(s[i]);
        if i > 0 {
          assert p(s[1..][i - 1]);
        }
      }
    }
  }
}
