/** Searching a sequence front to back, as every `for … range` lookup of the system does. */
module Seqs {

  /**
   * The position of the first element satisfying `p`, or `|s|` when there is none.
   * The three clauses determine the result uniquely.
   */
  function FirstIndex<T>(s: seq<T>, p: T -> bool): (k: nat)
    ensures k <= |s|
    ensures k < |s| ==> p(s[k])
    ensures forall j :: 0 <= j < k ==> !p(s[j])
    decreases |s|
  {
    if s == [] then 0 else if p(s[0]) then 0 else 1 + FirstIndex(s[1..], p)
  }

  /** `FirstIndex` reports a miss exactly when no element satisfies `p`. */
  lemma FirstIndexMiss<T>(s: seq<T>, p: T -> bool)
    ensures FirstIndex(s, p) == |s| <==> forall j :: 0 <= j < |s| ==> !p(s[j])
  {
  }

  /**
   * Two sequences whose elements agree position by position on their predicates have
   * their first match at the same place.
   */
  lemma {:induction false} FirstIndexAgrees<T, U>(s: seq<T>, p: T -> bool, t: seq<U>, q: U -> bool)
    requires |s| == |t|
    requires forall j :: 0 <= j < |s| ==> p(s[j]) == q(t[j])
    ensures FirstIndex(s, p) == FirstIndex(t, q)
  {
    var k, m := FirstIndex(s, p), FirstIndex(t, q);
    assert k < |s| ==> q(t[k]);
    assert m < |t| ==> p(s[m]);
  }
}
