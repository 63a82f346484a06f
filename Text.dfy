/** Predicates on strings used to state the shape of generated command lines. */
module Text {

  /** `t` occurs in `s` starting at index `i`. */
  predicate OccursAt(t: string, s: string, i: int) {
    0 <= i && i + |t| <= |s| && s[i..i + |t|] == t
  }

  /** `t` occurs somewhere in `s`. */
  predicate Contains(s: string, t: string) {
    exists i | 0 <= i <= |s| :: OccursAt(t, s, i)
  }

  predicate StartsWith(s: string, p: string) {
    OccursAt(p, s, 0)
  }

  predicate EndsWith(s: string, t: string) {
    |t| <= |s| && OccursAt(t, s, |s| - |t|)
  }

  /** Occurrences inside the right operand of a concatenation are occurrences of the whole. */
  lemma {:induction false} OccursAtShift(t: string, pre: string, s: string, i: int)
    requires OccursAt(t, s, i)
    ensures OccursAt(t, pre + s, |pre| + i)
  {
  }

  /**
   * When the first character of `t` does not appear in `pre`, `t` can only
   * occur in `pre + s` inside `s`: prepending `pre` neither creates nor
   * hides an occurrence.
   */
  lemma {:induction false} ContainsPastFreePrefix(pre: string, s: string, t: string)
    requires |t| > 0 && t[0] !in pre
    ensures Contains(pre + s, t) <==> Contains(s, t)
  {
    if Contains(pre + s, t) {
      var i :| 0 <= i <= |pre + s| && OccursAt(t, pre + s, i);
      assert i + |t| <= |pre + s| && (pre + s)[i..i + |t|] == t;
      assert (pre + s)[i] == t[0];
      assert forall j :: 0 <= j < |pre| ==> (pre + s)[j] == pre[j];
      assert i >= |pre|;
      assert s[i - |pre|..i - |pre| + |t|] == (pre + s)[i..i + |t|];
      assert OccursAt(t, s, i - |pre|);
    }
    if Contains(s, t) {
      var j :| 0 <= j <= |s| && OccursAt(t, s, j);
      OccursAtShift(t, pre, s, j);
    }
  }
}
