/** Substring search, as Rust's `str::contains` performs it on the generated
    code, with the facts needed to tell where a pattern can occur in a text
    assembled from pieces. */
module Substring {

  /** `p` occurs in `s` starting at position `i`. */
  predicate OccursAt(s: string, p: string, i: nat) {
    i + |p| <= |s| && forall k :: 0 <= k < |p| ==> s[i + k] == p[k]
  }

  /** `p` occurs somewhere in `s`: what a substring search must decide. */
  ghost predicate Occurs(s: string, p: string) {
    exists i: nat :: OccursAt(s, p, i)
  }

  /** Whether `p` occurs anywhere in `s`, found by comparing `p` with the
      front of `s` and then of each shorter suffix in turn. */
  function Contains(s: string, p: string): (b: bool)
    ensures b <==> Occurs(s, p)
    decreases |s|
  {
    if |p| > |s| then false
    else if s[..|p|] == p then assert OccursAt(s, p, 0); true
    else
      var rest := Contains(s[1..], p);
      assert rest ==> exists i: nat :: OccursAt(s, p, i) by {
        if rest {
          var j: nat :| OccursAt(s[1..], p, j);
          assert OccursAt(s, p, j + 1);
        }
      }
      assert (exists i: nat :: OccursAt(s, p, i)) ==> rest by {
        if i: nat :| OccursAt(s, p, i) {
          assert OccursAt(s[1..], p, i - 1);
        }
      }
      rest
  }

  /** A text without the first character of a non-empty pattern cannot contain it. */
  lemma AbsentHead(s: string, p: string)
    requires |p| > 0 && p[0] !in s
    ensures !Occurs(s, p)
  {
  }

  /** A text that starts with the pattern contains it. */
  lemma AtStart(s: string, p: string)
    requires p <= s
    ensures Occurs(s, p)
  {
    assert OccursAt(s, p, 0);
  }

  /** Joining two texts: an occurrence in either part is one in the whole,
      and when the join has, on one side, a character the pattern does not
      use, no occurrence can straddle it. */
  lemma OccursJoin(x: string, y: string, p: string)
    requires |p| > 0
    requires (|x| > 0 && x[|x| - 1] !in p) || (|y| > 0 && y[0] !in p)
    ensures Occurs(x + y, p) <==> Occurs(x, p) || Occurs(y, p)
  {
    var xy := x + y;
    if i: nat :| OccursAt(x, p, i) {
      assert OccursAt(xy, p, i);
    }
    if j: nat :| OccursAt(y, p, j) {
      assert OccursAt(xy, p, |x| + j);
    }
    if i: nat :| OccursAt(xy, p, i) {
      if i + |p| <= |x| {
        assert OccursAt(x, p, i);
      } else if i >= |x| {
        assert OccursAt(y, p, i - |x|);
      } else {
        StraddleChars(x, y, p, i);
        assert false;
      }
    }
  }

  /** An occurrence that straddles the join of `x` and `y` uses the last
      character of `x` and the first character of `y`. */
  lemma StraddleChars(x: string, y: string, p: string, i: nat)
    requires OccursAt(x + y, p, i) && i < |x| < i + |p|
    ensures x[|x| - 1] in p && y[0] in p
  {
    assert (x + y)[i + (|x| - 1 - i)] == p[|x| - 1 - i];
    assert (x + y)[i + (|x| - i)] == p[|x| - i];
  }
}
