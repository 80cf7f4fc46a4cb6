/** Concatenation of one text per element of a sequence, in order: how the
    generator's loop appends one declaration line per field. */
module Concat {

  function Join<T>(xs: seq<T>, line: T -> string): string {
    if xs == [] then [] else line(xs[0]) + Join(xs[1..], line)
  }

  /** Regrouping a concatenation, stated once so that the solver need not
      rediscover it on long texts. */
  lemma AppendAssoc<T>(a: seq<T>, b: seq<T>, c: seq<T>)
    ensures (a + b) + c == a + (b + c)
  {
  }

  /** Appending an element appends its line. */
  lemma {:induction false} JoinSnoc<T>(xs: seq<T>, x: T, line: T -> string)
    ensures Join(xs + [x], line) == Join(xs, line) + line(x)
  {
    if xs == [] {
      assert [x][1..] == [];
    } else {
      assert (xs + [x])[1..] == xs[1..] + [x];
      JoinSnoc(xs[1..], x, line);
    }
  }

  /** Extending a prefix by one element extends its lines by that element's. */
  lemma JoinPrefix<T>(xs: seq<T>, i: nat, line: T -> string)
    requires i < |xs|
    ensures Join(xs[..i + 1], line) == Join(xs[..i], line) + line(xs[i])
  {
    assert xs[..i + 1] == xs[..i] + [xs[i]];
    JoinSnoc(xs[..i], xs[i], line);
  }

  /** The line of element `i` comes after the lines of the elements before it
      and before those of the elements after it. */
  lemma {:induction false} JoinInOrder<T>(xs: seq<T>, i: nat, line: T -> string)
    requires i < |xs|
    ensures Join(xs, line) == Join(xs[..i], line) + line(xs[i]) + Join(xs[i + 1..], line)
  {
    if i == 0 {
      assert xs[..0] == [];
      assert xs[1..] == xs[i + 1..];
    } else {
      var tail := xs[1..];
      JoinInOrder(tail, i - 1, line);
      assert tail[..i - 1] == xs[..i][1..];
      assert tail[i..] == xs[i + 1..];
    }
  }
}
