/**
 * Karma as a function of vote tallies.
 *
 * A tally is one `(author, votes)` entry per post. A user's karma is meant to be
 * the sum of the votes of the posts that user wrote: `Vote` moves one post's
 * tally and its author's karma by the same amount, and new posts start at 0.
 */
module Karma {

  /** The sum of the votes of the entries whose author is `a`. */
  function KarmaOf<A(==)>(a: A, tally: seq<(A, int)>): int {
    if tally == [] then 0
    else KarmaOf(a, tally[..|tally| - 1]) + (if tally[|tally| - 1].0 == a then tally[|tally| - 1].1 else 0)
  }

  /** The sum over two tallies is the sum of the sums. */
  lemma {:induction false} KarmaOfConcat<A>(a: A, t1: seq<(A, int)>, t2: seq<(A, int)>)
    ensures KarmaOf(a, t1 + t2) == KarmaOf(a, t1) + KarmaOf(a, t2)
  {
    if t2 == [] {
      assert t1 + t2 == t1;
    } else {
      assert (t1 + t2)[..|t1 + t2| - 1] == t1 + t2[..|t2| - 1];
      KarmaOfConcat(a, t1, t2[..|t2| - 1]);
    }
  }

  /** Moving one entry's votes by `d` moves its author's sum by `d` and no one else's. */
  lemma {:induction false} KarmaOfShift<A>(a: A, tally: seq<(A, int)>, i: nat, d: int)
    requires i < |tally|
    ensures KarmaOf(a, tally[i := (tally[i].0, tally[i].1 + d)])
         == KarmaOf(a, tally) + (if tally[i].0 == a then d else 0)
  {
    var shifted := tally[i := (tally[i].0, tally[i].1 + d)];
    var n := |tally| - 1;
    if i == n {
      assert shifted[..n] == tally[..n];
    } else {
      assert shifted[..n] == tally[..n][i := (tally[i].0, tally[i].1 + d)];
      KarmaOfShift(a, tally[..n], i, d);
    }
  }

  /** A fresh entry with no votes changes nobody's sum, wherever it is inserted. */
  lemma KarmaOfInsertZero<A>(a: A, t1: seq<(A, int)>, b: A, t2: seq<(A, int)>)
    ensures KarmaOf(a, t1 + [(b, 0)] + t2) == KarmaOf(a, t1 + t2)
  {
    KarmaOfConcat(a, t1 + [(b, 0)], t2);
    KarmaOfConcat(a, t1, [(b, 0)]);
    KarmaOfConcat(a, t1, t2);
    assert [(b, 0)][..0] == [];
  }

  /** Someone who wrote none of the entries has a sum of 0. */
  lemma {:induction false} KarmaOfAbsent<A>(a: A, tally: seq<(A, int)>)
    requires forall i :: 0 <= i < |tally| ==> tally[i].0 != a
    ensures KarmaOf(a, tally) == 0
  {
    if tally != [] {
      KarmaOfAbsent(a, tally[..|tally| - 1]);
    }
  }
}
