/**
 * Sequence facts the engine model relies on.
 *
 * The engine keeps its subreddits in a map and walks it with Go's `range`,
 * whose order is unspecified. A walk is modelled as an `Enumeration` of the
 * map's keys (every key exactly once, in some order), and concatenating the
 * post slices met along the walk as `Gather`.
 */
module Seqs {

  /** No element occurs twice. */
  predicate Distinct<T(==)>(s: seq<T>) {
    forall i, j :: 0 <= i < j < |s| ==> s[i] != s[j]
  }

  /** `order` lists every element of `keys` exactly once and nothing else. */
  predicate IsEnumeration<K(==)>(order: seq<K>, keys: set<K>) {
    && Distinct(order)
    && (forall i :: 0 <= i < |order| ==> order[i] in keys)
    && (forall k :: k in keys ==> k in order)
  }

  /** The identities 1, 2, ..., n in increasing order. */
  function IdOrder(n: nat): seq<int> {
    seq(n, i => i + 1)
  }

  /** The slice stored under `k`, or the empty slice when there is none. */
  function Slice<K(==), V>(m: map<K, seq<V>>, k: K): seq<V> {
    if k in m then m[k] else []
  }

  /** The slices of the keys of `order`, concatenated in that order. */
  function Gather<K(==), V>(m: map<K, seq<V>>, order: seq<K>): seq<V> {
    if order == [] then [] else Gather(m, order[..|order| - 1]) + Slice(m, order[|order| - 1])
  }

  /** The total number of elements of the slices of the keys of `order`. */
  function TotalLength<K(==), V>(m: map<K, seq<V>>, order: seq<K>): nat {
    if order == [] then 0 else TotalLength(m, order[..|order| - 1]) + |Slice(m, order[|order| - 1])|
  }

  lemma IdOrderEnumerates(n: nat, keys: set<int>)
    requires forall k :: k in keys <==> 1 <= k <= n
    ensures IsEnumeration(IdOrder(n), keys)
  {
    var o := IdOrder(n);
    forall k | k in keys ensures k in o {
      assert o[k - 1] == k;
    }
  }

  lemma {:induction false} GatherConcat<K, V>(m: map<K, seq<V>>, a: seq<K>, b: seq<K>)
    ensures Gather(m, a + b) == Gather(m, a) + Gather(m, b)
  {
    if b == [] {
      assert a + b == a;
    } else {
      var b' := b[..|b| - 1];
      assert (a + b)[..|a + b| - 1] == a + b';
      GatherConcat(m, a, b');
    }
  }

  lemma GatherSingle<K, V>(m: map<K, seq<V>>, k: K)
    ensures Gather(m, [k]) == Slice(m, k)
  {
    assert [k][..0] == [];
  }

  /** Splitting the walk at position `j` splits the concatenation around `m[order[j]]`. */
  lemma GatherSplit<K, V>(m: map<K, seq<V>>, order: seq<K>, j: nat)
    requires j < |order|
    ensures Gather(m, order) == Gather(m, order[..j]) + Slice(m, order[j]) + Gather(m, order[j + 1..])
  {
    assert order == order[..j] + [order[j]] + order[j + 1..];
    GatherSingle(m, order[j]);
    GatherConcat(m, order[..j], [order[j]]);
    GatherConcat(m, order[..j] + [order[j]], order[j + 1..]);
  }

  /** Gathering only reads the slices of the keys it visits. */
  lemma {:induction false} GatherAgree<K, V>(m1: map<K, seq<V>>, m2: map<K, seq<V>>, order: seq<K>)
    requires forall k :: k in order ==> Slice(m1, k) == Slice(m2, k)
    ensures Gather(m1, order) == Gather(m2, order)
  {
    if order != [] {
      GatherAgree(m1, m2, order[..|order| - 1]);
    }
  }

  /** The concatenation is as long as all the slices together. */
  lemma {:induction false} GatherLength<K, V>(m: map<K, seq<V>>, order: seq<K>)
    ensures |Gather(m, order)| == TotalLength(m, order)
  {
    if order != [] {
      GatherLength(m, order[..|order| - 1]);
    }
  }

  /** An element is gathered exactly when the slice of some visited key holds it. */
  lemma {:induction false} GatherMember<K, V>(m: map<K, seq<V>>, order: seq<K>, x: V)
    ensures x in Gather(m, order) <==> exists k :: k in order && x in Slice(m, k)
  {
    if order != [] {
      var o' := order[..|order| - 1];
      var last := order[|order| - 1];
      GatherMember(m, o', x);
      if x in Slice(m, last) {
        assert last in order;
      }
      if exists k :: k in order && x in Slice(m, k) {
        var k :| k in order && x in Slice(m, k);
        if k != last {
          assert k in o';
        }
      }
    }
  }

  /** Appending one element to the slice of a key visited once at position `j`
      inserts that element right after the slice's old last element. */
  lemma GatherAppendAt<K, V>(m: map<K, seq<V>>, order: seq<K>, j: nat, x: V)
    requires j < |order| && Distinct(order)
    ensures Gather(m[order[j] := Slice(m, order[j]) + [x]], order)
         == Gather(m, order[..j]) + Slice(m, order[j]) + [x] + Gather(m, order[j + 1..])
  {
    var k := order[j];
    var v := Slice(m, k) + [x];
    DistinctOnlyAt(order, j);
    GatherUpdateAway(m, order[..j], k, v);
    GatherUpdateAway(m, order[j + 1..], k, v);
    GatherSplit(m[k := v], order, j);
    AppendInside(Gather(m, order[..j]), Slice(m, k), x, Gather(m, order[j + 1..]));
  }

  lemma AppendInside<T>(a: seq<T>, s: seq<T>, x: T, b: seq<T>)
    ensures a + (s + [x]) + b == a + s + [x] + b
  {
  }

  /** Changing the slice of a key the walk does not visit changes nothing. */
  lemma GatherUpdateAway<K, V>(m: map<K, seq<V>>, order: seq<K>, k: K, v: seq<V>)
    requires k !in order
    ensures Gather(m[k := v], order) == Gather(m, order)
  {
    GatherAgree(m[k := v], m, order);
  }

  /** In a sequence without repetitions, the element at `j` occurs nowhere else. */
  lemma DistinctOnlyAt<T>(s: seq<T>, j: nat)
    requires j < |s| && Distinct(s)
    ensures s[j] !in s[..j] && s[j] !in s[j + 1..]
  {
    // Dafny finds this proof unaided; the steps below spell it out.
    forall i | 0 <= i < |s| && i != j ensures s[i] != s[j] {
      if i < j {
        assert s[i] != s[j];
      } else {
        assert s[j] != s[i];
      }
    }
  }

  /** Without position `j`, an enumeration of `keys` enumerates the other keys. */
  lemma EnumerationWithout<K>(order: seq<K>, keys: set<K>, j: nat)
    requires IsEnumeration(order, keys) && j < |order|
    ensures IsEnumeration(order[..j] + order[j + 1..], keys - {order[j]})
  {
    // Dafny finds this proof unaided; the steps below spell it out.
    var rest := order[..j] + order[j + 1..];
    forall a, b | 0 <= a < b < |rest| ensures rest[a] != rest[b] {
      var a' := if a < j then a else a + 1;
      var b' := if b < j then b else b + 1;
      assert rest[a] == order[a'] && rest[b] == order[b'];
    }
    forall k ensures k in rest <==> k in keys - {order[j]} {
      if k in rest {
        var a :| 0 <= a < |rest| && rest[a] == k;
        var a' := if a < j then a else a + 1;
        assert order[a'] == k;
      }
      if k in keys - {order[j]} {
        var a :| 0 <= a < |order| && order[a] == k;
        assert a != j;
        if a < j {
          assert rest[a] == k;
        } else {
          assert rest[a - 1] == k;
        }
      }
    }
  }

  /** Two walks over the same keys gather the same elements, each as often:
      the order of a map traversal only permutes the result. */
  lemma {:induction false} GatherPermutes<K, V>(m: map<K, seq<V>>, keys: set<K>, o1: seq<K>, o2: seq<K>)
    requires IsEnumeration(o1, keys) && IsEnumeration(o2, keys)
    ensures multiset(Gather(m, o1)) == multiset(Gather(m, o2))
    decreases |o1|
  {
    if o1 != [] {
      var n := |o1| - 1;
      var k := o1[n];
      assert k in o2;
      var j :| 0 <= j < |o2| && o2[j] == k;
      EnumerationWithout(o1, keys, n);
      EnumerationWithout(o2, keys, j);
      assert o1[..n] + o1[n + 1..] == o1[..n];
      var r2 := o2[..j] + o2[j + 1..];
      GatherPermutes(m, keys - {k}, o1[..n], r2);
      GatherSplit(m, o2, j);
      GatherConcat(m, o2[..j], o2[j + 1..]);
    }
  }

  /** A walk extended by one key it has not met yet. */
  lemma EnumerationAppend<K>(order: seq<K>, keys: set<K>, k: K)
    requires IsEnumeration(order, keys) && k !in keys
    ensures IsEnumeration(order + [k], keys + {k})
  {
    // Dafny finds this proof unaided; the steps below spell it out.
    var o := order + [k];
    forall i, j | 0 <= i < j < |o| ensures o[i] != o[j] {
      if j == |order| {
        assert o[i] == order[i] && order[i] in keys;
      }
    }
  }

  /** Extending the walk by one key appends that key's slice. */
  lemma GatherStep<K, V>(m: map<K, seq<V>>, order: seq<K>, k: K)
    ensures Gather(m, order + [k]) == Gather(m, order) + Slice(m, k)
  {
    assert (order + [k])[..|order|] == order;
  }

  /** A walk over the keys already taken, extended by one key still to be
      taken, is a walk over the keys taken after that step. */
  lemma WalkExtend<K>(order: seq<K>, keys: set<K>, remaining: set<K>, k: K)
    requires remaining <= keys && k in remaining && IsEnumeration(order, keys - remaining)
    ensures IsEnumeration(order + [k], keys - (remaining - {k}))
  {
    EnumerationAppend(order, keys - remaining, k);
    assert keys - remaining + {k} == keys - (remaining - {k});
  }

  /** An element of a sequence without repetitions occurs in it exactly once. */
  lemma {:induction false} DistinctOnce<T>(s: seq<T>, x: T)
    requires Distinct(s) && x in s
    ensures multiset(s)[x] == 1
  {
    var n := |s| - 1;
    assert s == s[..n] + [s[n]];
    if s[n] == x {
      assert x !in s[..n];
    } else {
      assert x in s[..n];
      DistinctOnce(s[..n], x);
    }
  }

  /** Inserting an element that is not present keeps a sequence free of duplicates. */
  lemma DistinctInsert<T>(a: seq<T>, b: seq<T>, x: T)
    requires Distinct(a + b) && x !in a + b
    ensures Distinct(a + [x] + b)
  {
    var s := a + [x] + b;
    forall i, j | 0 <= i < j < |s| ensures s[i] != s[j] {
      var i' := if i < |a| then i else i - 1;
      var j' := if j < |a| then j else j - 1;
      if i != |a| && j != |a| {
        assert s[i] == (a + b)[i'] && s[j] == (a + b)[j'];
      } else if i == |a| {
        assert s[j] == (a + b)[j'];
      } else {
        assert s[i] == (a + b)[i'];
      }
    }
  }

  /**
   * One step of a walk over `remaining` in an unspecified order: any key
   * still to be visited. `todo` lists the keys still to be visited in some
   * order; it carries the witness from which the pick is justified.
   */
  method Pick<K>(remaining: set<K>, ghost todo: seq<K>) returns (key: K, ghost rest: seq<K>)
    requires IsEnumeration(todo, remaining) && |todo| == |remaining| && |remaining| > 0
    ensures key in remaining
    ensures IsEnumeration(rest, remaining - {key}) && |rest| == |remaining - {key}|
  {
    ghost var first := todo[0];
    assert first in remaining;
    key :| key in remaining;
    ghost var j :| 0 <= j < |todo| && todo[j] == key;
    EnumerationWithout(todo, remaining, j);
    rest := todo[..j] + todo[j + 1..];
  }
}
