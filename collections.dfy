/** Facts about sequences that stand for the iteration order of a Swift dictionary:
    a loop over a dictionary visits every key exactly once, in an order the
    language leaves unspecified. */
module Collections {

  /** No element occurs twice. */
  predicate Distinct<T(==)>(s: seq<T>) {
    forall i, j :: 0 <= i < j < |s| ==> s[i] != s[j]
  }

  /** The set of elements of a sequence. */
  function Elements<T(==)>(s: seq<T>): set<T> {
    set x | x in s
  }

  /** `order` visits every element of `keys` exactly once and nothing else. */
  predicate Enumerates<T(==)>(order: seq<T>, keys: set<T>) {
    Distinct(order) && Elements(order) == keys
  }

  /** Applies `f` to every element, keeping the order. */
  function Map<A, B>(f: A -> B, s: seq<A>): (r: seq<B>)
    ensures |r| == |s|
  {
    if s == [] then [] else [f(s[0])] + Map(f, s[1..])
  }

  /** The i-th output of `Map` is the image of the i-th input. */
  lemma {:induction false} MapAt<A, B>(f: A -> B, s: seq<A>, i: nat)
    requires i < |s|
    ensures Map(f, s)[i] == f(s[i])
  {
    if i > 0 {
      MapAt(f, s[1..], i - 1);
    }
  }

  /** A sequence without repetitions has as many elements as its set. */
  lemma {:induction false} DistinctCardinality<T>(s: seq<T>)
    requires Distinct(s)
    ensures |Elements(s)| == |s|
  {
    if s != [] {
      var rest := s[1..];
      assert Distinct(rest);
      DistinctCardinality(rest);
      assert Elements(s) == Elements(rest) + {s[0]};
      assert s[0] !in Elements(rest);
    }
  }

  /** In a sequence without repetitions every element occurs once. */
  lemma {:induction false} DistinctCount<T>(s: seq<T>, x: T)
    requires Distinct(s)
    ensures multiset(s)[x] == if x in s then 1 else 0
  {
    if s != [] {
      var rest := s[1..];
      assert s == [s[0]] + rest;
      assert Distinct(rest);
      DistinctCount(rest, x);
      assert x == s[0] ==> x !in rest;
    }
  }

  /** A loop over a dictionary's keys that visits one more, not yet visited,
      key has enumerated one more key. */
  lemma EnumeratesStep<T>(order: seq<T>, done: set<T>, x: T)
    requires Enumerates(order, done) && x !in done
    ensures Enumerates(order + [x], done + {x})
  {
    assert Elements(order + [x]) == Elements(order) + {x};
    forall i, j | 0 <= i < j < |order + [x]|
      ensures (order + [x])[i] != (order + [x])[j]
    {
      if j == |order| {
        assert (order + [x])[i] in Elements(order);
      }
    }
  }

  /** Two enumerations of the same set differ only in order. */
  lemma EnumerationsArePermutations<T>(a: seq<T>, b: seq<T>, keys: set<T>)
    requires Enumerates(a, keys) && Enumerates(b, keys)
    ensures multiset(a) == multiset(b)
  {
    forall x ensures multiset(a)[x] == multiset(b)[x] {
      DistinctCount(a, x);
      DistinctCount(b, x);
      assert x in a <==> x in Elements(a);
      assert x in b <==> x in Elements(b);
    }
  }

  /** `Map` distributes over concatenation. */
  lemma {:induction false} MapAppend<A, B>(f: A -> B, u: seq<A>, v: seq<A>)
    ensures Map(f, u + v) == Map(f, u) + Map(f, v)
  {
    if u != [] {
      assert (u + v)[1..] == u[1..] + v;
      MapAppend(f, u[1..], v);
    } else {
      assert u + v == v;
    }
  }

  /** Taking one element out of the input of `Map` takes its image out of the output. */
  lemma MapExtract<A, B>(f: A -> B, u: seq<A>, x: A, v: seq<A>)
    ensures multiset(Map(f, u + [x] + v)) == multiset(Map(f, u + v)) + multiset{f(x)}
  {
    MapAppend(f, u + [x], v);
    MapAppend(f, u, [x]);
    MapAppend(f, u, v);
    assert Map(f, [x]) == [f(x)];
  }

  /** A permutation of a non-empty sequence holds its first element somewhere:
      take it out and what remains on both sides is still a permutation. */
  lemma PermutationSplit<T>(a: seq<T>, b: seq<T>) returns (u: seq<T>, v: seq<T>)
    requires multiset(a) == multiset(b) && a != []
    ensures b == u + [a[0]] + v
    ensures multiset(a[1..]) == multiset(u + v)
  {
    var x := a[0];
    assert a == [x] + a[1..];
    assert x in multiset(b);
    var j :| 0 <= j < |b| && b[j] == x;
    u, v := b[..j], b[j + 1..];
    assert b == u + [x] + v;
    assert multiset(a[1..]) == multiset(a) - multiset{x};
    assert multiset(u + v) == multiset(b) - multiset{x};
  }

  /** Reordering the input of `Map` only reorders its output. */
  lemma {:induction false} MapPermutation<A, B>(f: A -> B, a: seq<A>, b: seq<A>)
    requires multiset(a) == multiset(b)
    ensures multiset(Map(f, a)) == multiset(Map(f, b))
  {
    if a == [] {
      assert |b| == |multiset(b)| == 0;
    } else {
      var u, v := PermutationSplit(a, b);
      MapPermutation(f, a[1..], u + v);
      MapExtract(f, [], a[0], a[1..]);
      MapExtract(f, u, a[0], v);
      assert [] + [a[0]] + a[1..] == a;
      assert [] + a[1..] == a[1..];
    }
  }

  function Sum(s: seq<int>): int {
    if s == [] then 0 else s[0] + Sum(s[1..])
  }

  lemma {:induction false} SumAppend(u: seq<int>, v: seq<int>)
    ensures Sum(u + v) == Sum(u) + Sum(v)
  {
    if u == [] {
      assert u + v == v;
    } else {
      assert (u + v)[1..] == u[1..] + v;
      SumAppend(u[1..], v);
    }
  }

  /** Taking one element out of a sequence takes it out of the sum. */
  lemma SumExtract(u: seq<int>, x: int, v: seq<int>)
    ensures Sum(u + [x] + v) == Sum(u + v) + x
  {
    SumAppend(u + [x], v);
    SumAppend(u, [x]);
    SumAppend(u, v);
    assert Sum([x]) == x + Sum([]);
  }

  /** Reordering does not change a sum. */
  lemma {:induction false} SumPermutation(a: seq<int>, b: seq<int>)
    requires multiset(a) == multiset(b)
    ensures Sum(a) == Sum(b)
  {
    if a == [] {
      assert |b| == |multiset(b)| == 0;
    } else {
      var u, v := PermutationSplit(a, b);
      SumPermutation(a[1..], u + v);
      SumExtract(u, a[0], v);
    }
  }
}
