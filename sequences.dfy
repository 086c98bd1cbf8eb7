/** Sequence helpers for values the source takes from a `HashMap`: the
    order in which a map hands out its keys is unspecified, so the model
    takes it as a sequence that enumerates the keys, each exactly once,
    and states order-dependent results up to permutation. */
module Sequences {

  predicate Distinct<T(==)>(s: seq<T>) {
    forall i, j :: 0 <= i < j < |s| ==> s[i] != s[j]
  }

  /** `order` lists every element of `keys` exactly once, as an iteration
      over a map with that key set does. */
  predicate Enumerates<T(==)>(order: seq<T>, keys: set<T>) {
    Distinct(order) && (forall i :: 0 <= i < |order| ==> order[i] in keys)
    && (forall k :: k in keys ==> k in order)
  }

  function MapSeq<A, B>(f: A -> B, s: seq<A>): (r: seq<B>)
    ensures |r| == |s|
  {
    if |s| == 0 then [] else [f(s[0])] + MapSeq(f, s[1..])
  }

  /** Concatenation of a sequence of sequences. */
  function Concat<T>(parts: seq<seq<T>>): seq<T> {
    if |parts| == 0 then [] else parts[0] + Concat(parts[1..])
  }

  lemma {:induction false} ConcatAppend<T>(parts: seq<seq<T>>, last: seq<T>)
    ensures Concat(parts + [last]) == Concat(parts) + last
  {
    if |parts| == 0 {
      assert parts + [last] == [last];
    } else {
      assert (parts + [last])[1..] == parts[1..] + [last];
      ConcatAppend(parts[1..], last);
    }
  }

  /** Concatenation splits at any part boundary. */
  lemma {:induction false} ConcatSplit<T>(parts: seq<seq<T>>, i: nat)
    requires i <= |parts|
    ensures Concat(parts) == Concat(parts[..i]) + Concat(parts[i..])
  {
    if i > 0 {
      ConcatSplit(parts[1..], i - 1);
      assert parts[1..][..i - 1] == parts[..i][1..];
      assert parts[1..][i - 1..] == parts[i..];
    } else {
      assert parts[..0] == [];
    }
  }

  lemma {:induction false} ConcatLength<T>(parts: seq<seq<T>>, w: nat)
    requires forall k :: 0 <= k < |parts| ==> |parts[k]| == w
    ensures |Concat(parts)| == w * |parts|
  {
    if |parts| > 0 {
      ConcatLength(parts[1..], w);
    }
  }

  /** In a sequence without repetitions every element occurs once. */
  lemma {:induction false} DistinctMultiplicity<T>(s: seq<T>, x: T)
    requires Distinct(s)
    ensures multiset(s)[x] == if x in s then 1 else 0
  {
    if |s| > 0 {
      assert s == [s[0]] + s[1..];
      DistinctMultiplicity(s[1..], x);
      assert s[0] !in s[1..];
    }
  }

  /** Two enumerations of the same key set are permutations of each other. */
  lemma EnumerationsPermute<T>(o1: seq<T>, o2: seq<T>, keys: set<T>)
    requires Enumerates(o1, keys) && Enumerates(o2, keys)
    ensures multiset(o1) == multiset(o2)
  {
    forall x ensures multiset(o1)[x] == multiset(o2)[x] {
      DistinctMultiplicity(o1, x);
      DistinctMultiplicity(o2, x);
    }
  }

  /** An enumeration has as many elements as the set. */
  lemma {:induction false} EnumerationSize<T>(order: seq<T>, keys: set<T>)
    requires Enumerates(order, keys)
    ensures |order| == |keys|
    decreases |order|
  {
    if order != [] {
      var k := order[0];
      assert Enumerates(order[1..], keys - {k}) by {
        assert forall i :: 0 < i < |order| ==> order[i] != k;
        forall x | x in keys - {k} ensures x in order[1..] {
          var i :| 0 <= i < |order| && order[i] == x;
          assert i != 0;
          assert order[1..][i - 1] == x;
        }
      }
      EnumerationSize(order[1..], keys - {k});
    } else {
      assert forall x :: x in keys ==> x in order;
      assert keys == {};
    }
  }

  /** Taking the same element out of two permutations of each other
      leaves two permutations of each other. */
  lemma RemoveMatching<T>(a: seq<T>, b: seq<T>, j: nat)
    requires multiset(a) == multiset(b) && |a| > 0 && j < |b| && b[j] == a[0]
    ensures multiset(a[1..]) == multiset(b[..j] + b[j + 1..])
  {
    assert a == [a[0]] + a[1..];
    assert b == b[..j] + [b[j]] + b[j + 1..];
    var rest := b[..j] + b[j + 1..];
    forall x ensures multiset(a[1..])[x] == multiset(rest)[x] {
      assert multiset(a)[x] == multiset([a[0]])[x] + multiset(a[1..])[x];
      assert multiset(b)[x] == multiset(b[..j])[x] + multiset([b[j]])[x] + multiset(b[j + 1..])[x];
    }
    assert multiset(a[1..]) == multiset(rest);
  }

  lemma MapSplit<A, B>(f: A -> B, b: seq<A>, j: nat)
    requires j <= |b|
    ensures MapSeq(f, b) == MapSeq(f, b[..j]) + MapSeq(f, b[j..])
  {
    assert b == b[..j] + b[j..];
    MapAppend(f, b[..j], b[j..]);
  }

  lemma MapAround<A, B>(f: A -> B, b: seq<A>, j: nat)
    requires j < |b|
    ensures MapSeq(f, b) == MapSeq(f, b[..j]) + [f(b[j])] + MapSeq(f, b[j + 1..])
    ensures MapSeq(f, b[..j] + b[j + 1..]) == MapSeq(f, b[..j]) + MapSeq(f, b[j + 1..])
  {
    MapAt3(f, b, j);
    MapAppend(f, b[..j], b[j + 1..]);
  }

  lemma MapAt3<A, B>(f: A -> B, b: seq<A>, j: nat)
    requires j < |b|
    ensures MapSeq(f, b) == MapSeq(f, b[..j]) + [f(b[j])] + MapSeq(f, b[j + 1..])
  {
    var l, m, r := b[..j], b[j..], b[j + 1..];
    MapSplit(f, b, j);
    MapHead(f, m);
    assert m[0] == b[j] && m[1..] == r;
    var ml, mr := MapSeq(f, l), MapSeq(f, r);
    assert ml + ([f(b[j])] + mr) == ml + [f(b[j])] + mr;
  }

  lemma MapHead<A, B>(f: A -> B, s: seq<A>)
    requires |s| > 0
    ensures MapSeq(f, s) == [f(s[0])] + MapSeq(f, s[1..])
  {
  }

  /** Mapping a function over two permutations of each other gives two
      permutations of each other. */
  lemma {:induction false} MapPermutes<A, B>(f: A -> B, a: seq<A>, b: seq<A>)
    requires multiset(a) == multiset(b)
    ensures multiset(MapSeq(f, a)) == multiset(MapSeq(f, b))
    decreases |a|
  {
    if |a| == 0 {
      assert |b| == |multiset(b)| == 0;
    } else {
      assert a[0] in multiset(b);
      var j :| 0 <= j < |b| && b[j] == a[0];
      RemoveMatching(a, b, j);
      MapPermutes(f, a[1..], b[..j] + b[j + 1..]);
      MapAround(f, b, j);
      var l, r := MapSeq(f, b[..j]), MapSeq(f, b[j + 1..]);
      assert MapSeq(f, a) == [f(a[0])] + MapSeq(f, a[1..]);
      calc {
        multiset(MapSeq(f, a));
        multiset([f(a[0])]) + multiset(MapSeq(f, a[1..]));
        multiset([f(a[0])]) + multiset(l + r);
        multiset(l + [f(a[0])] + r);
        multiset(MapSeq(f, b));
      }
    }
  }

  lemma {:induction false} MapAppend<A, B>(f: A -> B, a: seq<A>, b: seq<A>)
    ensures MapSeq(f, a + b) == MapSeq(f, a) + MapSeq(f, b)
  {
    if |a| > 0 {
      assert (a + b)[1..] == a[1..] + b;
      MapAppend(f, a[1..], b);
    } else {
      assert a + b == b;
    }
  }

  lemma {:induction false} MapAt<A, B>(f: A -> B, s: seq<A>, i: nat)
    requires i < |s|
    ensures MapSeq(f, s)[i] == f(s[i])
  {
    if i > 0 {
      MapAt(f, s[1..], i - 1);
    }
  }

  /** The pieces of a three-part concatenation are found again by slicing. */
  lemma SliceParts<T>(a: seq<T>, b: seq<T>, c: seq<T>)
    ensures |a + b + c| == |a| + |b| + |c|
    ensures (a + b + c)[..|a|] == a && (a + b + c)[|a| + |b|..] == c
  {
  }

  lemma SliceMiddle<T>(a: seq<T>, b: seq<T>, c: seq<T>, i: nat, j: nat)
    requires i <= j <= |b|
    ensures (a + b + c)[|a| + i..|a| + j] == b[i..j]
  {
    assert forall x :: 0 <= x < j - i ==> (a + b + c)[|a| + i..|a| + j][x] == b[i..j][x];
  }
}
