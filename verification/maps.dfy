/** Facts about maps and about their iteration orders. A Python dict is iterated in insertion
    order; the model keeps dicts as Dafny maps and passes that iteration order explicitly, as
    a duplicate-free sequence of the map's keys. */
module Maps {

  /** `m'` agrees with `m` on every key other than `k`: same keys, same values. */
  ghost predicate AgreeOutside<K(!new), V>(m: map<K, V>, m': map<K, V>, k: K)
  {
    forall x :: x != k ==> (x in m <==> x in m') && (x in m ==> m'[x] == m[x])
  }

  predicate Distinct<K(==)>(ids: seq<K>)
  {
    forall i, j :: 0 <= i < j < |ids| ==> ids[i] != ids[j]
  }

  /** `ids` lists every key of `m` exactly once. */
  predicate IsEnumeration<K(==), V>(ids: seq<K>, m: map<K, V>)
  {
    && Distinct(ids)
    && (forall i :: 0 <= i < |ids| ==> ids[i] in m)
    && (forall k :: k in m ==> k in ids)
  }

  /** Applies `f` to every element, keeping the order. */
  function MapSeq<A, B>(f: A -> B, s: seq<A>): (r: seq<B>)
    ensures |r| == |s|
    ensures forall i :: 0 <= i < |s| ==> r[i] == f(s[i])
  {
    seq(|s|, i requires 0 <= i < |s| => f(s[i]))
  }

  lemma MapSeqAppend<A, B>(f: A -> B, a: seq<A>, b: seq<A>)
    ensures MapSeq(f, a + b) == MapSeq(f, a) + MapSeq(f, b)
  {
    assert forall i :: 0 <= i < |a + b| ==> MapSeq(f, a + b)[i] == (MapSeq(f, a) + MapSeq(f, b))[i];
  }

  /** In a duplicate-free sequence every element occurs exactly once. */
  lemma {:induction false} DistinctMultiplicity<K>(ids: seq<K>, k: K)
    requires Distinct(ids)
    ensures multiset(ids)[k] == if k in ids then 1 else 0
  {
    if |ids| > 0 {
      assert ids == [ids[0]] + ids[1..];
      assert Distinct(ids[1..]);
      DistinctMultiplicity(ids[1..], k);
      assert ids[0] !in ids[1..];
    }
  }

  /** Two enumerations of the same map are permutations of each other. */
  lemma EnumerationsArePermutations<K, V>(ids1: seq<K>, ids2: seq<K>, m: map<K, V>)
    requires IsEnumeration(ids1, m) && IsEnumeration(ids2, m)
    ensures multiset(ids1) == multiset(ids2)
  {
    forall k
      ensures multiset(ids1)[k] == multiset(ids2)[k]
    {
      DistinctMultiplicity(ids1, k);
      DistinctMultiplicity(ids2, k);
    }
  }

  lemma MultisetCancel<A>(m: multiset<A>, n: multiset<A>, x: A)
    requires m + multiset{x} == n + multiset{x}
    ensures m == n
  {
    forall y
      ensures m[y] == n[y]
    {
      assert (m + multiset{x})[y] == (n + multiset{x})[y];
    }
  }

  /** Removing the element at `j` removes one occurrence of it from the multiset. */
  lemma RemoveAtMultiset<A>(b: seq<A>, j: nat)
    requires j < |b|
    ensures multiset(b) == multiset(b[..j] + b[j+1..]) + multiset{b[j]}
  {
    assert b == b[..j] + [b[j]] + b[j+1..];
  }

  lemma MapSeqRemoveAt<A, B>(f: A -> B, b: seq<A>, j: nat)
    requires j < |b|
    ensures multiset(MapSeq(f, b)) == multiset(MapSeq(f, b[..j] + b[j+1..])) + multiset{f(b[j])}
  {
    var rest := b[..j] + b[j+1..];
    var mb, mr := MapSeq(f, b), MapSeq(f, rest);
    assert forall i :: 0 <= i < j ==> rest[i] == b[i];
    assert forall i :: j <= i < |rest| ==> rest[i] == b[i + 1];
    assert mb == mr[..j] + [f(b[j])] + mr[j..];
    assert mr == mr[..j] + mr[j..];
  }

  /** Mapping a function over two permutations of each other yields permutations of each other. */
  lemma {:induction false} MapSeqPermutation<A, B>(f: A -> B, a: seq<A>, b: seq<A>)
    requires multiset(a) == multiset(b)
    ensures multiset(MapSeq(f, a)) == multiset(MapSeq(f, b))
    decreases |a|
  {
    if |a| == 0 {
      assert |b| == |multiset(b)| == 0;
      assert MapSeq(f, a) == [] == MapSeq(f, b);
    } else {
      var x, a' := a[0], a[1..];
      assert a == [x] + a';
      assert multiset(a) == multiset{x} + multiset(a');
      assert x in multiset(b);
      var j :| 0 <= j < |b| && b[j] == x;
      var rest := b[..j] + b[j+1..];
      RemoveAtMultiset(b, j);
      MultisetCancel(multiset(a'), multiset(rest), x);
      MapSeqPermutation(f, a', rest);
      MapSeqRemoveAt(f, b, j);
      MapSeqAppend(f, [x], a');
      assert MapSeq(f, [x]) == [f(x)];
      assert multiset(MapSeq(f, a)) == multiset{f(x)} + multiset(MapSeq(f, a'));
    }
  }
}
