/** Small definitions shared by the whole project. */
module Basics {

  datatype Option<+T> = None | Some(value: T)

  /** Reading a missing key of a Go `map[string]string` yields the empty string. */
  function Lookup(m: map<string, string>, key: string): string {
    if key in m then m[key] else ""
  }

  /** Deleting a key, present or not, with Go's `delete`. */
  function Without<K, V>(m: map<K, V>, key: K): (r: map<K, V>)
    ensures r.Keys == m.Keys - {key}
    ensures forall k :: k in r ==> r[k] == m[k]
  {
    m - {key}
  }

  /** Some elements of `b`, in the order in which `b` has them. */
  ghost predicate Subsequence<T>(a: seq<T>, b: seq<T>) {
    |a| == 0 ||
    (|b| > 0 && ((a[|a| - 1] == b[|b| - 1] && Subsequence(a[..|a| - 1], b[..|b| - 1]))
                 || Subsequence(a, b[..|b| - 1])))
  }

  lemma SubsequenceSkip<T>(a: seq<T>, b: seq<T>, x: T)
    requires Subsequence(a, b)
    ensures Subsequence(a, b + [x])
  {
    assert (b + [x])[..|b|] == b;
  }

  lemma SubsequenceTake<T>(a: seq<T>, b: seq<T>, x: T)
    requires Subsequence(a, b)
    ensures Subsequence(a + [x], b + [x])
  {
    assert (a + [x])[..|a|] == a;
    assert (b + [x])[..|b|] == b;
  }

  ghost predicate Injective<K, V>(m: map<K, V>) {
    forall k, l :: k in m && l in m && m[k] == m[l] ==> k == l
  }

  /** An injective map has as many values as keys. */
  lemma {:induction false} InjectiveSize<K, V>(m: map<K, V>)
    requires Injective(m)
    ensures |m.Values| == |m|
    decreases |m|
  {
    if m == map[] {
      assert m.Values == {};
    } else {
      var k :| k in m;
      var rest := Without(m, k);
      assert |rest.Keys| == |m.Keys| - 1;
      InjectiveSize(rest);
      assert m.Values == rest.Values + {m[k]};
    }
  }

  lemma SubsetSize<T>(a: set<T>, b: set<T>)
    requires a <= b
    ensures |a| <= |b|
    ensures |a| == |b| <==> a == b
  {
    assert b == a + (b - a);
  }
}
