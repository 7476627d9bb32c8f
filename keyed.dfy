/** Dictionaries filled by a loop that assigns `d[key(x)] = val(x)` for each
    element `x` of a list in order, so that a later element with the same key
    overwrites an earlier one. */
module Keyed {

  /** The dictionary such a loop leaves after the elements `xs`. */
  function Index<K, V, W>(xs: seq<V>, key: V -> K, val: V -> W): map<K, W>
  {
    if xs == [] then map[]
    else Index(xs[..|xs| - 1], key, val)[key(xs[|xs| - 1]) := val(xs[|xs| - 1])]
  }

  /** No element after `xs[j]` has the same key. */
  predicate LastWith<K(==), V>(xs: seq<V>, key: V -> K, j: nat)
  {
    j < |xs| && forall i :: j < i < |xs| ==> key(xs[i]) != key(xs[j])
  }

  /** The keys of the dictionary are exactly the keys of the elements. */
  lemma {:induction false} IndexKeys<K, V, W>(xs: seq<V>, key: V -> K, val: V -> W)
    ensures forall j :: 0 <= j < |xs| ==> key(xs[j]) in Index(xs, key, val)
    ensures forall k :: k in Index(xs, key, val) ==> exists j :: 0 <= j < |xs| && key(xs[j]) == k
  {
    if xs != [] {
      var init := xs[..|xs| - 1];
      IndexKeys(init, key, val);
      forall j | 0 <= j < |xs| ensures key(xs[j]) in Index(xs, key, val) {
        if j < |init| {
          assert init[j] == xs[j];
        }
      }
      forall k | k in Index(xs, key, val) ensures exists j :: 0 <= j < |xs| && key(xs[j]) == k {
        if k != key(xs[|xs| - 1]) {
          var j :| 0 <= j < |init| && key(init[j]) == k;
          assert xs[j] == init[j];
        }
      }
    }
  }

  /** A key holds the value of the last element with that key. */
  lemma {:induction false} IndexLast<K, V, W>(xs: seq<V>, key: V -> K, val: V -> W)
    ensures forall j: nat :: LastWith(xs, key, j) ==>
      key(xs[j]) in Index(xs, key, val) && Index(xs, key, val)[key(xs[j])] == val(xs[j])
  {
    if xs != [] {
      var n := |xs| - 1;
      var init := xs[..n];
      var d := Index(init, key, val);
      assert Index(xs, key, val) == d[key(xs[n]) := val(xs[n])];
      IndexLast(init, key, val);
      forall j: nat | LastWith(xs, key, j)
        ensures key(xs[j]) in Index(xs, key, val) && Index(xs, key, val)[key(xs[j])] == val(xs[j])
      {
        if j < n {
          assert key(xs[n]) != key(xs[j]);
          assert LastWith(init, key, j) by {
            forall i | j < i < n ensures key(init[i]) != key(init[j]) {
              assert init[i] == xs[i] && init[j] == xs[j];
            }
          }
          assert d[key(init[j])] == val(init[j]);
        }
      }
    }
  }

  /** A key of the dictionary comes from a last element with that key, whose
      value it holds. */
  lemma {:induction false} IndexWitness<K, V, W>(xs: seq<V>, key: V -> K, val: V -> W, k: K)
    requires k in Index(xs, key, val)
    ensures exists j: nat :: LastWith(xs, key, j) && key(xs[j]) == k && Index(xs, key, val)[k] == val(xs[j])
  {
    var n := |xs| - 1;
    var init := xs[..n];
    if k == key(xs[n]) {
      assert LastWith(xs, key, n);
    } else {
      IndexWitness(init, key, val, k);
      var j: nat :| LastWith(init, key, j) && key(init[j]) == k && Index(init, key, val)[k] == val(init[j]);
      assert xs[j] == init[j];
      assert LastWith(xs, key, j) by {
        forall i | j < i < |xs| ensures key(xs[i]) != key(xs[j]) {
          if i < n { assert xs[i] == init[i]; }
        }
      }
    }
  }

  /** One more element: the loop step. */
  lemma IndexSnoc<K, V, W>(xs: seq<V>, i: nat, key: V -> K, val: V -> W)
    requires i < |xs|
    ensures Index(xs[..i + 1], key, val) == Index(xs[..i], key, val)[key(xs[i]) := val(xs[i])]
  {
    assert xs[..i + 1][..i] == xs[..i];
  }
}
