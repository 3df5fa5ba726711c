/**
 * Order-preserving de-duplication under a key: the name extractors keep
 * the first name of each key and drop the later ones.
 */
module Dedup {

  /** The keys of the elements of `xs`. */
  function KeySet(xs: seq<string>, key: string -> string): set<string> {
    set i | 0 <= i < |xs| :: key(xs[i])
  }

  lemma KeySetSnoc(xs: seq<string>, x: string, key: string -> string)
    ensures KeySet(xs + [x], key) == KeySet(xs, key) + {key(x)}
  {
    var ys := xs + [x];
    forall k | k in KeySet(ys, key) ensures k in KeySet(xs, key) + {key(x)} {
      var i :| 0 <= i < |ys| && key(ys[i]) == k;
      if i < |xs| {
        assert ys[i] == xs[i];
      }
    }
    forall k | k in KeySet(xs, key) ensures k in KeySet(ys, key) {
      var i :| 0 <= i < |xs| && key(xs[i]) == k;
      assert ys[i] == xs[i];
    }
    assert key(ys[|xs|]) == key(x);
  }

  /** The elements of `xs` whose key no earlier element has, in order. */
  function FirstOnes(xs: seq<string>, key: string -> string): seq<string>
    decreases |xs|
  {
    if xs == [] then []
    else
      var p := xs[..|xs| - 1];
      var x := xs[|xs| - 1];
      if key(x) in KeySet(p, key) then FirstOnes(p, key) else FirstOnes(p, key) + [x]
  }

  /** The index of the first element of `xs` with key `k`. */
  function FirstIndex(xs: seq<string>, key: string -> string, k: string): (r: nat)
    requires k in KeySet(xs, key)
    ensures r < |xs| && key(xs[r]) == k
    ensures forall j :: 0 <= j < r ==> key(xs[j]) != k
    decreases |xs|
  {
    var p := xs[..|xs| - 1];
    KeySetSnoc(p, xs[|xs| - 1], key);
    assert xs == p + [xs[|xs| - 1]];
    if k in KeySet(p, key) then
      var r := FirstIndex(p, key, k);
      assert xs[r] == p[r];
      assert forall j :: 0 <= j < r ==> xs[j] == p[j];
      r
    else
      assert forall j :: 0 <= j < |p| ==> key(p[j]) in KeySet(p, key);
      |xs| - 1
  }

  lemma FirstIndexSnoc(xs: seq<string>, x: string, key: string -> string, k: string)
    requires k in KeySet(xs, key)
    ensures k in KeySet(xs + [x], key)
    ensures FirstIndex(xs + [x], key, k) == FirstIndex(xs, key, k)
  {
    KeySetSnoc(xs, x, key);
    assert (xs + [x])[..|xs|] == xs;
  }

  /**
   * The de-duplicated list keeps exactly the keys of `xs`, each once, each
   * through the first element that has it, and in the order those first
   * elements come in `xs`.
   */
  lemma FirstOnesSpec(xs: seq<string>, key: string -> string)
    ensures KeySet(FirstOnes(xs, key), key) == KeySet(xs, key)
    ensures forall i, j :: 0 <= i < j < |FirstOnes(xs, key)| ==> key(FirstOnes(xs, key)[i]) != key(FirstOnes(xs, key)[j])
    ensures forall i :: 0 <= i < |FirstOnes(xs, key)| ==>
      key(FirstOnes(xs, key)[i]) in KeySet(xs, key) &&
      FirstOnes(xs, key)[i] == xs[FirstIndex(xs, key, key(FirstOnes(xs, key)[i]))]
    ensures forall i, j :: 0 <= i < j < |FirstOnes(xs, key)| ==>
      key(FirstOnes(xs, key)[i]) in KeySet(xs, key) && key(FirstOnes(xs, key)[j]) in KeySet(xs, key) &&
      FirstIndex(xs, key, key(FirstOnes(xs, key)[i])) < FirstIndex(xs, key, key(FirstOnes(xs, key)[j]))
  {
    FirstOnesKeys(xs, key);
    FirstOnesDistinct(xs, key);
    FirstOnesFirst(xs, key);
    FirstOnesOrdered(xs, key);
  }

  /** The kept elements have exactly the keys of `xs`. */
  lemma {:induction false} FirstOnesKeys(xs: seq<string>, key: string -> string)
    ensures KeySet(FirstOnes(xs, key), key) == KeySet(xs, key)
    decreases |xs|
  {
    if xs != [] {
      var p := xs[..|xs| - 1];
      var x := xs[|xs| - 1];
      assert xs == p + [x];
      FirstOnesKeys(p, key);
      KeySetSnoc(p, x, key);
      if key(x) !in KeySet(p, key) {
        KeySetSnoc(FirstOnes(p, key), x, key);
      }
    }
  }

  /** No two kept elements share a key. */
  lemma {:induction false} FirstOnesDistinct(xs: seq<string>, key: string -> string)
    ensures forall i, j :: 0 <= i < j < |FirstOnes(xs, key)| ==> key(FirstOnes(xs, key)[i]) != key(FirstOnes(xs, key)[j])
    decreases |xs|
  {
    if xs != [] {
      var p := xs[..|xs| - 1];
      var x := xs[|xs| - 1];
      var d := FirstOnes(p, key);
      FirstOnesDistinct(p, key);
      if key(x) !in KeySet(p, key) {
        FirstOnesKeys(p, key);
        var r := d + [x];
        forall i, j | 0 <= i < j < |r| ensures key(r[i]) != key(r[j]) {
          if j == |d| {
            assert key(r[i]) == key(d[i]) && key(d[i]) in KeySet(d, key);
          } else {
            assert r[i] == d[i] && r[j] == d[j];
          }
        }
      }
    }
  }

  /** Each kept element is the first element of `xs` with its key. */
  lemma {:induction false} FirstOnesFirst(xs: seq<string>, key: string -> string)
    ensures forall i :: 0 <= i < |FirstOnes(xs, key)| ==>
      key(FirstOnes(xs, key)[i]) in KeySet(xs, key) &&
      FirstOnes(xs, key)[i] == xs[FirstIndex(xs, key, key(FirstOnes(xs, key)[i]))]
    decreases |xs|
  {
    if xs != [] {
      var p := xs[..|xs| - 1];
      var x := xs[|xs| - 1];
      assert xs == p + [x];
      var d := FirstOnes(p, key);
      FirstOnesFirst(p, key);
      forall i | 0 <= i < |d|
        ensures key(d[i]) in KeySet(xs, key) && d[i] == xs[FirstIndex(xs, key, key(d[i]))]
      {
        FirstIndexSnoc(p, x, key, key(d[i]));
        assert xs[FirstIndex(p, key, key(d[i]))] == p[FirstIndex(p, key, key(d[i]))];
      }
      if key(x) !in KeySet(p, key) {
        KeySetSnoc(p, x, key);
        assert FirstIndex(xs, key, key(x)) == |p|;
        var r := d + [x];
        assert forall i :: 0 <= i < |d| ==> r[i] == d[i];
      }
    }
  }

  /** The kept elements come in the order of their first occurrences in `xs`. */
  lemma {:induction false} FirstOnesOrdered(xs: seq<string>, key: string -> string)
    ensures forall i, j :: 0 <= i < j < |FirstOnes(xs, key)| ==>
      key(FirstOnes(xs, key)[i]) in KeySet(xs, key) && key(FirstOnes(xs, key)[j]) in KeySet(xs, key) &&
      FirstIndex(xs, key, key(FirstOnes(xs, key)[i])) < FirstIndex(xs, key, key(FirstOnes(xs, key)[j]))
    decreases |xs|
  {
    if xs != [] {
      var p := xs[..|xs| - 1];
      var x := xs[|xs| - 1];
      assert xs == p + [x];
      var d := FirstOnes(p, key);
      FirstOnesOrdered(p, key);
      FirstOnesKeys(p, key);
      KeySetSnoc(p, x, key);
      forall i | 0 <= i < |d|
        ensures key(d[i]) in KeySet(p, key) && FirstIndex(xs, key, key(d[i])) == FirstIndex(p, key, key(d[i]))
      {
        assert key(d[i]) in KeySet(d, key);
        FirstIndexSnoc(p, x, key, key(d[i]));
      }
      if key(x) !in KeySet(p, key) {
        assert FirstIndex(xs, key, key(x)) == |p|;
        var r := d + [x];
        forall i, j | 0 <= i < j < |r|
          ensures key(r[i]) in KeySet(xs, key) && key(r[j]) in KeySet(xs, key)
                  && FirstIndex(xs, key, key(r[i])) < FirstIndex(xs, key, key(r[j]))
        {
          assert r[i] == d[i];
          if j < |d| {
            assert r[j] == d[j];
          } else {
            assert r[j] == x;
            assert FirstIndex(p, key, key(d[i])) < |p|;
          }
        }
        assert FirstOnes(xs, key) == r;
      } else {
        assert FirstOnes(xs, key) == d;
      }
    } else {
      assert FirstOnes(xs, key) == [];
    }
  }

  /** Every kept element is an element of the input. */
  lemma {:induction false} FirstOnesElements(xs: seq<string>, key: string -> string)
    ensures forall k :: 0 <= k < |FirstOnes(xs, key)| ==> FirstOnes(xs, key)[k] in xs
    decreases |xs|
  {
    if xs != [] {
      var p := xs[..|xs| - 1];
      FirstOnesElements(p, key);
      assert forall y :: y in p ==> y in xs;
    }
  }

  /** The identity key: de-duplication by exact equality. */
  function Same(s: string): string { s }

  lemma InKeySetSame(xs: seq<string>, x: string)
    ensures x in xs <==> x in KeySet(xs, Same)
  {
    if x in xs {
      var i :| 0 <= i < |xs| && xs[i] == x;
      assert Same(xs[i]) == x;
    }
  }

  /** One more element: it is kept exactly when its key is new. */
  lemma FirstOnesSnoc(xs: seq<string>, x: string, key: string -> string)
    ensures FirstOnes(xs + [x], key) == if key(x) in KeySet(xs, key) then FirstOnes(xs, key) else FirstOnes(xs, key) + [x]
  {
    assert (xs + [x])[..|xs|] == xs;
  }

  /** Exact de-duplication, one element at a time: `if x not in kept: kept.append(x)`. */
  lemma FirstOnesSameSnoc(xs: seq<string>, x: string)
    ensures FirstOnes(xs + [x], Same) == if x in FirstOnes(xs, Same) then FirstOnes(xs, Same) else FirstOnes(xs, Same) + [x]
  {
    FirstOnesSnoc(xs, x, Same);
    FirstOnesSpec(xs, Same);
    InKeySetSame(FirstOnes(xs, Same), x);
  }
}
