/**
 * The priority queue: a binary heap, newest commit first. Places are counted
 * from 1, so the parent of place `i` is `i / 2`.
 */
module PQueue {

  type Key = nat -> nat

  predicate Above(key: Key, h: seq<nat>, i: nat)
    requires 2 <= i <= |h|
  {
    key(h[i / 2 - 1]) >= key(h[i - 1])
  }

  predicate Heap(key: Key, h: seq<nat>) {
    forall i :: 2 <= i <= |h| ==> Above(key, h, i)
  }

  lemma {:induction false} RootIsMax(key: Key, h: seq<nat>, i: nat)
    requires Heap(key, h) && 1 <= i <= |h|
    ensures key(h[0]) >= key(h[i - 1])
    decreases i
  {
    if i > 1 {
      assert Above(key, h, i);
      RootIsMax(key, h, i / 2);
    }
  }

  function Swap(h: seq<nat>, i: nat, j: nat): seq<nat>
    requires 1 <= i <= |h| && 1 <= j <= |h|
  {
    h[i - 1 := h[j - 1]][j - 1 := h[i - 1]]
  }

  lemma SwapMultiset(h: seq<nat>, i: nat, j: nat)
    requires 1 <= i < j <= |h|
    ensures multiset(Swap(h, i, j)) == multiset(h)
  {
    var a, b := i - 1, j - 1;
    var mid := h[a + 1..b];
    assert h == h[..a] + [h[a]] + mid + [h[b]] + h[b + 1..];
    assert Swap(h, i, j) == h[..a] + [h[b]] + mid + [h[a]] + h[b + 1..];
  }

  // ----- inserting -----

  /** Ordered except that place `i` may be above its parent; its children already fit its parent. */
  predicate RisingAt(key: Key, h: seq<nat>, i: nat) {
    && 1 <= i <= |h|
    && (forall j :: 2 <= j <= |h| && j != i ==> Above(key, h, j))
    && (forall j :: 2 <= j <= |h| && j / 2 == i && i >= 2 ==> key(h[i / 2 - 1]) >= key(h[j - 1]))
  }

  lemma RiseStep(key: Key, h: seq<nat>, i: nat)
    requires RisingAt(key, h, i) && i >= 2 && !Above(key, h, i)
    ensures RisingAt(key, Swap(h, i / 2, i), i / 2)
  {
    var g := Swap(h, i / 2, i);
    forall j | 2 <= j <= |h| && j != i / 2 ensures Above(key, g, j) {
      if j != i {
        assert Above(key, h, j);
      }
    }
    forall j | 2 <= j <= |h| && j / 2 == i / 2 && i / 2 >= 2 ensures key(g[i / 2 / 2 - 1]) >= key(g[j - 1]) {
      assert Above(key, h, i / 2);
      if j != i {
        assert Above(key, h, j);
      }
    }
  }

  /** Appends an element and moves it up past smaller ones. */
  method Insert(key: Key, h0: seq<nat>, x: nat) returns (h: seq<nat>)
    requires Heap(key, h0)
    ensures Heap(key, h) && multiset(h) == multiset(h0) + multiset{x} && |h| == |h0| + 1
  {
    h := h0 + [x];
    var i: nat := |h|;
    forall j | 2 <= j <= |h| && j != i ensures Above(key, h, j) { assert Above(key, h0, j); }
    while i > 1 && key(h[i / 2 - 1]) < key(x)
      invariant RisingAt(key, h, i) && h[i - 1] == x
      invariant multiset(h) == multiset(h0) + multiset{x} && |h| == |h0| + 1
    {
      RiseStep(key, h, i);
      SwapMultiset(h, i / 2, i);
      h := Swap(h, i / 2, i);
      i := i / 2;
    }
  }

  // ----- removing the first -----

  /** Ordered except that place `i` may be below its children; they already fit its parent. */
  predicate SinkingAt(key: Key, h: seq<nat>, i: nat) {
    && 1 <= i
    && (forall j :: 2 <= j <= |h| && j / 2 != i ==> Above(key, h, j))
    && (forall j :: 2 <= j <= |h| && j / 2 == i && i >= 2 ==> key(h[i / 2 - 1]) >= key(h[j - 1]))
  }

  /** The child of place `i` with the larger key, the left one on a tie; 0 if there is none. */
  function MaxChild(key: Key, h: seq<nat>, i: nat): nat
    requires i >= 1
  {
    if 2 * i > |h| then 0
    else if 2 * i + 1 <= |h| && key(h[2 * i - 1]) < key(h[2 * i]) then 2 * i + 1
    else 2 * i
  }

  lemma SinkStep(key: Key, h: seq<nat>, i: nat)
    requires SinkingAt(key, h, i) && MaxChild(key, h, i) != 0
    requires key(h[i - 1]) < key(h[MaxChild(key, h, i) - 1])
    ensures SinkingAt(key, Swap(h, i, MaxChild(key, h, i)), MaxChild(key, h, i))
  {
    var c := MaxChild(key, h, i);
    var g := Swap(h, i, c);
    forall j | 2 <= j <= |h| && j / 2 != c ensures Above(key, g, j) {
      if j / 2 != i {
        assert Above(key, h, j);
      }
    }
    forall j | 2 <= j <= |h| && j / 2 == c ensures key(g[c / 2 - 1]) >= key(g[j - 1]) {
      assert Above(key, h, j);
    }
  }

  lemma SinkDone(key: Key, h: seq<nat>, i: nat)
    requires SinkingAt(key, h, i) && i <= |h|
    requires MaxChild(key, h, i) != 0 ==> key(h[i - 1]) >= key(h[MaxChild(key, h, i) - 1])
    ensures Heap(key, h)
  {
    forall j | 2 <= j <= |h| ensures Above(key, h, j) {
      if j / 2 == i {
        assert j == 2 * i || j == 2 * i + 1;
      }
    }
  }

  /** Takes out the first element, which has the largest key; the last one takes its place and sinks. */
  method Pop(key: Key, h0: seq<nat>) returns (x: nat, h: seq<nat>)
    requires Heap(key, h0) && h0 != []
    ensures multiset(h0) == multiset(h) + multiset{x} && |h| == |h0| - 1
    ensures Heap(key, h) && x in h0
    ensures forall y :: y in h0 ==> key(y) <= key(x)
  {
    x := h0[0];
    forall y | y in h0 ensures key(y) <= key(x) {
      var k :| 0 <= k < |h0| && h0[k] == y;
      RootIsMax(key, h0, k + 1);
    }
    h := h0[..|h0| - 1];
    assert h0 == h + [h0[|h0| - 1]];
    if h != [] {
      assert h0 == [x] + h[1..] + [h0[|h0| - 1]];
      h := h[0 := h0[|h0| - 1]];
      assert h == [h0[|h0| - 1]] + h[1..];
      forall j | 2 <= j <= |h| && j / 2 != 1 ensures Above(key, h, j) { assert Above(key, h0, j); }
      h := Sink(key, h);
    }
  }

  /** Moves the first element down past larger ones. */
  method Sink(key: Key, h0: seq<nat>) returns (h: seq<nat>)
    requires h0 != [] && SinkingAt(key, h0, 1)
    ensures Heap(key, h) && multiset(h) == multiset(h0) && |h| == |h0|
  {
    h := h0;
    var i: nat := 1;
    while MaxChild(key, h, i) != 0 && key(h[i - 1]) < key(h[MaxChild(key, h, i) - 1])
      invariant SinkingAt(key, h, i) && i <= |h|
      invariant multiset(h) == multiset(h0) && |h| == |h0|
      decreases |h| - i
    {
      var c := MaxChild(key, h, i);
      SinkStep(key, h, i);
      SwapMultiset(h, i, c);
      h := Swap(h, i, c);
      i := c;
    }
    SinkDone(key, h, i);
  }
}
