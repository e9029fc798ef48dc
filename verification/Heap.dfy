/** Binary heaps in a sequence, as the Go library's `container/heap` maintains them for any order
    `less`.  Sifting is written as functions; every operation keeps the heap order and permutes.
 */
module Heap {

  /** What is needed of an order at three elements: `less` is asymmetric and its negation transitive. */
  ghost predicate OrderAt<T>(less: (T, T) -> bool, a: T, b: T, c: T) {
    && !(less(a, b) && less(b, a))
    && (!less(b, a) && !less(c, b) ==> !less(c, a))
  }

  ghost predicate Order<T(!new)>(less: (T, T) -> bool) {
    forall a, b, c :: OrderAt(less, a, b, c)
  }

  function Parent(i: nat): (p: nat)
    requires i > 0
    ensures p < i
  {
    (i - 1) / 2
  }

  function Swap<T>(s: seq<T>, i: nat, j: nat): (t: seq<T>)
    requires i < |s| && j < |s|
    ensures |t| == |s|
  {
    s[i := s[j]][j := s[i]]
  }

  /** Entry `i` is not smaller than its parent. */
  ghost predicate Settled<T>(less: (T, T) -> bool, s: seq<T>, i: nat)
    requires 0 < i < |s|
  {
    !less(s[i], s[Parent(i)])
  }

  ghost predicate IsHeap<T>(less: (T, T) -> bool, s: seq<T>) {
    forall i | 0 < i < |s| :: Settled(less, s, i)
  }

  /** Entry `k` respects the parent of `j`, should `j` be its parent. */
  ghost predicate Grandchild<T>(less: (T, T) -> bool, s: seq<T>, j: nat, k: nat, lo: nat := 0)
    requires 0 < k < |s| && j < |s|
  {
    Parent(k) == j && j > 0 && lo <= Parent(j) ==> !less(s[k], s[Parent(j)])
  }

  /** A heap except that entry `j` may be smaller than its parent. */
  ghost predicate HeapButUp<T>(less: (T, T) -> bool, s: seq<T>, j: nat)
    requires j < |s|
  {
    && (forall k | 0 < k < |s| && k != j :: Settled(less, s, k))
    && (forall k | 0 < k < |s| :: Grandchild(less, s, j, k))
  }

  /** The entries below the parents `lo..` are in heap order. */
  ghost predicate HeapFrom<T>(less: (T, T) -> bool, s: seq<T>, lo: nat) {
    forall k | 0 < k < |s| && lo <= Parent(k) :: Settled(less, s, k)
  }

  /** In heap order from `lo` except that entry `i` may be larger than its children. */
  ghost predicate HeapButDown<T>(less: (T, T) -> bool, s: seq<T>, i: nat, lo: nat)
    requires i < |s|
  {
    && (forall k | 0 < k < |s| && lo <= Parent(k) != i :: Settled(less, s, k))
    && (forall k | 0 < k < |s| :: Grandchild(less, s, i, k, lo))
  }

  function Up<T>(less: (T, T) -> bool, s: seq<T>, j: nat): (t: seq<T>)
    requires j < |s|
    ensures |t| == |s|
    decreases j
  {
    if j == 0 || !less(s[j], s[Parent(j)]) then s else Up(less, Swap(s, Parent(j), j), Parent(j))
  }

  /** The smaller child of `i`, or `i` itself if it has none. */
  function Child<T>(less: (T, T) -> bool, s: seq<T>, i: nat): (j: nat)
    requires i < |s|
    ensures j < |s| && (j == i || (j > i && Parent(j) == i))
    ensures j == i <==> 2 * i + 1 >= |s|
  {
    var l, r := 2 * i + 1, 2 * i + 2;
    if l >= |s| then i else if r < |s| && less(s[r], s[l]) then r else l
  }

  function Down<T>(less: (T, T) -> bool, s: seq<T>, i: nat): (t: seq<T>)
    requires i < |s|
    ensures |t| == |s|
    decreases |s| - i
  {
    var j := Child(less, s, i);
    if j == i || !less(s[j], s[i]) then s else Down(less, Swap(s, i, j), j)
  }

  lemma {:induction false} UpRestores<T(!new)>(less: (T, T) -> bool, s: seq<T>, j: nat)
    requires Order(less) && j < |s| && HeapButUp(less, s, j)
    ensures IsHeap(less, Up(less, s, j))
    decreases j
  {
    if j > 0 && less(s[j], s[Parent(j)]) {
      UpStep(less, s, j);
      UpRestores(less, Swap(s, Parent(j), j), Parent(j));
    } else if j > 0 {
      assert Settled(less, s, j);
    }
  }

  lemma UpStep<T(!new)>(less: (T, T) -> bool, s: seq<T>, j: nat)
    requires Order(less) && 0 < j < |s| && HeapButUp(less, s, j) && less(s[j], s[Parent(j)])
    ensures HeapButUp(less, Swap(s, Parent(j), j), Parent(j))
  {
    var p := Parent(j);
    var t := Swap(s, p, j);
    forall k | 0 < k < |t| && k != p ensures Settled(less, t, k) {
      if k == j {
        assert OrderAt(less, s[j], s[p], s[j]);
      } else {
        assert Settled(less, s, k) && Grandchild(less, s, j, k);
        assert OrderAt(less, s[j], s[p], s[k]);
      }
    }
    forall k | 0 < k < |t| ensures Grandchild(less, t, p, k) {
      if Parent(k) == p && p > 0 {
        assert Settled(less, s, p);
        if k != j {
          assert Settled(less, s, k);
          assert OrderAt(less, s[Parent(p)], s[p], s[k]);
        }
      }
    }
  }

  lemma {:induction false} DownRestores<T(!new)>(less: (T, T) -> bool, s: seq<T>, i: nat, lo: nat)
    requires Order(less) && lo <= i < |s| && HeapButDown(less, s, i, lo)
    ensures HeapFrom(less, Down(less, s, i), lo)
    decreases |s| - i
  {
    var j := Child(less, s, i);
    if j != i && less(s[j], s[i]) {
      DownStep(less, s, i, lo);
      DownRestores(less, Swap(s, i, j), j, lo);
    } else {
      forall k | 0 < k < |s| && lo <= Parent(k) ensures Settled(less, s, k) {
        if Parent(k) == i {
          ChildIsLeast(less, s, i, k);
          assert OrderAt(less, s[i], s[j], s[k]);
        }
      }
    }
  }

  lemma ChildIsLeast<T(!new)>(less: (T, T) -> bool, s: seq<T>, i: nat, k: nat)
    requires Order(less) && i < |s| && 0 < k < |s| && Parent(k) == i
    ensures !less(s[k], s[Child(less, s, i)]) && Child(less, s, i) != i
  {
    var l, r := 2 * i + 1, 2 * i + 2;
    assert k == l || k == r;
    assert r < |s| ==> OrderAt(less, s[r], s[l], s[r]);
    assert OrderAt(less, s[k], s[k], s[k]);
  }

  lemma DownStep<T(!new)>(less: (T, T) -> bool, s: seq<T>, i: nat, lo: nat)
    requires Order(less) && lo <= i < |s| && HeapButDown(less, s, i, lo)
    requires var j := Child(less, s, i); j != i && less(s[j], s[i])
    ensures var j := Child(less, s, i); HeapButDown(less, Swap(s, i, j), j, lo)
  {
    var j := Child(less, s, i);
    var t := Swap(s, i, j);
    assert OrderAt(less, s[j], s[i], s[j]);
    forall k | 0 < k < |t| && lo <= Parent(k) != j ensures Settled(less, t, k) {
      if k == i {
        assert Grandchild(less, s, i, j, lo);
      } else if Parent(k) == i {
        ChildIsLeast(less, s, i, k);
      } else {
        assert Settled(less, s, k);
      }
    }
    forall k | 0 < k < |t| ensures Grandchild(less, t, j, k, lo) {
      if Parent(k) == j {
        assert Settled(less, s, k);
      }
    }
  }

  /** The root of a heap is a least element. */
  lemma {:induction false} RootIsLeast<T(!new)>(less: (T, T) -> bool, s: seq<T>, i: nat)
    requires Order(less) && IsHeap(less, s) && i < |s|
    ensures !less(s[i], s[0])
  {
    if i == 0 {
      assert OrderAt(less, s[0], s[0], s[0]);
    } else {
      RootIsLeast(less, s, Parent(i));
      assert Settled(less, s, i);
      assert OrderAt(less, s[0], s[Parent(i)], s[i]);
    }
  }

  // ---------- sifting permutes ----------

  lemma SwapPermutes<T>(s: seq<T>, i: nat, j: nat)
    requires i < |s| && j < |s|
    ensures multiset(Swap(s, i, j)) == multiset(s)
  {
  }

  lemma {:induction false} UpPermutes<T>(less: (T, T) -> bool, s: seq<T>, j: nat)
    requires j < |s|
    ensures multiset(Up(less, s, j)) == multiset(s)
    decreases j
  {
    if j > 0 && less(s[j], s[Parent(j)]) {
      SwapPermutes(s, Parent(j), j);
      UpPermutes(less, Swap(s, Parent(j), j), Parent(j));
    }
  }

  lemma {:induction false} DownPermutes<T>(less: (T, T) -> bool, s: seq<T>, i: nat)
    requires i < |s|
    ensures multiset(Down(less, s, i)) == multiset(s)
    decreases |s| - i
  {
    var j := Child(less, s, i);
    if j != i && less(s[j], s[i]) {
      SwapPermutes(s, i, j);
      DownPermutes(less, Swap(s, i, j), j);
    }
  }

  // ---------- the operations ----------

  function Push<T>(less: (T, T) -> bool, s: seq<T>, x: T): (t: seq<T>)
    ensures |t| == |s| + 1
  {
    Up(less, s + [x], |s|)
  }

  /** The rest of the heap once the root is taken: the last entry replaces it and sifts down. */
  function PopRest<T>(less: (T, T) -> bool, s: seq<T>): (t: seq<T>)
    requires s != []
    ensures |t| == |s| - 1
  {
    RemoveAt(less, s, 0)
  }

  /** Removes entry `i`: the last entry takes its place and sifts down or, if it stays, up. */
  function RemoveAt<T>(less: (T, T) -> bool, s: seq<T>, i: nat): (t: seq<T>)
    requires i < |s|
    ensures |t| == |s| - 1
  {
    var n := |s| - 1;
    if i == n then s[..n]
    else
      var r := s[..n][i := s[n]];
      var j := Child(less, r, i);
      if j != i && less(r[j], r[i]) then Down(less, r, i) else Up(less, r, i)
  }

  /** Heap order from the entries `k..` down to the root, one sift per inner entry. */
  function InitFrom<T>(less: (T, T) -> bool, s: seq<T>, k: nat): (t: seq<T>)
    requires k <= |s|
    ensures |t| == |s|
    decreases k
  {
    if k == 0 then s else InitFrom(less, Down(less, s, k - 1), k - 1)
  }

  function Init<T>(less: (T, T) -> bool, s: seq<T>): (t: seq<T>)
    ensures |t| == |s|
  {
    InitFrom(less, s, |s| / 2)
  }

  lemma PushKeepsHeap<T(!new)>(less: (T, T) -> bool, s: seq<T>, x: T)
    requires Order(less) && IsHeap(less, s)
    ensures IsHeap(less, Push(less, s, x))
    ensures multiset(Push(less, s, x)) == multiset(s) + multiset{x}
  {
    var r, n := s + [x], |s|;
    forall k | 0 < k < |r| && k != n ensures Settled(less, r, k) {
      assert Settled(less, s, k);
    }
    UpRestores(less, r, n);
    UpPermutes(less, r, n);
  }

  lemma RemoveAtPermutes<T>(less: (T, T) -> bool, s: seq<T>, i: nat)
    requires i < |s|
    ensures multiset(s) == multiset(RemoveAt(less, s, i)) + multiset{s[i]}
  {
    var n := |s| - 1;
    assert s == s[..n] + [s[n]];
    if i < n {
      var r := s[..n][i := s[n]];
      UpPermutes(less, r, i);
      DownPermutes(less, r, i);
    }
  }

  lemma RemoveAtKeepsHeap<T(!new)>(less: (T, T) -> bool, s: seq<T>, i: nat)
    requires Order(less) && IsHeap(less, s) && i < |s|
    ensures IsHeap(less, RemoveAt(less, s, i))
  {
    var n := |s| - 1;
    if i == n {
      forall k | 0 < k < n ensures Settled(less, s[..n], k) {
        assert Settled(less, s, k);
      }
    } else {
      var r := s[..n][i := s[n]];
      ReplacedHoles(less, s, i);
      var j := Child(less, r, i);
      if j != i && less(r[j], r[i]) {
        ReplacedDown(less, r, i);
      } else {
        forall k | 0 < k < |r| && k != i ensures Settled(less, r, k) {
          if Parent(k) == i {
            ChildIsLeast(less, r, i, k);
            assert OrderAt(less, r[i], r[j], r[k]);
          }
        }
        UpRestores(less, r, i);
      }
    }
  }

  /** After replacing entry `i`, only the pairs around `i` may be out of order, and the children of `i`
      still respect its parent. */
  lemma ReplacedHoles<T(!new)>(less: (T, T) -> bool, s: seq<T>, i: nat)
    requires Order(less) && IsHeap(less, s) && i < |s| - 1
    ensures var r := s[..|s| - 1][i := s[|s| - 1]];
            && (forall k | 0 < k < |r| && k != i && Parent(k) != i :: Settled(less, r, k))
            && (forall k | 0 < k < |r| :: Grandchild(less, r, i, k))
  {
    var r := s[..|s| - 1][i := s[|s| - 1]];
    forall k | 0 < k < |r| && k != i && Parent(k) != i ensures Settled(less, r, k) {
      assert Settled(less, s, k);
    }
    forall k | 0 < k < |r| ensures Grandchild(less, r, i, k) {
      if Parent(k) == i && i > 0 {
        assert Settled(less, s, k) && Settled(less, s, i);
        assert OrderAt(less, s[Parent(i)], s[i], s[k]);
      }
    }
  }

  /** A replaced entry that is larger than a child cannot be smaller than its parent. */
  lemma ReplacedDown<T(!new)>(less: (T, T) -> bool, r: seq<T>, i: nat)
    requires Order(less) && i < |r|
    requires forall k | 0 < k < |r| && k != i && Parent(k) != i :: Settled(less, r, k)
    requires forall k | 0 < k < |r| :: Grandchild(less, r, i, k)
    requires var j := Child(less, r, i); j != i && less(r[j], r[i])
    ensures IsHeap(less, Down(less, r, i))
  {
    var j := Child(less, r, i);
    if i > 0 {
      assert Grandchild(less, r, i, j);
      assert OrderAt(less, r[j], r[i], r[j]);
      assert OrderAt(less, r[Parent(i)], r[j], r[i]);
      assert Settled(less, r, i);
    }
    DownRestores(less, r, i, 0);
    assert forall k | 0 < k < |r| :: 0 <= Parent(k);
  }

  lemma {:induction false} InitFromMakesHeap<T(!new)>(less: (T, T) -> bool, s: seq<T>, k: nat)
    requires Order(less) && k <= |s| && HeapFrom(less, s, k)
    ensures IsHeap(less, InitFrom(less, s, k)) && multiset(InitFrom(less, s, k)) == multiset(s)
    decreases k
  {
    if k > 0 {
      DownRestores(less, s, k - 1, k - 1);
      DownPermutes(less, s, k - 1);
      InitFromMakesHeap(less, Down(less, s, k - 1), k - 1);
    } else {
      forall i | 0 < i < |s| ensures Settled(less, s, i) {
        assert 0 <= Parent(i);
      }
    }
  }

  lemma InitMakesHeap<T(!new)>(less: (T, T) -> bool, s: seq<T>)
    requires Order(less)
    ensures IsHeap(less, Init(less, s)) && multiset(Init(less, s)) == multiset(s)
  {
    InitFromMakesHeap(less, s, |s| / 2);
  }
}
