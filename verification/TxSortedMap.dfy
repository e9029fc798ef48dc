/** Transactions, and the nonce-sorted map that a pool keeps for each account: a map from nonce to
    transaction, a heap of its nonces and an optional sorted cache.
 */
module Transactions {
  type Address = nat

  /** A transaction is its own hash: equal hashes mean equal transactions. */
  datatype Tx = Tx(from: Address, nonce: nat, feeCap: nat, tipCap: nat, gas: nat, value: int, size: nat, salt: nat)

  /** The most a transaction can cost its sender. */
  function Cost(tx: Tx): int {
    tx.feeCap * tx.gas + tx.value
  }

  type Txs = map<nat, Tx>

  ghost predicate Keyed(m: Txs) {
    forall n <- m :: m[n].nonce == n
  }

  /** `s` lists the transactions of `m` in nonce order. */
  ghost predicate Lists(m: Txs, s: seq<Tx>) {
    && |s| == |m|
    && (forall i | 0 <= i < |s| :: s[i].nonce in m && m[s[i].nonce] == s[i])
    && (forall i, j | 0 <= i < j < |s| :: s[i].nonce < s[j].nonce)
  }
}

/** Insertion sort by an integer key; the library's sort is only relied on for its result. */
module Sorting {

  ghost predicate Ascending<T>(key: T -> int, s: seq<T>) {
    forall i, j | 0 <= i < j < |s| :: key(s[i]) <= key(s[j])
  }

  function Insert<T>(key: T -> int, x: T, s: seq<T>): seq<T> {
    if s == [] || key(x) <= key(s[0]) then [x] + s else [s[0]] + Insert(key, x, s[1..])
  }

  function Sort<T>(key: T -> int, s: seq<T>): seq<T> {
    if s == [] then [] else Insert(key, s[0], Sort(key, s[1..]))
  }

  lemma {:induction false} InsertMembers<T>(key: T -> int, x: T, s: seq<T>, y: T)
    ensures y in Insert(key, x, s) <==> y == x || y in s
    ensures |Insert(key, x, s)| == |s| + 1
  {
    if s != [] && key(x) > key(s[0]) {
      InsertMembers(key, x, s[1..], y);
      assert y in s <==> y == s[0] || y in s[1..];
    }
  }

  lemma {:induction false} InsertCount<T>(key: T -> int, x: T, s: seq<T>, y: T)
    ensures multiset(Insert(key, x, s))[y] == multiset(s)[y] + if y == x then 1 else 0
  {
    if s == [] || key(x) <= key(s[0]) {
      CountCons(x, s, y);
    } else {
      InsertCount(key, x, s[1..], y);
      CountCons(s[0], Insert(key, x, s[1..]), y);
      CountCons(s[0], s[1..], y);
      assert s == [s[0]] + s[1..];
    }
  }

  lemma CountCons<T>(x: T, s: seq<T>, y: T)
    ensures multiset([x] + s)[y] == multiset(s)[y] + if y == x then 1 else 0
  {
    assert multiset([x] + s) == multiset{x} + multiset(s);
  }

  lemma {:induction false} InsertSorts<T>(key: T -> int, x: T, s: seq<T>)
    requires Ascending(key, s)
    ensures Ascending(key, Insert(key, x, s))
  {
    if s != [] && key(x) > key(s[0]) {
      var t := Insert(key, x, s[1..]);
      InsertSorts(key, x, s[1..]);
      forall i | 0 <= i < |t| ensures key(s[0]) <= key(t[i]) {
        InsertMembers(key, x, s[1..], t[i]);
      }
    }
  }

  lemma {:induction false} SortSorts<T>(key: T -> int, s: seq<T>)
    ensures Ascending(key, Sort(key, s)) && |Sort(key, s)| == |s|
  {
    if s != [] {
      SortSorts(key, s[1..]);
      InsertSorts(key, s[0], Sort(key, s[1..]));
      InsertMembers(key, s[0], Sort(key, s[1..]), s[0]);
    }
  }

  lemma {:induction false} SortCount<T>(key: T -> int, s: seq<T>, y: T)
    ensures multiset(Sort(key, s))[y] == multiset(s)[y]
  {
    if s != [] {
      SortCount(key, s[1..], y);
      InsertCount(key, s[0], Sort(key, s[1..]), y);
      CountCons(s[0], s[1..], y);
      assert s == [s[0]] + s[1..];
    }
  }

  lemma SortPermutes<T(!new)>(key: T -> int, s: seq<T>)
    ensures multiset(Sort(key, s)) == multiset(s)
  {
    forall y: T ensures multiset(Sort(key, s))[y] == multiset(s)[y] {
      SortCount(key, s, y);
    }
  }
}

module TxSortedMapModel {
  import opened Options
  import opened Transactions
  import opened Heap
  import opened Sorting

  predicate NonceLess(a: nat, b: nat) {
    a < b
  }

  function NonceKey(n: nat): int {
    n
  }

  function TxNonce(tx: Tx): int {
    tx.nonce
  }

  lemma NonceOrder()
    ensures Order(NonceLess)
  {
    forall a, b, c ensures OrderAt(NonceLess, a, b, c) {
    }
  }

  /** The index holds every nonce of the map exactly once and nothing else. */
  ghost predicate Indexes(items: Txs, index: seq<nat>) {
    forall n: nat :: multiset(index)[n] == if n in items then 1 else 0
  }

  ghost predicate IndexOk(items: Txs, index: seq<nat>) {
    IsHeap(NonceLess, index) && Indexes(items, index)
  }

  ghost predicate IsLowest(items: Txs, n: nat) {
    n in items && forall k <- items :: n <= k
  }

  /** The root of the index is the lowest nonce, and taking it out is taking that nonce out. */
  lemma IndexRoot(items: Txs, index: seq<nat>)
    requires IndexOk(items, index) && index != []
    ensures IsLowest(items, index[0])
    ensures IndexOk(items - {index[0]}, PopRest(NonceLess, index))
  {
    NonceOrder();
    var x := index[0];
    assert multiset(index)[x] == 1;
    forall k | k in items ensures x <= k {
      assert multiset(index)[k] == 1;
      var i :| 0 <= i < |index| && index[i] == k;
      RootIsLeast(NonceLess, index, i);
    }
    IndexRemove(items, index, 0);
  }

  lemma IndexRemove(items: Txs, index: seq<nat>, i: nat)
    requires IndexOk(items, index) && i < |index|
    ensures IndexOk(items - {index[i]}, RemoveAt(NonceLess, index, i))
  {
    NonceOrder();
    var x: nat := index[i];
    var rest: seq<nat> := RemoveAt(NonceLess, index, i);
    RemoveAtKeepsHeap(NonceLess, index, i);
    RemoveAtPermutes(NonceLess, index, i);
    forall n: nat ensures multiset(rest)[n] == if n in items - {x} then 1 else 0 {
      assert multiset(index)[n] == if n in items then 1 else 0;
      assert multiset(index)[n] == multiset(rest)[n] + multiset{x}[n];
    }
  }

  lemma IndexPush(items: Txs, index: seq<nat>, tx: Tx)
    requires IndexOk(items, index)
    ensures IndexOk(items[tx.nonce := tx], if tx.nonce in items then index else Push(NonceLess, index, tx.nonce))
  {
    NonceOrder();
    if tx.nonce !in items {
      PushKeepsHeap(NonceLess, index, tx.nonce);
      var t: seq<nat> := Push<nat>(NonceLess, index, tx.nonce);
      forall n: nat ensures multiset(t)[n] == if n in items[tx.nonce := tx] then 1 else 0 {
        assert multiset(index)[n] == if n in items then 1 else 0;
      }
    }
  }

  lemma IndexEmpty(items: Txs, index: seq<nat>)
    requires Indexes(items, index)
    ensures index == [] <==> items == map[]
  {
    if index != [] {
      assert multiset(index)[index[0]] > 0;
    } else {
      assert forall n: nat :: multiset(index)[n] == 0;
    }
  }

  /** A listing starts with the lowest nonce; dropping its head lists the rest. */
  lemma ListHead(m: Txs, s: seq<Tx>, n: nat)
    requires Keyed(m) && Lists(m, s) && IsLowest(m, n)
    ensures s != [] && s[0] == m[n] && Lists(m - {n}, s[1..])
  {
    ListsAll(m, s, n);
    var i :| 0 <= i < |s| && s[i].nonce == n;
    assert n <= s[0].nonce;
    assert 0 < i ==> s[0].nonce < s[i].nonce;
    assert |m - {n}| == |m| - 1 by { MapMinus(m, n); }
  }

  lemma MapMinus(m: Txs, n: nat)
    requires n in m
    ensures |m - {n}| == |m| - 1
  {
    assert (m - {n}).Keys == m.Keys - {n};
  }

  /** The first entry of a cached listing is the one the heap gives up first. */
  lemma CacheStep(items: Txs, index: seq<nat>, c: seq<Tx>, k: nat)
    requires Keyed(items) && IndexOk(items, index) && index != [] && k <= |c| && Lists(items, c[k..])
    ensures k < |c| && Lists(items - {index[0]}, c[k + 1..])
  {
    IndexRoot(items, index);
    ListHead(items, c[k..], index[0]);
    assert c[k..][1..] == c[k + 1..];
  }

  /** All of `m` below `bound` has been popped, in order, and a sorted cache still ends with the rest. */
  ghost predicate Popped(m: Txs, items: Txs, bound: nat, removed: seq<Tx>, cache: Option<seq<Tx>>) {
    && items == From(m, bound) && Lists(Before(m, bound), removed)
    && (cache.Some? ==> |removed| <= |cache.value| && Lists(items, cache.value[|removed|..]))
  }

  lemma PopStep(m: Txs, items: Txs, index: seq<nat>, bound: nat, removed: seq<Tx>, cache: Option<seq<Tx>>, nonce: nat,
                next: nat)
    requires Keyed(items) && IndexOk(items, index) && index != [] && nonce == index[0] && next == nonce + 1
    requires Popped(m, items, bound, removed, cache)
    ensures nonce in items && Popped(m, items - {nonce}, next, removed + [items[nonce]], cache)
  {
    IndexRoot(items, index);
    if cache.Some? {
      CacheStep(items, index, cache.value, |removed|);
    }
    ForwardStep(m, bound, items[nonce], removed);
  }

  /** Every nonce of the map is listed. */
  lemma {:induction false} ListsAll(m: Txs, s: seq<Tx>, n: nat)
    requires Lists(m, s) && n in m
    ensures exists i :: 0 <= i < |s| && s[i].nonce == n
    decreases |s|
  {
    if s != [] && s[|s| - 1].nonce != n {
      var k := s[|s| - 1].nonce;
      MapMinus(m, k);
      ListsAll(m - {k}, s[..|s| - 1], n);
      var i :| 0 <= i < |s| - 1 && s[..|s| - 1][i].nonce == n;
      assert s[i].nonce == n;
    }
  }

  // ---------- what the operations select ----------

  function From(m: Txs, threshold: nat): Txs {
    map n | n in m && n >= threshold :: m[n]
  }

  function Before(m: Txs, threshold: nat): Txs {
    map n | n in m && n < threshold :: m[n]
  }

  function Keep(m: Txs, drop: Tx -> bool): Txs {
    map n | n in m && !drop(m[n]) :: m[n]
  }

  /** `k` is `m` cut down to its `threshold` lowest nonces. */
  ghost predicate IsCapped(m: Txs, k: Txs, threshold: nat) {
    if |m| <= threshold then k == m
    else |k| == threshold && SubmapOf(k, m) && UpperCut(m, k)
  }

  /** What `m` has beyond `k` lies above `k`. */
  ghost predicate UpperCut(m: Txs, k: Txs) {
    forall a <- k, b <- m :: b !in k ==> a < b
  }

  ghost predicate SubmapOf(k: Txs, m: Txs) {
    forall n <- k :: n in m && k[n] == m[n]
  }

  /** `r` is the longest gap-free run of nonces that starts at the lowest nonce of `m`. */
  ghost predicate IsReadyRun(m: Txs, r: seq<Tx>) {
    && r != [] && IsLowest(m, r[0].nonce)
    && (forall i | 0 <= i < |r| :: r[i].nonce == r[0].nonce + i && r[i].nonce in m && m[r[i].nonce] == r[i])
    && r[0].nonce + |r| !in m
  }

  class TxSortedMap {
    var items: Txs
    var index: seq<nat>
    var cache: Option<seq<Tx>>

    ghost predicate Valid()
      reads this
    {
      Keyed(items) && IndexOk(items, index) && (cache.Some? ==> Lists(items, cache.value))
    }

    constructor ()
      ensures Valid() && items == map[]
    {
      items, index, cache := map[], [], None;
    }

    method Put(tx: Tx)
      requires Valid()
      modifies this
      ensures Valid() && items == old(items)[tx.nonce := tx]
    {
      IndexPush(items, index, tx);
      if tx.nonce !in items {
        index := Push(NonceLess, index, tx.nonce);
      }
      items, cache := items[tx.nonce := tx], None;
    }

    /** Takes the lowest nonce out of map and heap. */
    method PopLowest() returns (tx: Tx)
      requires Keyed(items) && IndexOk(items, index) && index != []
      modifies this`items, this`index
      ensures Keyed(items) && IndexOk(items, index)
      ensures IsLowest(old(items), tx.nonce) && tx == old(items)[tx.nonce] && tx.nonce == old(index)[0]
      ensures items == old(items) - {tx.nonce} && |index| == |old(index)| - 1
    {
      IndexRoot(items, index);
      var nonce := index[0];
      index := PopRest(NonceLess, index);
      tx := items[nonce];
      items := items - {nonce};
    }

    /** Removes everything below the threshold; a sorted cache only loses its front. */
    method Forward(threshold: nat) returns (removed: seq<Tx>)
      requires Valid()
      modifies this
      ensures Valid() && items == From(old(items), threshold)
      ensures Lists(Before(old(items), threshold), removed)
    {
      ghost var m, bound := items, 0;
      removed, bound := PopBelow(threshold);
      if index != [] {
        IndexRoot(items, index);
      } else {
        IndexEmpty(items, index);
      }
      NothingBetween(m, bound, threshold);
      if cache.Some? {
        cache := Some(cache.value[|removed|..]);
      }
    }

    /** Pops the lowest nonces as long as they lie below `threshold`; all below `bound` are gone then. */
    method PopBelow(threshold: nat) returns (removed: seq<Tx>, ghost bound: nat)
      requires Valid()
      modifies this`items, this`index
      ensures Keyed(items) && IndexOk(items, index) && (index == [] || index[0] >= threshold)
      ensures bound <= threshold && Popped(old(items), items, bound, removed, cache)
    {
      removed, bound := [], 0;
      ghost var m := items;
      FromZero(m);
      while index != [] && index[0] < threshold
        invariant Keyed(items) && IndexOk(items, index) && bound <= threshold && Popped(m, items, bound, removed, cache)
        decreases |index|
      {
        ghost var nonce, next := index[0], index[0] + 1;
        PopStep(m, items, index, bound, removed, cache, nonce, next);
        var tx := PopLowest();
        bound, removed := next, removed + [tx];
      }
    }

    /** Removes what the predicate selects, in no particular order, without mending the heap. */
    method FilterOnly(drop: Tx -> bool) returns (removed: seq<Tx>)
      requires Keyed(items)
      modifies this`items, this`cache
      ensures items == Keep(old(items), drop) && IsRemainder(old(items), items, removed)
      ensures cache == if removed == [] then old(cache) else None
    {
      removed := [];
      var todo := items.Keys;
      ghost var m := items;
      while todo != {}
        invariant todo <= items.Keys && SubmapOf(items, m)
        invariant forall n <- m :: n in items <==> n in todo || !drop(m[n])
        invariant IsRemainder(m, items, removed) && cache == old(cache)
        decreases todo
      {
        var n :| n in todo;
        if drop(items[n]) {
          RemoveOne(m, items, removed, n);
          removed := removed + [items[n]];
          items := items - {n};
        }
        todo := todo - {n};
      }
      assert items == Keep(m, drop);
      if removed != [] {
        cache := None;
      }
    }

    /** Rebuilds the heap from the map's nonces, in no particular order. */
    method Reheap()
      requires Keyed(items)
      modifies this`index, this`cache
      ensures Valid()
    {
      var nonces: seq<nat> := [];
      var todo := items.Keys;
      while todo != {}
        invariant todo <= items.Keys
        invariant forall n: nat :: multiset(nonces)[n] == if n in items && n !in todo then 1 else 0
        decreases todo
      {
        var n :| n in todo;
        forall k: nat ensures multiset(nonces + [n])[k] == multiset(nonces)[k] + if k == n then 1 else 0 {
        }
        nonces := nonces + [n];
        todo := todo - {n};
      }
      NonceOrder();
      InitMakesHeap(NonceLess, nonces);
      index := Init(NonceLess, nonces);
      cache := None;
    }

    method Filter(drop: Tx -> bool) returns (removed: seq<Tx>)
      requires Valid()
      modifies this
      ensures Valid() && items == Keep(old(items), drop) && IsRemainder(old(items), items, removed)
    {
      removed := FilterOnly(drop);
      if |removed| > 0 {
        Reheap();
      } else {
        NothingRemoved(old(items), items);
      }
    }

    /** Cuts the map down to its lowest nonces and returns the others; a sorted cache only loses its back. */
    method Cap(threshold: nat) returns (drops: seq<Tx>)
      requires Valid()
      modifies this
      ensures Valid() && IsCapped(old(items), items, threshold) && IsRemainder(old(items), items, drops)
    {
      drops := [];
      if |items| <= threshold {
        return;
      }
      ghost var m := items;
      SortedIndex(items, index);
      index := Sort(NonceKey, index);
      drops := DropHighest(threshold);
      CappedIndex(items, index, threshold);
      index := Init(NonceLess, index[..threshold]);
      if cache.Some? {
        ListsPrefix(m, items, cache.value);
        cache := Some(cache.value[..|cache.value| - |drops|]);
      }
    }

    /** Deletes the nonces of a sorted index from the top until `threshold` are left. */
    method DropHighest(threshold: nat) returns (drops: seq<Tx>)
      requires Keyed(items) && threshold <= |items| == |index|
      requires Strict(index) && Spans(items, index, |index|)
      modifies this`items
      ensures Keyed(items) && Spans(items, index, threshold)
      ensures CutDown(old(items), items, drops)
    {
      drops := [];
      ghost var m := items;
      var size := |items|;
      while size > threshold
        invariant threshold <= size <= |index|
        invariant Keyed(items) && Spans(items, index, size)
        invariant CutDown(m, items, drops)
      {
        var nonce := index[size - 1];
        DropLast(m, items, index, size, drops);
        drops := drops + [items[nonce]];
        items := items - {nonce};
        size := size - 1;
      }
    }

    /** Deletes one nonce, wherever it sits in the heap. */
    method Remove(nonce: nat) returns (found: bool)
      requires Valid()
      modifies this
      ensures Valid() && found == (nonce in old(items)) && items == old(items) - {nonce}
    {
      if nonce !in items {
        assert items == items - {nonce};
        return false;
      }
      assert multiset(index)[nonce] == 1;
      var i := 0;
      while i < |index| && index[i] != nonce
        invariant 0 <= i <= |index| && nonce !in index[..i]
      {
        i := i + 1;
      }
      assert i < |index| by { assert index[..|index|] == index; }
      IndexRemove(items, index, i);
      index := RemoveAt(NonceLess, index, i);
      items := items - {nonce};
      cache := None;
      found := true;
    }

    /** Takes the gap-free run at the bottom of the map, if it starts no later than `start`. */
    method Ready(start: nat) returns (ready: seq<Tx>)
      requires Valid()
      modifies this
      ensures Valid()
      ensures (items == old(items) && ready == [] && forall n <- items :: n > start) ||
              (IsReadyRun(old(items), ready) && ready[0].nonce <= start && items == From(old(items), ready[0].nonce + |ready|))
    {
      ready := [];
      if index == [] || index[0] > start {
        if index == [] {
          IndexEmpty(items, index);
        } else {
          IndexRoot(items, index);
        }
        return;
      }
      ghost var m := items;
      IndexRoot(items, index);
      var next := index[0];
      ghost var first := next;
      NothingBetween(m, 0, first);
      FromZero(m);
      while index != [] && index[0] == next
        invariant IndexOk(items, index) && items == From(m, next) && RunFrom(m, ready, first, next)
        invariant ready == [] ==> index != [] && index[0] == next
        decreases |index|
      {
        var tx := PopLowest();
        LowestClosesGap(m, next, tx.nonce);
        RunFromExtends(m, ready, first, next, tx);
        ready := ready + [tx];
        next := next + 1;
      }
      if index == [] {
        IndexEmpty(items, index);
      } else {
        IndexRoot(items, index);
      }
      assert next in m ==> next in items;
      RunFromIsReady(m, ready, first, next);
      cache := None;
    }

    /** The transactions in nonce order, remembered until the next change. */
    method Flatten() returns (txs: seq<Tx>)
      requires Valid()
      modifies this`cache
      ensures Valid() && Lists(items, txs)
    {
      if cache.None? {
        var all: seq<Tx> := [];
        var todo := items.Keys;
        while todo != {}
          invariant todo <= items.Keys && DistinctNonces(all)
          invariant MapOf(all) == map n | n in items && n !in todo :: items[n]
          decreases todo
        {
          var n :| n in todo;
          all := [items[n]] + all;
          todo := todo - {n};
        }
        assert MapOf(all) == items;
        SortLists(all);
        cache := Some(Sort(TxNonce, all));
      }
      txs := cache.value;
    }

    /** The transaction with the highest nonce. */
    method LastElement() returns (tx: Tx)
      requires Valid() && items != map[]
      modifies this`cache
      ensures Valid() && tx.nonce in items && items[tx.nonce] == tx && forall n <- items :: n <= tx.nonce
    {
      var txs := Flatten();
      assert |items| > 0 by { var n :| n in items; MapMinus(items, n); }
      tx := txs[|txs| - 1];
      forall n | n in items ensures n <= tx.nonce {
        ListsAll(items, txs, n);
      }
    }
  }

  /** `removed` is exactly what `m` has and `left` has not, without repetition. */
  ghost predicate IsRemainder(m: Txs, left: Txs, removed: seq<Tx>) {
    && (forall tx :: tx in removed <==> tx.nonce in m && m[tx.nonce] == tx && tx.nonce !in left)
    && |removed| + |left| == |m|
  }

  /** `r` holds the transactions of `m` at the nonces `first..next`, in order. */
  ghost predicate RunFrom(m: Txs, r: seq<Tx>, first: nat, next: nat) {
    next == first + |r| && forall i | 0 <= i < |r| :: RunAt(m, r, first, i)
  }

  ghost predicate RunAt(m: Txs, r: seq<Tx>, first: nat, i: nat)
    requires i < |r|
  {
    r[i].nonce == first + i && r[i].nonce in m && m[r[i].nonce] == r[i]
  }

  lemma RunFromExtends(m: Txs, r: seq<Tx>, first: nat, next: nat, tx: Tx)
    requires RunFrom(m, r, first, next) && tx.nonce == next && next in m && m[next] == tx
    ensures RunFrom(m, r + [tx], first, next + 1)
  {
    var r' := r + [tx];
    forall i | 0 <= i < |r'| ensures RunAt(m, r', first, i) {
      assert i < |r| ==> RunAt(m, r, first, i) && r'[i] == r[i];
    }
  }

  lemma RunFromIsReady(m: Txs, r: seq<Tx>, first: nat, next: nat)
    requires RunFrom(m, r, first, next) && r != [] && IsLowest(m, first) && next !in m
    ensures IsReadyRun(m, r) && r[0].nonce == first && first + |r| == next
  {
    assert RunAt(m, r, first, 0);
    forall i | 0 <= i < |r| ensures r[i].nonce == r[0].nonce + i && r[i].nonce in m && m[r[i].nonce] == r[i] {
      assert RunAt(m, r, first, i);
    }
  }

  lemma RemoveOne(m: Txs, left: Txs, removed: seq<Tx>, n: nat)
    requires Keyed(m) && SubmapOf(left, m) && IsRemainder(m, left, removed) && n in left
    ensures IsRemainder(m, left - {n}, removed + [left[n]])
  {
    MapMinus(left, n);
  }

  lemma NothingRemoved(m: Txs, left: Txs)
    requires Keyed(m) && SubmapOf(left, m) && IsRemainder(m, left, [])
    ensures m == left
  {
    forall n | n in m ensures n in left {
      assert m[n] !in [];
    }
  }

  lemma IndexSize(items: Txs, index: seq<nat>)
    requires Indexes(items, index)
    ensures |index| == |items|
  {
    assert multiset(index) == multiset(items.Keys);
    assert |multiset(index)| == |index| && |multiset(items.Keys)| == |items.Keys|;
  }

  ghost predicate Strict(index: seq<nat>) {
    forall i, j | 0 <= i < j < |index| :: index[i] < index[j]
  }

  /** The first `size` entries of the index are the nonces of the map. */
  ghost predicate Spans(items: Txs, index: seq<nat>, size: nat)
    requires size <= |index|
  {
    && (forall k | 0 <= k < size :: index[k] in items)
    && (forall n <- items :: exists k :: 0 <= k < size && index[k] == n)
  }

  /** `left` is a lower part of `m`, and `drops` is the rest. */
  ghost predicate CutDown(m: Txs, left: Txs, drops: seq<Tx>) {
    Keyed(m) && SubmapOf(left, m) && UpperCut(m, left) && IsRemainder(m, left, drops)
  }

  lemma DropLast(m: Txs, left: Txs, index: seq<nat>, size: nat, drops: seq<Tx>)
    requires 0 < size <= |index| && Strict(index) && Spans(left, index, size) && CutDown(m, left, drops)
    ensures var x := index[size - 1];
            x in left && Spans(left - {x}, index, size - 1) && CutDown(m, left - {x}, drops + [left[x]])
  {
    SpansLast(left, index, size);
    RemoveOne(m, left, drops, index[size - 1]);
  }

  lemma SpansLast(items: Txs, index: seq<nat>, size: nat)
    requires 0 < size <= |index| && Strict(index) && Spans(items, index, size)
    ensures var x := index[size - 1];
            x in items && (forall n <- items :: n <= x) && Spans(items - {x}, index, size - 1)
  {
    var x := index[size - 1];
    forall n | n in items - {x} ensures exists k :: 0 <= k < size - 1 && index[k] == n {
      var k :| 0 <= k < size && index[k] == n;
    }
  }

  lemma SortedIndex(items: Txs, index: seq<nat>)
    requires Indexes(items, index)
    ensures var t: seq<nat> := Sort(NonceKey, index);
            Strict(t) && |t| == |items| && Spans(items, t, |t|)
  {
    var t: seq<nat> := Sort(NonceKey, index);
    SortSorts(NonceKey, index);
    SortPermutes<nat>(NonceKey, index);
    IndexSize(items, t);
    forall i, j | 0 <= i < j < |t| ensures t[i] <= t[j] {
      assert NonceKey(t[i]) <= NonceKey(t[j]);
    }
    AscendingIsStrict(items, t);
    IndexSpans(items, t);
  }

  /** An ascending index has no nonce twice. */
  lemma AscendingIsStrict(items: Txs, t: seq<nat>)
    requires Indexes(items, t) && forall i, j | 0 <= i < j < |t| :: t[i] <= t[j]
    ensures Strict(t)
  {
    forall i, j | 0 <= i < j < |t| ensures t[i] < t[j] {
      if t[i] == t[j] {
        Twice(t, i, j);
      }
    }
  }

  lemma IndexSpans(items: Txs, t: seq<nat>)
    requires Indexes(items, t)
    ensures Spans(items, t, |t|)
  {
    forall k | 0 <= k < |t| ensures t[k] in items {
      assert multiset(t)[t[k]] > 0;
    }
    forall n | n in items ensures exists k :: 0 <= k < |t| && t[k] == n {
      assert multiset(t)[n] == 1;
    }
  }

  lemma Twice(s: seq<nat>, i: nat, j: nat)
    requires i < j < |s| && s[i] == s[j]
    ensures multiset(s)[s[i]] >= 2
  {
    var t := s[..j];
    assert s == t + [s[j]] + s[j + 1..];
    assert t[i] in multiset(t);
  }

  lemma CountSnoc(t: seq<nat>, x: nat, k: nat)
    ensures multiset(t + [x])[k] == multiset(t)[k] + if k == x then 1 else 0
  {
  }

  lemma {:induction false} StrictCount(index: seq<nat>, k: nat)
    requires Strict(index)
    ensures multiset(index)[k] == if k in index then 1 else 0
    decreases |index|
  {
    if index != [] {
      var n := |index| - 1;
      StrictCount(index[..n], k);
      CountSnoc(index[..n], index[n], k);
      assert index == index[..n] + [index[n]];
    }
  }

  /** Cutting a sorted index and restoring the heap gives the index of the cut map. */
  lemma CappedIndex(items: Txs, index: seq<nat>, size: nat)
    requires Strict(index) && size <= |index| && Spans(items, index, size)
    ensures IndexOk(items, Init(NonceLess, index[..size])) && |items| == size
  {
    var t: seq<nat> := index[..size];
    var u: seq<nat> := Init<nat>(NonceLess, t);
    NonceOrder();
    InitMakesHeap<nat>(NonceLess, t);
    forall k: nat ensures multiset(u)[k] == if k in items then 1 else 0 {
      StrictCount(t, k);
      SpansMember(items, index, size, k);
    }
    IndexSize(items, u);
  }

  lemma SpansMember(items: Txs, index: seq<nat>, size: nat, n: nat)
    requires size <= |index| && Spans(items, index, size)
    ensures n in index[..size] <==> n in items
  {
    if n in items {
      var k :| 0 <= k < size && index[k] == n;
      assert index[..size][k] == n;
    }
  }

  /** The listing of what is left after cutting off the top is a prefix. */
  lemma {:induction false} ListsPrefix(m: Txs, k: Txs, s: seq<Tx>)
    requires Keyed(m) && Lists(m, s) && SubmapOf(k, m) && UpperCut(m, k) && |k| <= |m|
    ensures Lists(k, s[..|k|])
    decreases |s|
  {
    if |k| == |m| {
      assert k.Keys == m.Keys by { SubsetSize(k.Keys, m.Keys); }
      assert k == m && s[..|k|] == s;
    } else {
      var x := s[|s| - 1].nonce;
      forall n | n in m ensures n <= x {
        ListsAll(m, s, n);
      }
      assert x !in k by { if x in k { TopKept(m, k, x); } }
      MapMinus(m, x);
      ListsPrefix(m - {x}, k, s[..|s| - 1]);
      assert s[..|s| - 1][..|k|] == s[..|k|];
    }
  }

  lemma TopKept(m: Txs, k: Txs, x: nat)
    requires SubmapOf(k, m) && UpperCut(m, k) && x in k && forall n <- m :: n <= x
    ensures |k| == |m|
  {
    assert k.Keys == m.Keys;
  }

  lemma SubsetSize(a: set<nat>, b: set<nat>)
    requires a <= b && |a| == |b|
    ensures a == b
  {
    assert |b - a| == 0;
  }

  ghost function MapOf(s: seq<Tx>): Txs {
    if s == [] then map[] else MapOf(s[1..])[s[0].nonce := s[0]]
  }

  ghost predicate DistinctNonces(s: seq<Tx>) {
    s != [] ==> s[0].nonce !in MapOf(s[1..]) && DistinctNonces(s[1..])
  }

  lemma ListPrepend(m: Txs, s: seq<Tx>, tx: Tx)
    requires Lists(m, s)
    requires forall n <- m :: tx.nonce < n
    ensures Lists(m[tx.nonce := tx], [tx] + s)
  {
    var m', t := m[tx.nonce := tx], [tx] + s;
    assert m'.Keys == m.Keys + {tx.nonce};
    forall i | 0 <= i < |t| ensures t[i].nonce in m' && m'[t[i].nonce] == t[i] {
      if i > 0 {
        var x := s[i - 1];
        assert x.nonce in m;
      }
    }
    forall i, j | 0 <= i < j < |t| ensures t[i].nonce < t[j].nonce {
      var y := s[j - 1];
      assert y.nonce in m;
      if i > 0 {
        var x := s[i - 1];
        assert x.nonce < y.nonce;
      }
    }
  }

  lemma {:induction false} InsertLists(m: Txs, tx: Tx, s: seq<Tx>)
    requires Lists(m, s) && tx.nonce !in m
    ensures Lists(m[tx.nonce := tx], Insert(TxNonce, tx, s))
    decreases |s|
  {
    forall n | n in m ensures s != [] && s[0].nonce <= n {
      ListsAll(m, s, n);
    }
    if s == [] || tx.nonce <= s[0].nonce {
      ListPrepend(m, s, tx);
    } else {
      var x := s[0];
      var rest: Txs := m - {x.nonce};
      MapMinus(m, x.nonce);
      assert Lists(rest, s[1..]);
      InsertLists(rest, tx, s[1..]);
      var more: Txs := rest[tx.nonce := tx];
      ListPrepend(more, Insert(TxNonce, tx, s[1..]), x);
      assert more[x.nonce := x] == m[tx.nonce := tx];
    }
  }

  lemma {:induction false} SortLists(s: seq<Tx>)
    requires DistinctNonces(s)
    ensures Lists(MapOf(s), Sort(TxNonce, s))
    decreases |s|
  {
    if s != [] {
      SortLists(s[1..]);
      InsertLists(MapOf(s[1..]), s[0], Sort(TxNonce, s[1..]));
    }
  }

  lemma FromZero(m: Txs)
    ensures From(m, 0) == m && Before(m, 0) == map[]
  {
  }

  /** The lowest nonce from `bound` on closes the gap between two thresholds. */
  lemma LowestClosesGap(m: Txs, bound: nat, x: nat)
    requires IsLowest(From(m, bound), x)
    ensures From(m, bound) - {x} == From(m, x + 1)
    ensures Before(m, x + 1) == Before(m, bound)[x := m[x]]
  {
    forall n | n in m && n < x ensures n < bound {
      assert n >= bound ==> n in From(m, bound);
    }
  }

  lemma ForwardStep(m: Txs, bound: nat, tx: Tx, removed: seq<Tx>)
    requires IsLowest(From(m, bound), tx.nonce) && m[tx.nonce] == tx && Lists(Before(m, bound), removed)
    ensures From(m, bound) - {tx.nonce} == From(m, tx.nonce + 1)
    ensures Lists(Before(m, tx.nonce + 1), removed + [tx])
  {
    LowestClosesGap(m, bound, tx.nonce);
    assert tx.nonce >= bound;
    ListAppend(Before(m, bound), removed, tx);
  }

  lemma ListAppend(m: Txs, s: seq<Tx>, tx: Tx)
    requires Lists(m, s)
    requires forall n <- m :: n < tx.nonce
    ensures Lists(m[tx.nonce := tx], s + [tx])
  {
    var m', t := m[tx.nonce := tx], s + [tx];
    assert m'.Keys == m.Keys + {tx.nonce};
    forall i | 0 <= i < |s| ensures t[i] == s[i] && s[i].nonce in m && s[i].nonce < tx.nonce {
    }
    forall i | 0 <= i < |t| ensures t[i].nonce in m' && m'[t[i].nonce] == t[i] {
      assert i < |s| || t[i] == tx;
    }
    forall i, j | 0 <= i < j < |t| ensures t[i].nonce < t[j].nonce {
      assert j < |s| || t[j] == tx;
    }
  }

  lemma NothingBetween(m: Txs, bound: nat, threshold: nat)
    requires bound <= threshold
    requires forall n <- From(m, bound) :: threshold <= n
    ensures From(m, bound) == From(m, threshold) && Before(m, bound) == Before(m, threshold)
  {
    forall n | n in m && bound <= n ensures threshold <= n {
      assert n in From(m, bound);
    }
  }
}
