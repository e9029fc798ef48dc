/** What the transaction pool stores, as values: per-account pending and queued lists, and the lookup
    of all transactions split into local and remote ones.  Lists appear here as nonce-to-transaction
    maps; their heaps, caches and bounds are the business of `TxList` and `TxSortedMap`.
 */
module PoolState {
  import opened Options
  import opened Transactions
  import opened TxSortedMapModel
  import opened TxPricedListModel

  type Lists = map<Address, Txs>

  datatype Pool = Pool(pending: Lists, queue: Lists, localTxs: set<Tx>, remoteTxs: set<Tx>, slots: int)

  /** An account's list; accounts without transactions have no entry. */
  function Of(lists: Lists, a: Address): Txs {
    if a in lists then lists[a] else map[]
  }

  function SetOf(lists: Lists, a: Address, m: Txs): Lists {
    if m == map[] then lists - {a} else lists[a := m]
  }

  ghost predicate Has(m: Txs, tx: Tx) {
    tx.nonce in m && m[tx.nonce] == tx
  }

  ghost predicate Filed(p: Pool, tx: Tx) {
    Has(Of(p.pending, tx.from), tx) || Has(Of(p.queue, tx.from), tx)
  }

  ghost predicate OwnTxs(a: Address, m: Txs) {
    forall n <- m :: m[n].nonce == n && m[n].from == a
  }

  /** Each list holds transactions of its own account under their own nonces, and no nonce is in both. */
  ghost predicate AccountOk(a: Address, pending: Txs, queue: Txs) {
    OwnTxs(a, pending) && OwnTxs(a, queue) && pending.Keys !! queue.Keys
  }

  ghost predicate NoEmpty(lists: Lists) {
    forall a <- lists :: lists[a] != map[]
  }

  ghost function SlotSum(s: set<Tx>): nat {
    if s == {} then 0 else var x :| x in s; NumSlots(x) + SlotSum(s - {x})
  }

  /** All views agree: the lookup holds exactly the filed transactions, each once, with their slots. */
  ghost predicate Consistent(p: Pool) {
    && (forall a :: AccountOk(a, Of(p.pending, a), Of(p.queue, a)))
    && (forall tx :: Filed(p, tx) <==> tx in p.localTxs || tx in p.remoteTxs)
    && p.localTxs !! p.remoteTxs
    && NoEmpty(p.pending) && NoEmpty(p.queue)
    && p.slots == SlotSum(p.localTxs + p.remoteTxs)
  }

  lemma {:induction false} SlotSumRemove(s: set<Tx>, x: Tx)
    requires x in s
    ensures SlotSum(s) == NumSlots(x) + SlotSum(s - {x})
    decreases s
  {
    var y :| y in s && SlotSum(s) == NumSlots(y) + SlotSum(s - {y});
    if y != x {
      SlotSumRemove(s - {y}, x);
      SlotSumRemove(s - {x}, y);
      assert s - {y} - {x} == s - {x} - {y};
    }
  }

  lemma SlotSumAdd(s: set<Tx>, x: Tx)
    requires x !in s
    ensures SlotSum(s + {x}) == SlotSum(s) + NumSlots(x)
  {
    SlotSumRemove(s + {x}, x);
    assert s + {x} - {x} == s;
  }

  ghost function Members(s: seq<Tx>): set<Tx> {
    set x | x in s
  }

  lemma {:induction false} SlotSumMinus(s: set<Tx>, d: set<Tx>)
    requires d <= s
    ensures SlotSum(s - d) == SlotSum(s) - SlotSum(d)
    decreases d
  {
    if d == {} {
      assert s - d == s;
    } else {
      var x :| x in d;
      SlotSumRemove(s, x);
      SlotSumRemove(d, x);
      SlotSumMinus(s - {x}, d - {x});
      assert s - {x} - (d - {x}) == s - d;
    }
  }

  /** A list without repetitions takes as many slots as the set of its members. */
  lemma {:induction false} DistinctSlots(drop: seq<Tx>)
    requires forall x :: multiset(drop)[x] <= 1
    ensures SlotSum(Members(drop)) == Slots(drop)
    decreases |drop|
  {
    if drop == [] {
      assert Members(drop) == {};
    } else {
      var rest, last := drop[..|drop| - 1], drop[|drop| - 1];
      assert drop == rest + [last];
      forall x ensures multiset(rest)[x] + (if x == last then 1 else 0) <= 1 {
        SnocCount(rest, last, x);
      }
      assert multiset(rest)[last] == 0 && last !in rest;
      DistinctSlots(rest);
      SlotSumAdd(Members(rest), last);
      assert Members(drop) == Members(rest) + {last};
    }
  }

  /** Dropping transactions that had one entry each frees the slots they were counted for. */
  lemma DropFreesSlots(l: set<Tx>, r: set<Tx>, u0: seq<Tx>, f0: seq<Tx>, u: seq<Tx>, f: seq<Tx>, drop: seq<Tx>)
    requires l !! r && Conserved(r, u0, f0, u, f, drop) && forall x <- drop :: x in r
    ensures SlotSum(l + (r - Members(drop))) == SlotSum(l + r) - SlotSum(Members(drop))
    ensures Single(u0, f0, r) ==> SlotSum(Members(drop)) == Slots(drop)
  {
    SlotSumMinus(l + r, Members(drop));
    assert l + (r - Members(drop)) == l + r - Members(drop);
    if Single(u0, f0, r) {
      forall x ensures multiset(drop)[x] <= 1 {
        if x in drop {
          assert ConservedFor(u0, f0, u, f, drop, x);
        }
      }
      DistinctSlots(drop);
    }
  }

  /** What an eviction does to the remote transactions, given what the price heaps held. */
  ghost predicate EvictedBy(before: set<Tx>, after: set<Tx>, baseFee: Option<int>, held: Heaps, needed: int, local: bool,
                            refused: bool, drop: seq<Tx>) {
    && after == before - Members(drop) && (refused ==> drop == [])
    && Picks(baseFee, held.urgent, held.floating, before, needed, drop)
    && (!refused && !local ==> Slots(drop) >= needed)
  }

  lemma RefusalEvictsNothing(before: set<Tx>, baseFee: Option<int>, held: Heaps, needed: int, local: bool)
    ensures EvictedBy(before, before, baseFee, held, needed, local, true, [])
    ensures needed <= 0 ==> EvictedBy(before, before, baseFee, held, needed, local, false, [])
  {
    assert before - Members([]) == before;
  }

  lemma {:induction false} RepeatedSlots(drop: seq<Tx>, tx: Tx)
    requires forall i | 0 <= i < |drop| :: drop[i] == tx
    ensures Slots(drop) == |drop| * NumSlots(tx) && multiset(drop)[tx] == |drop|
    decreases |drop|
  {
    if drop != [] {
      var rest := drop[..|drop| - 1];
      assert drop == rest + [tx];
      RepeatedSlots(rest, tx);
      Distribute(|rest|, 1, NumSlots(tx));
    }
  }

  lemma OnlyMember(drop: seq<Tx>, tx: Tx)
    requires drop != [] && forall i | 0 <= i < |drop| :: drop[i] == tx
    ensures SlotSum(Members(drop)) == NumSlots(tx)
  {
    assert tx == drop[0] && Members(drop) == {tx};
    SlotSumRemove({tx}, tx);
    assert {tx} - {tx} == {};
  }

  /** If the only remote transaction has two entries, a request for more than its slots, and for up to twice as
      many, can be met, takes it twice and frees its slots once. */
  lemma DroppedTwice(tx: Tx, u0: seq<Tx>, f0: seq<Tx>, drop: seq<Tx>, needed: int)
    requires Entries(u0, f0, tx) == 2 && NumSlots(tx) < needed <= 2 * NumSlots(tx)
    requires (forall x <- drop :: x in {tx}) && Slots(drop) >= needed
    ensures LiveSlots(u0, f0, {tx}) >= needed && multiset(drop)[tx] >= 2 && SlotSum(Members(drop)) < needed
  {
    LiveSlotsTake(u0, f0, {tx}, tx);
    forall i | 0 <= i < |drop| ensures drop[i] == tx {
      assert drop[i] in drop;
    }
    RepeatedSlots(drop, tx);
    assert |drop| != 0 && |drop| != 1;
    OnlyMember(drop, tx);
  }

  lemma OfSet(lists: Lists, a: Address, m: Txs, b: Address)
    ensures Of(SetOf(lists, a, m), b) == if b == a then m else Of(lists, b)
  {
  }

  lemma SetNoEmpty(lists: Lists, a: Address, m: Txs)
    requires NoEmpty(lists)
    ensures NoEmpty(SetOf(lists, a, m))
  {
  }

  /** Changing one account's lists keeps the views in step if the lookup changes along with them. */
  lemma SetAccount(p: Pool, a: Address, pending: Txs, queue: Txs, localTxs: set<Tx>, remoteTxs: set<Tx>)
    requires Consistent(p) && AccountOk(a, pending, queue) && localTxs !! remoteTxs
    requires forall tx: Tx :: tx.from == a ==>
             (tx in localTxs || tx in remoteTxs <==> Has(pending, tx) || Has(queue, tx))
    requires forall tx: Tx :: tx.from != a ==>
             (tx in localTxs || tx in remoteTxs <==> tx in p.localTxs || tx in p.remoteTxs)
    ensures Consistent(Pool(SetOf(p.pending, a, pending), SetOf(p.queue, a, queue), localTxs, remoteTxs,
                            SlotSum(localTxs + remoteTxs)))
  {
    var p' := Pool(SetOf(p.pending, a, pending), SetOf(p.queue, a, queue), localTxs, remoteTxs,
                   SlotSum(localTxs + remoteTxs));
    forall b ensures AccountOk(b, Of(p'.pending, b), Of(p'.queue, b)) {
      OfSet(p.pending, a, pending, b);
      OfSet(p.queue, a, queue, b);
      assert AccountOk(b, Of(p.pending, b), Of(p.queue, b));
    }
    forall tx ensures Filed(p', tx) <==> tx in localTxs || tx in remoteTxs {
      OfSet(p.pending, a, pending, tx.from);
      OfSet(p.queue, a, queue, tx.from);
      assert Filed(p, tx) <==> tx in p.localTxs || tx in p.remoteTxs;
    }
    SetNoEmpty(p.pending, a, pending);
    SetNoEmpty(p.queue, a, queue);
  }

  // ---------- accounts step by step ----------

  /** The transaction that filing `tx` in `m` pushes out, if any. */
  function Replaced(m: Txs, tx: Tx): set<Tx> {
    if tx.nonce in m then {m[tx.nonce]} else {}
  }

  /** Filing a new transaction in a list: its predecessor at that nonce leaves the lookup. */
  ghost function FiledIn(p: Pool, tx: Tx, local: bool, inPending: bool): Pool {
    var a := tx.from;
    var m := if inPending then Of(p.pending, a) else Of(p.queue, a);
    var gone := Replaced(m, tx);
    var l, r := (p.localTxs - gone) + (if local then {tx} else {}), (p.remoteTxs - gone) + (if local then {} else {tx});
    Pool(if inPending then SetOf(p.pending, a, m[tx.nonce := tx]) else p.pending,
         if inPending then p.queue else SetOf(p.queue, a, m[tx.nonce := tx]),
         l, r, SlotSum(l + r))
  }

  lemma FilingKeepsConsistent(p: Pool, tx: Tx, local: bool, inPending: bool)
    requires Consistent(p) && tx !in p.localTxs && tx !in p.remoteTxs
    requires tx.nonce !in (if inPending then Of(p.queue, tx.from) else Of(p.pending, tx.from))
    ensures Consistent(FiledIn(p, tx, local, inPending))
  {
    var a := tx.from;
    var pend, que := Of(p.pending, a), Of(p.queue, a);
    var m := if inPending then pend else que;
    var gone := Replaced(m, tx);
    var l, r := (p.localTxs - gone) + (if local then {tx} else {}), (p.remoteTxs - gone) + (if local then {} else {tx});
    assert AccountOk(a, pend, que);
    var pend', que' := if inPending then pend[tx.nonce := tx] else pend, if inPending then que else que[tx.nonce := tx];
    forall x: Tx | x.from == a ensures x in l || x in r <==> Has(pend', x) || Has(que', x) {
      assert Filed(p, x) <==> x in p.localTxs || x in p.remoteTxs;
    }
    SetAccount(p, a, pend', que', l, r);
    SetSame(p.pending, a);
    SetSame(p.queue, a);
  }

  /** Filing takes at most the transaction's own slots. */
  lemma FilingSlots(p: Pool, tx: Tx, local: bool, inPending: bool)
    requires Consistent(p) && tx !in p.localTxs && tx !in p.remoteTxs
    ensures FiledIn(p, tx, local, inPending).slots <= p.slots + NumSlots(tx)
  {
    var gone := Replaced(if inPending then Of(p.pending, tx.from) else Of(p.queue, tx.from), tx);
    var all := p.localTxs + p.remoteTxs;
    var q := FiledIn(p, tx, local, inPending);
    assert q.localTxs + q.remoteTxs == all - gone + {tx};
    SlotSumAdd(all - gone, tx);
    SlotSumMinus(all, all * gone);
    assert all - all * gone == all - gone;
  }

  lemma SetSame(lists: Lists, a: Address)
    requires NoEmpty(lists)
    ensures SetOf(lists, a, Of(lists, a)) == lists
  {
  }

  /** Replacing an account's lists by parts of themselves and dropping the rest from the lookup. */
  ghost function Shrunk(p: Pool, a: Address, pending: Txs, queue: Txs, gone: set<Tx>): Pool {
    var l, r := p.localTxs - gone, p.remoteTxs - gone;
    Pool(SetOf(p.pending, a, pending), SetOf(p.queue, a, queue), l, r, SlotSum(l + r))
  }

  /** `pending` and `queue` redistribute the account's transactions except those in `gone`. */
  ghost predicate Redistributes(p: Pool, a: Address, pending: Txs, queue: Txs, gone: set<Tx>) {
    && pending.Keys !! queue.Keys
    && (forall n <- pending :: Has(Of(p.pending, a), pending[n]) || Has(Of(p.queue, a), pending[n]))
    && (forall n <- queue :: Has(Of(p.pending, a), queue[n]) || Has(Of(p.queue, a), queue[n]))
    && (forall n <- pending :: pending[n].nonce == n)
    && (forall n <- queue :: queue[n].nonce == n)
    && (forall x :: Has(Of(p.pending, a), x) || Has(Of(p.queue, a), x) ==> (x in gone <==> !Has(pending, x) && !Has(queue, x)))
    && (forall x <- gone :: x.from == a)
  }

  lemma ShrinkingKeepsConsistent(p: Pool, a: Address, pending: Txs, queue: Txs, gone: set<Tx>)
    requires Consistent(p) && Redistributes(p, a, pending, queue, gone)
    ensures Consistent(Shrunk(p, a, pending, queue, gone))
  {
    assert AccountOk(a, Of(p.pending, a), Of(p.queue, a));
    var l, r := p.localTxs - gone, p.remoteTxs - gone;
    forall x: Tx | x.from == a ensures x in l || x in r <==> Has(pending, x) || Has(queue, x) {
      assert Filed(p, x) <==> x in p.localTxs || x in p.remoteTxs;
    }
    SetAccount(p, a, pending, queue, l, r);
  }

  function TxsOf(m: Txs): set<Tx> {
    set n | n in m :: m[n]
  }

  /** Removing a pending transaction sends its successors back to the queue. */
  lemma RemovePendingKeeps(p: Pool, tx: Tx)
    requires Consistent(p) && Has(Of(p.pending, tx.from), tx)
    ensures var a := tx.from;
            Redistributes(p, a, Before(Of(p.pending, a), tx.nonce),
                          Of(p.queue, a) + From(Of(p.pending, a), tx.nonce + 1), {tx})
  {
    var a := tx.from;
    assert AccountOk(a, Of(p.pending, a), Of(p.queue, a));
  }

  lemma RemoveQueuedKeeps(p: Pool, tx: Tx)
    requires Consistent(p) && Has(Of(p.queue, tx.from), tx)
    ensures var a := tx.from; Redistributes(p, a, Of(p.pending, a), Of(p.queue, a) - {tx.nonce}, {tx})
  {
    var a := tx.from;
    assert AccountOk(a, Of(p.pending, a), Of(p.queue, a));
  }

  /** Moving part of the queue to pending, keeping part of it and dropping the rest. */
  lemma PromoteKeeps(p: Pool, a: Address, ready: Txs, kept: Txs)
    requires Consistent(p) && SubmapOf(ready, Of(p.queue, a))
    requires SubmapOf(kept, Of(p.queue, a)) && ready.Keys !! kept.Keys
    ensures var que := Of(p.queue, a);
            Redistributes(p, a, Of(p.pending, a) + ready, kept, TxsOf(que) - TxsOf(ready) - TxsOf(kept))
  {
    var pend, que := Of(p.pending, a), Of(p.queue, a);
    assert AccountOk(a, pend, que);
  }

  /** Keeping part of pending, moving part of it to the queue and dropping the rest. */
  lemma DemoteKeeps(p: Pool, a: Address, kept: Txs, back: Txs)
    requires Consistent(p) && SubmapOf(kept, Of(p.pending, a))
    requires SubmapOf(back, Of(p.pending, a)) && kept.Keys !! back.Keys
    ensures var pend := Of(p.pending, a);
            Redistributes(p, a, kept, Of(p.queue, a) + back, TxsOf(pend) - TxsOf(kept) - TxsOf(back))
  {
    var pend, que := Of(p.pending, a), Of(p.queue, a);
    assert AccountOk(a, pend, que);
  }

  // ---------- what promotion and truncation select ----------

  lemma {:induction false} HighestExists(m: Txs) returns (x: nat)
    requires m != map[]
    ensures x in m && forall k <- m :: k <= x
    decreases |m|
  {
    var y0 :| y0 in m;
    var rest: Txs := m - {y0};
    MapMinus(m, y0);
    x := y0;
    if rest != map[] {
      var y := HighestExists(rest);
      x := if x < y then y else x;
    }
    forall k | k in m ensures k <= x {
      assert k in rest || k == y0;
    }
  }

  lemma {:induction false} LowestExists(m: Txs) returns (x: nat)
    requires m != map[]
    ensures x in m && forall k <- m :: x <= k
    decreases |m|
  {
    var y0 :| y0 in m;
    var rest: Txs := m - {y0};
    MapMinus(m, y0);
    x := y0;
    if rest != map[] {
      var y := LowestExists(rest);
      x := if y < x then y else x;
    }
    forall k | k in m ensures x <= k {
      assert k in rest || k == y0;
    }
  }

  function Highest(m: Txs): (x: nat)
    requires m != map[]
    ensures x in m && forall k <- m :: k <= x
  {
    assert exists x: nat :: x in m && forall k <- m :: k <= x by { var x := HighestExists(m); }
    var x: nat :| x in m && forall k <- m :: k <= x; x
  }

  function Lowest(m: Txs): (x: nat)
    requires m != map[]
    ensures x in m && forall k <- m :: x <= k
  {
    assert exists x: nat :: x in m && forall k <- m :: x <= k by { var x := LowestExists(m); }
    var x: nat :| x in m && forall k <- m :: x <= k; x
  }

  /** The nonces of `m` below `n`. */
  function Below(m: Txs, n: nat): set<nat> {
    set k | k in m && k < n
  }

  /** The lowest `size` nonces of a map. */
  function CapTo(m: Txs, size: nat): Txs {
    map n | n in m && |Below(m, n)| < size :: m[n]
  }

  lemma BelowSmaller(m: Txs, n: nat)
    requires n in m
    ensures |Below(m, n)| < |m|
  {
    assert Below(m, n) < m.Keys;
    SubsetCard(Below(m, n), m.Keys - {n});
  }

  lemma {:induction false} SubsetCard(a: set<nat>, b: set<nat>)
    requires a <= b
    ensures |a| <= |b|
    decreases a
  {
    if a != {} {
      var x :| x in a;
      SubsetCard(a - {x}, b - {x});
    }
  }

  /** Capping has one outcome: what the list object keeps is what the pool's functions say. */
  lemma CappedIsCapTo(m: Txs, k: Txs, size: nat)
    requires IsCapped(m, k, size)
    ensures k == CapTo(m, size)
  {
    if |m| <= size {
      CapWhole(m, size);
    } else {
      forall n | n in m ensures |Below(m, n)| < size <==> n in k {
        if n in k {
          assert Below(m, n) <= k.Keys - {n};
          SubsetCard(Below(m, n), k.Keys - {n});
        } else {
          assert k.Keys <= Below(m, n);
          SubsetCard(k.Keys, Below(m, n));
        }
      }
    }
  }

  lemma CapWhole(m: Txs, size: nat)
    requires |m| <= size
    ensures CapTo(m, size) == m
  {
    forall n | n in m ensures |Below(m, n)| < size {
      BelowSmaller(m, n);
    }
  }

  /** Capping below its size drops a map's highest nonce first. */
  lemma CapDropsHighest(m: Txs, size: nat)
    requires size < |m| && m != map[]
    ensures CapTo(m, size) == CapTo(m - {Highest(m)}, size)
  {
    var h := Highest(m);
    var rest: Txs := m - {h};
    assert Below(m, h) == rest.Keys;
    MapMinus(m, h);
    forall n | n in rest ensures Below(m, n) == Below(rest, n) {
    }
  }

  lemma CappedBelow(m: Txs, rest: Txs, k: Txs, size: nat)
    requires m != map[] && rest == m - {Highest(m)} && size < |m| && |rest| == |m| - 1 && IsCapped(rest, k, size)
    ensures IsCapped(m, k, size)
  {
    assert SubmapOf(k, rest) && |k| == size;
  }

  lemma {:induction false} CapToIsCapped(m: Txs, size: nat)
    ensures IsCapped(m, CapTo(m, size), size)
    decreases |m|
  {
    if |m| <= size {
      CapWhole(m, size);
    } else {
      assert m != map[];
      var rest: Txs := m - {Highest(m)};
      MapMinus(m, Highest(m));
      CapDropsHighest(m, size);
      CapToIsCapped(rest, size);
      CappedBelow(m, rest, CapTo(rest, size), size);
    }
  }

  lemma RankGrows(m: Txs, n: nat, h: nat)
    requires n in m && n < h
    ensures |Below(m, n)| < |Below(m, h)|
  {
    SubsetCard(Below(m, n), Below(m, h) - {n});
  }

  lemma CapLength(m: Txs, size: nat)
    ensures |CapTo(m, size)| == if |m| <= size then |m| else size
  {
    CapToIsCapped(m, size);
  }

  /** Within a capped map ranks count the map's own nonces. */
  lemma RankWithin(m: Txs, size: nat, h: nat)
    requires h in CapTo(m, size)
    ensures Below(m, h) == Below(CapTo(m, size), h)
  {
    forall n | n in m && n < h ensures n in CapTo(m, size) {
      RankGrows(m, n, h);
    }
  }

  /** Capping one lower loses exactly the highest nonce. */
  lemma CapStep(m: Txs, e: nat)
    requires e < |m|
    ensures var k := CapTo(m, e + 1); k != map[] && CapTo(m, e) == k - {Highest(k)} && |k| == e + 1
  {
    var k := CapTo(m, e + 1);
    CapLength(m, e + 1);
    var h := Highest(k);
    RankWithin(m, e + 1, h);
    assert Below(k, h) == k.Keys - {h};
    forall n | n in k && n != h ensures |Below(m, n)| < e {
      RankGrows(m, n, h);
    }
  }

  /** The first nonce missing from `m` at or after `n`. */
  function RunEnd(m: Txs, n: nat): (end: nat)
    ensures n <= end && end !in m && forall k | n <= k < end :: k in m
    decreases KeysFrom(m, n)
  {
    if n !in m then n
    else
      assert n in KeysFrom(m, n) && n !in KeysFrom(m, n + 1);
      RunEnd(m, n + 1)
  }

  ghost function KeysFrom(m: Txs, n: nat): set<nat> {
    set k | k in m && k >= n
  }

  /** Where the executable run of a queue ends: its lowest nonce must not lie beyond `start`. */
  function ReadyEnd(m: Txs, start: nat): nat {
    if m == map[] || Lowest(m) > start then 0 else RunEnd(m, Lowest(m))
  }

  /** The run the list object collects is the part of the queue before `ReadyEnd`, and empty if its lowest
      nonce lies beyond `start`. */
  lemma ReadyRunIsReady(m: Txs, r: seq<Tx>, start: nat)
    requires Keyed(m) && IsReadyRun(m, r)
    ensures ReadyEnd(m, start) == if r[0].nonce <= start then r[0].nonce + |r| else 0
    ensures r[0].nonce <= start ==> forall n <- m :: n < ReadyEnd(m, start) <==> m[n] in r
  {
    var low, end := r[0].nonce, r[0].nonce + |r|;
    assert Lowest(m) == low;
    forall n | low <= n < end ensures n in m && m[n] in r {
      assert r[n - low].nonce == n;
    }
    assert RunEnd(m, low) == end;
    forall n | n in m && m[n] in r ensures n < end {
      var i :| 0 <= i < |r| && r[i] == m[n];
    }
  }
}
