/** Runs of the pool that end where one might not expect it.
 */
module PoolCases {
  import opened Options
  import opened Heap
  import opened Transactions
  import opened TxPricedListModel
  import opened PoolState
  import opened PoolSteps
  import opened TxPoolModel

  // ---------- over the limit ----------

  /** A remote transaction that passes all checks. */
  ghost predicate Acceptable(tx: Tx, env: Env, floor: nat) {
    && tx.size <= TX_MAX_SIZE && 0 <= tx.value && floor <= tx.tipCap <= tx.feeCap < TWO_TO_256
    && tx.gas <= env.maxGas && env.nonce(tx.from) <= tx.nonce && Cost(tx) <= env.balance(tx.from)
  }

  /** Transactions of different accounts: a cheap one, at least three better ones, all of one slot, and a large
      one that is better than the cheap one.  `high` lies between the prices. */
  datatype Cast = Cast(cheap: Tx, others: seq<Tx>, large: Tx, floor: nat, high: nat)

  ghost predicate Plays(c: Cast, x: Tx) {
    && x.from != c.cheap.from && x.from != c.large.from && NumSlots(x) == 1
    && c.high <= x.tipCap && WorseByBoth(None, c.cheap, x)
  }

  ghost predicate GoodCast(c: Cast) {
    && 3 <= |c.others| && (forall i | 0 <= i < |c.others| :: Plays(c, c.others[i]))
    && (forall i, j | 0 <= i < j < |c.others| :: c.others[i].from != c.others[j].from)
    && NumSlots(c.cheap) == 1 && c.floor <= c.cheap.tipCap < c.high
    && NumSlots(c.large) == 2 && c.cheap.from != c.large.from
    && Cmp(None, c.cheap, c.large) < 0
  }

  /** The small transactions of a cast, the cheap one first. */
  function Small(c: Cast): seq<Tx> {
    [c.cheap] + c.others
  }

  ghost predicate Admissible(c: Cast, env: Env) {
    Acceptable(c.large, env, c.floor) && forall i | 0 <= i < |Small(c)| :: Acceptable(Small(c)[i], env, c.floor)
  }

  lemma NothingFrom(p: Pool, a: Address)
    requires Consistent(p) && forall x :: x in p.localTxs || x in p.remoteTxs ==> x.from != a
    ensures Of(p.pending, a) == map[] && Of(p.queue, a) == map[]
  {
    assert AccountOk(a, Of(p.pending, a), Of(p.queue, a));
    forall n | n in Of(p.pending, a) ensures false {
      assert Filed(p, Of(p.pending, a)[n]);
    }
    forall n | n in Of(p.queue, a) ensures false {
      assert Filed(p, Of(p.queue, a)[n]);
    }
  }

  lemma FiledFirst(p: Pool, tx: Tx)
    requires Consistent(p) && forall x :: x in p.localTxs || x in p.remoteTxs ==> x.from != tx.from
    ensures var q := FiledAsTarget(p, tx, false);
            && q.localTxs == p.localTxs && q.remoteTxs == p.remoteTxs + {tx} && q.slots == p.slots + NumSlots(tx)
            && Target(p, tx) == map[]
  {
    NothingFrom(p, tx.from);
    var q := FiledAsTarget(p, tx, false);
    assert q.localTxs == p.localTxs && q.remoteTxs == p.remoteTxs + {tx};
    SlotSumAdd(p.localTxs + p.remoteTxs, tx);
    assert q.localTxs + q.remoteTxs == p.localTxs + p.remoteTxs + {tx};
  }

  /** What matters of a pool here. */
  datatype Look = Look(locals: set<Address>, localTxs: set<Tx>, remoteTxs: set<Tx>, slots: int, held: Heaps)

  ghost function LookAt(pool: TxPool): Look
    reads pool, pool.priced
  {
    Look(pool.locals, pool.localTxs, pool.remoteTxs, pool.slots, pool.priced.Held())
  }

  ghost function Remote(remotes: set<Tx>, slots: int, held: Heaps): Look {
    Look({}, {}, remotes, slots, held)
  }

  /** The first transaction of an account, added to a pool with room for it. */
  method AddFirst(pool: TxPool, tx: Tx, ghost remotes: set<Tx>, ghost slots: int, ghost held: Heaps)
    requires pool.Valid() && pool.Needed(tx) <= 0 && Acceptable(tx, pool.env, pool.gasPrice)
    requires LookAt(pool) == Remote(remotes, slots, held) && forall x <- remotes :: x.from != tx.from
    modifies pool`pending, pool`queue, pool`localTxs, pool`remoteTxs, pool`slots, pool`nonces, pool`locals,
             pool.priced`urgent, pool.priced`floating, pool.priced`stales
    ensures pool.Valid()
    ensures LookAt(pool) == Remote(remotes + {tx}, slots + NumSlots(tx), AfterPut(held, pool.priced.baseFee, tx))
  {
    ghost var p := pool.Abs();
    FiledFirst(p, tx);
    assert pool.AddError(tx, false, true, 0, p) == None;
    var _, err, room, _ := pool.Add(tx, false, true, 0);
    assert room == p;
    assert pool.Abs() == FiledAsTarget(p, tx, false);
  }

  /** The urgent heap has one entry for each remote transaction and the floating one is empty. */
  ghost predicate OnceUrgent(held: Heaps, remotes: set<Tx>) {
    && held.floating == [] && |held.urgent| == |remotes|
    && forall x :: multiset(held.urgent)[x] == if x in remotes then 1 else 0
  }

  lemma PutOnce(held: Heaps, baseFee: Option<int>, remotes: set<Tx>, tx: Tx)
    requires OnceUrgent(held, remotes) && tx !in remotes && IsHeap(Worse(baseFee), held.urgent)
    ensures OnceUrgent(AfterPut(held, baseFee, tx), remotes + {tx})
  {
    WorseOrder(baseFee);
    PushKeepsHeap(Worse(baseFee), held.urgent, tx);
    var u := Push(Worse(baseFee), held.urgent, tx);
    assert |multiset(u)| == |u| && |multiset(held.urgent)| == |held.urgent|;
    forall x ensures multiset(u)[x] == if x in remotes + {tx} then 1 else 0 {
      PushCount(baseFee, held.urgent, tx, x);
    }
  }

  lemma {:induction false} UnitSlots(s: seq<Tx>)
    requires forall i | 0 <= i < |s| :: NumSlots(s[i]) == 1
    ensures Slots(s) == |s|
    decreases |s|
  {
    if s != [] {
      UnitSlots(s[..|s| - 1]);
    }
  }

  lemma TwoKinds(s: seq<Tx>, x: Tx, y: Tx)
    requires x != y
    ensures multiset(s)[x] + multiset(s)[y] <= |s|
  {
    var m := multiset(s);
    assert |m| == |s|;
    assert |m[x := 0][y := 0]| == |m| - m[x] - m[y];
  }

  /** Among transactions of one slot, two entries of the worst one serve a request for two slots. */
  lemma OnlyTheWorst(baseFee: Option<int>, u: seq<Tx>, remotes: set<Tx>, t: Tx, drop: seq<Tx>)
    requires Picks(baseFee, u, [], remotes, 2, drop) && Slots(drop) >= 2 && Entries(u, [], t) == 2 && t in remotes
    requires forall x <- remotes :: NumSlots(x) == 1 && (x != t ==> WorseByBoth(baseFee, t, x))
    ensures Members(drop) == {t}
  {
    forall i | 0 <= i < |drop| ensures NumSlots(drop[i]) == 1 {
      assert drop[i] in drop;
    }
    UnitSlots(drop);
    UnitSlots(drop[..|drop| - 1]);
    forall x | x in drop ensures x == t {
      assert multiset(drop)[x] > 0 && (x != t ==> multiset(drop)[t] == 2);
      if x != t {
        TwoKinds(drop, t, x);
      }
    }
    assert drop[0] in drop;
  }

  /** The pool after the first `n` of them. */
  ghost function Filled(c: Cast, n: nat): Look
    requires n <= |c.others| + 1
  {
    if n == 0 then Remote({}, 0, Heaps([], [], 0))
    else
      var l, tx := Filled(c, n - 1), Small(c)[n - 1];
      Remote(l.remoteTxs + {tx}, l.slots + NumSlots(tx), AfterPut(l.held, None, tx))
  }

  lemma FilledNext(c: Cast, n: nat, next: nat)
    requires n <= |c.others| && next == n + 1
    ensures var l, tx := Filled(c, n), Small(c)[n];
            Filled(c, next) == Remote(l.remoteTxs + {tx}, l.slots + NumSlots(tx), AfterPut(l.held, None, tx))
  {
  }

  lemma MembersNext(s: seq<Tx>, n: nat, next: nat)
    requires n < |s| && next == n + 1
    ensures Members(s[..next]) == Members(s[..n]) + {s[n]}
  {
    assert s[..next] == s[..n] + [s[n]];
  }

  /** One entry for each of the first `n`, all in the urgent heap. */
  ghost predicate FilledWell(c: Cast, n: nat)
    requires n <= |c.others| + 1
  {
    var l := Filled(c, n);
    && l == Remote(Members(Small(c)[..n]), n, l.held) && OnceUrgent(l.held, l.remoteTxs) && l.held.stales == 0
    && IsHeap(Worse(None), l.held.urgent)
  }

  lemma {:induction false} FilledFacts(c: Cast, n: nat)
    requires GoodCast(c) && n <= |c.others| + 1
    ensures FilledWell(c, n)
    decreases n
  {
    if n == 0 {
      assert Members(Small(c)[..0]) == {};
    } else {
      var before := n - 1;
      FilledFacts(c, before);
      FilledStep(c, before, n);
    }
  }

  lemma FilledStep(c: Cast, n: nat, next: nat)
    requires GoodCast(c) && n <= |c.others| && next == n + 1 && FilledWell(c, n)
    ensures FilledWell(c, next)
  {
    var l, tx := Filled(c, n), Small(c)[n];
    FilledNext(c, n, next);
    MembersNext(Small(c), n, next);
    FreshSender(c, n);
    PutOnce(l.held, None, l.remoteTxs, tx);
    WorseOrder(None);
    PushKeepsHeap(Worse(None), l.held.urgent, tx);
  }

  /** Each comes from an account of its own. */
  lemma FreshSender(c: Cast, n: nat)
    requires GoodCast(c) && n <= |c.others|
    ensures forall x <- Members(Small(c)[..n]) :: x.from != Small(c)[n].from
    ensures NumSlots(Small(c)[n]) == 1
  {
    forall x | x in Small(c)[..n] ensures x.from != Small(c)[n].from {
      var i :| 0 <= i < n && Small(c)[i] == x;
      assert n > 0 ==> Plays(c, c.others[n - 1]);
    }
    assert n > 0 ==> Plays(c, c.others[n - 1]);
  }

  /** A pool set up for a cast. */
  ghost predicate Suits(c: Cast, config: Config, env: Env, floor: nat, baseFee: Option<int>) {
    config.globalSlots + config.globalQueue == |c.others| + 1 && Admissible(c, env) && floor == c.floor && baseFee == None
  }

  /** The small transactions fill an empty pool to its limit. */
  method FillPool(pool: TxPool, c: Cast, n: nat)
    requires GoodCast(c) && n == |c.others| + 1 && pool.Valid() &&
             Suits(c, pool.config, pool.env, pool.gasPrice, pool.priced.baseFee) &&
             LookAt(pool) == Remote({}, 0, Heaps([], [], 0))
    modifies pool`pending, pool`queue, pool`localTxs, pool`remoteTxs, pool`slots, pool`nonces, pool`locals,
             pool.priced`urgent, pool.priced`floating, pool.priced`stales
    ensures pool.Valid() && LookAt(pool) == Filled(c, n)
  {
    for i := 0 to n
      invariant pool.Valid() && LookAt(pool) == Filled(c, i)
    {
      AddNext(pool, c, i, i + 1);
    }
  }

  method AddNext(pool: TxPool, c: Cast, n: nat, ghost next: nat)
    requires GoodCast(c) && pool.Valid() && Suits(c, pool.config, pool.env, pool.gasPrice, pool.priced.baseFee) &&
             n <= |c.others| && next == n + 1 && LookAt(pool) == Filled(c, n)
    modifies pool`pending, pool`queue, pool`localTxs, pool`remoteTxs, pool`slots, pool`nonces, pool`locals,
             pool.priced`urgent, pool.priced`floating, pool.priced`stales
    ensures pool.Valid() && LookAt(pool) == Filled(c, next)
  {
    ghost var l := Filled(c, n);
    NextFits(c, n, next);
    AddFirst(pool, Small(c)[n], l.remoteTxs, n, l.held);
  }

  lemma NextFits(c: Cast, n: nat, next: nat)
    requires GoodCast(c) && n <= |c.others| && next == n + 1
    ensures var l, tx := Filled(c, n), Small(c)[n];
            && l == Remote(l.remoteTxs, n, l.held) && (forall x <- l.remoteTxs :: x.from != tx.from)
            && NumSlots(tx) == 1
            && Filled(c, next) == Remote(l.remoteTxs + {tx}, n + NumSlots(tx), AfterPut(l.held, None, tx))
  {
    FilledFacts(c, n);
    FreshSender(c, n);
    FilledNext(c, n, next);
  }

  /** The full pool. */
  lemma FullPool(c: Cast, n: nat)
    requires GoodCast(c) && n == |c.others| + 1
    ensures var l := Filled(c, n);
            && l == Remote(Members(Small(c)), n, l.held) && l.held.stales == 0 && 4 <= |l.held.urgent| + |l.held.floating|
    ensures SlotSum(Members(Small(c)) - {c.cheap}) == n - 1 && c.cheap in Members(Small(c))
  {
    FilledFacts(c, n);
    assert Small(c)[..n] == Small(c);
    FilledSlots(c, n);
    assert c.cheap == Small(c)[0];
    SlotSumRemove(Members(Small(c)), c.cheap);
  }

  lemma FullHeaps(c: Cast, n: nat)
    requires GoodCast(c) && n == |c.others| + 1
    ensures var h := Filled(c, n).held;
            h.floating == [] && multiset(h.urgent)[c.cheap] == 1 && IsHeap(Worse(None), h.urgent)
  {
    FullPool(c, n);
    FilledFacts(c, n);
  }

  lemma {:induction false} FilledSlots(c: Cast, n: nat)
    requires GoodCast(c) && n <= |c.others| + 1
    ensures SlotSum(Members(Small(c)[..n])) == n == |Members(Small(c)[..n])|
    decreases n
  {
    if n == 0 {
      assert Members(Small(c)[..0]) == {};
    } else {
      var before := n - 1;
      FilledSlots(c, before);
      FreshSender(c, before);
      MembersNext(Small(c), before, n);
      SlotSumAdd(Members(Small(c)[..before]), Small(c)[before]);
    }
  }

  /** A small transaction other than the cheap one is better and stays. */
  lemma SmallPlays(c: Cast, x: Tx)
    requires GoodCast(c) && x in Members(Small(c)) && x != c.cheap
    ensures Plays(c, x)
  {
    var i :| 0 <= i < |c.others| && c.others[i] == x;
    assert Plays(c, c.others[i]);
  }

  lemma BelowFloor(remotes: set<Tx>, cheap: Tx, high: nat)
    requires cheap in remotes && cheap.tipCap < high && forall x <- remotes :: x != cheap ==> high <= x.tipCap
    ensures (set x | x in remotes && x.tipCap < high) == {cheap}
    ensures (set x | x in remotes && high <= x.tipCap) == remotes - {cheap} == {} + (remotes - {cheap})
  {
  }

  /** Raising the floor above one transaction, while few entries are stale, leaves its entry behind. */
  method RaiseFloor(pool: TxPool, high: nat, ghost cheap: Tx, ghost remotes: set<Tx>, ghost slots: int, ghost held: Heaps)
    requires pool.Valid() && pool.gasPrice < high && LookAt(pool) == Remote(remotes, slots, held)
    requires cheap in remotes && cheap.tipCap < high && forall x <- remotes :: x != cheap ==> high <= x.tipCap
    requires held.stales == 0 && 4 <= |held.urgent| + |held.floating|
    modifies pool`gasPrice, pool`pending, pool`queue, pool`localTxs, pool`remoteTxs, pool`slots, pool`nonces,
             pool.priced`urgent, pool.priced`floating, pool.priced`stales
    ensures pool.Valid() && pool.gasPrice == high
    ensures LookAt(pool) == Remote(remotes - {cheap}, SlotSum(remotes - {cheap}), held.(stales := 1))
  {
    BelowFloor(remotes, cheap, high);
    pool.SetGasPrice(high);
  }

  /** Lowering it changes nothing else. */
  method LowerFloor(pool: TxPool, floor: nat, ghost l: Look)
    requires pool.Valid() && floor <= pool.gasPrice && LookAt(pool) == l
    modifies pool`gasPrice, pool`pending, pool`queue, pool`localTxs, pool`remoteTxs, pool`slots, pool`nonces,
             pool.priced`urgent, pool.priced`floating, pool.priced`stales
    ensures pool.Valid() && pool.gasPrice == floor && LookAt(pool) == l
  {
    pool.SetGasPrice(floor);
  }

  /** The pool while the cheap transaction is away, and once it is back with two entries. */
  ghost function Away(c: Cast, n: nat): Look
    requires n == |c.others| + 1
  {
    Remote(Members(Small(c)) - {c.cheap}, n - 1, Filled(c, n).held.(stales := 1))
  }

  ghost function Back(c: Cast, n: nat): Look
    requires n == |c.others| + 1
  {
    Remote(Members(Small(c)), n, AfterPut(Filled(c, n).held.(stales := 1), None, c.cheap))
  }

  lemma AwayAndBack(c: Cast, n: nat)
    requires GoodCast(c) && n == |c.others| + 1
    ensures Back(c, n) == Remote(Away(c, n).remoteTxs + {c.cheap}, n, AfterPut(Away(c, n).held, None, c.cheap))
    ensures forall x <- Away(c, n).remoteTxs :: x.from != c.cheap.from
    ensures Away(c, n).slots == SlotSum(Away(c, n).remoteTxs)
  {
    FullPool(c, n);
    var rest := Members(Small(c)) - {c.cheap};
    forall x | x in rest ensures x.from != c.cheap.from {
      SmallPlays(c, x);
    }
    assert rest + {c.cheap} == Members(Small(c));
  }

  lemma BackTwice(c: Cast, n: nat)
    requires GoodCast(c) && n == |c.others| + 1
    ensures Back(c, n).held.floating == [] && Entries(Back(c, n).held.urgent, [], c.cheap) == 2
  {
    FullHeaps(c, n);
    PushCount(None, Filled(c, n).held.urgent, c.cheap, c.cheap);
  }

  method Leave(pool: TxPool, c: Cast, ghost n: nat)
    requires GoodCast(c) && n == |c.others| + 1 && pool.Valid() &&
             Suits(c, pool.config, pool.env, pool.gasPrice, pool.priced.baseFee) && LookAt(pool) == Filled(c, n)
    modifies pool`gasPrice, pool`pending, pool`queue, pool`localTxs, pool`remoteTxs, pool`slots, pool`nonces,
             pool.priced`urgent, pool.priced`floating, pool.priced`stales
    ensures pool.Valid() && pool.gasPrice == c.floor && LookAt(pool) == Away(c, n)
  {
    ghost var l := Filled(c, n);
    FullPool(c, n);
    AwayAndBack(c, n);
    forall x | x in l.remoteTxs && x != c.cheap ensures c.high <= x.tipCap {
      SmallPlays(c, x);
    }
    RaiseFloor(pool, c.high, c.cheap, l.remoteTxs, n, l.held);
    LowerFloor(pool, c.floor, Away(c, n));
  }

  method Return(pool: TxPool, c: Cast, ghost n: nat, ghost before: nat)
    requires GoodCast(c) && n == |c.others| + 1 == before + 1 && pool.Valid() &&
             Suits(c, pool.config, pool.env, pool.gasPrice, pool.priced.baseFee) && LookAt(pool) == Away(c, n)
    modifies pool`pending, pool`queue, pool`localTxs, pool`remoteTxs, pool`slots, pool`nonces, pool`locals,
             pool.priced`urgent, pool.priced`floating, pool.priced`stales
    ensures pool.Valid() && LookAt(pool) == Back(c, n)
  {
    ghost var l := Away(c, n);
    AwayAndBack(c, n);
    assert Acceptable(Small(c)[0], pool.env, c.floor);
    AddFirst(pool, c.cheap, l.remoteTxs, before, l.held);
  }

  method LeaveAndReturn(pool: TxPool, c: Cast, ghost n: nat)
    requires GoodCast(c) && n == |c.others| + 1 && LookAt(pool) == Filled(c, n)
    requires pool.Valid() && Suits(c, pool.config, pool.env, pool.gasPrice, pool.priced.baseFee)
    modifies pool`gasPrice, pool`pending, pool`queue, pool`localTxs, pool`remoteTxs, pool`slots, pool`nonces, pool`locals,
             pool.priced`urgent, pool.priced`floating, pool.priced`stales
    ensures pool.Valid() && pool.gasPrice == c.floor && LookAt(pool) == Back(c, n)
  {
    Leave(pool, c, n);
    Return(pool, c, n, |c.others|);
  }

  /** The two entries of the cheap transaction serve for the two slots of the large one. */
  lemma LargeIsLetIn(c: Cast, n: nat)
    requires GoodCast(c) && n == |c.others| + 1
    ensures var l := Back(c, n);
            && !NoBetterThanAny(None, l.held.urgent, l.held.floating, l.remoteTxs, c.large)
            && LiveSlots(l.held.urgent, l.held.floating, l.remoteTxs) >= 2
            && forall x <- l.remoteTxs :: x.from != c.large.from
  {
    var l := Back(c, n);
    BackTwice(c, n);
    assert c.cheap == Small(c)[0] && c.cheap in l.remoteTxs;
    assert multiset(l.held.urgent)[c.cheap] > 0 && c.cheap in l.held.urgent;
    LiveSlotsTake(l.held.urgent, l.held.floating, l.remoteTxs, c.cheap);
    forall x | x in l.remoteTxs ensures x.from != c.large.from {
      if x != c.cheap {
        SmallPlays(c, x);
      }
    }
  }

  lemma OnlyCheapGoes(c: Cast, n: nat, drop: seq<Tx>)
    requires GoodCast(c) && n == |c.others| + 1 && Slots(drop) >= 2
    requires Picks(None, Back(c, n).held.urgent, Back(c, n).held.floating, Members(Small(c)), 2, drop)
    ensures Members(drop) == {c.cheap}
  {
    BackTwice(c, n);
    var u, remotes := Back(c, n).held.urgent, Members(Small(c));
    forall x | x in remotes ensures NumSlots(x) == 1 && (x != c.cheap ==> WorseByBoth(None, c.cheap, x)) {
      if x != c.cheap {
        SmallPlays(c, x);
      }
    }
    assert c.cheap == Small(c)[0];
    OnlyTheWorst(None, u, remotes, c.cheap, drop);
  }

  /** But only one slot is freed. */
  lemma LargeLands(c: Cast, n: nat, s: Stage, config: Config, env: Env, room: Stage, drop: seq<Tx>)
    requires GoodCast(c) && n == |c.others| + 1 && config.globalSlots + config.globalQueue == n
    requires Consistent(s.pool) && s.pool.localTxs == {} && s.pool.remoteTxs == Members(Small(c)) && s.pool.slots == n
    requires RoomFor(s, Back(c, n).held, None, env, config, c.large, false, false, room, drop)
    ensures Target(room.pool, c.large) == map[] && FiledAsTarget(room.pool, c.large, false).slots == n + 1
  {
    RemoveEachKeeps(s, env, drop);
    OnlyCheapGoes(c, n, drop);
    RestOfPool(c, n, room.pool);
    FiledFirst(room.pool, c.large);
  }

  lemma RestOfPool(c: Cast, n: nat, room: Pool)
    requires GoodCast(c) && n == |c.others| + 1 && room.slots == SlotSum(room.localTxs + room.remoteTxs)
    requires room.localTxs == {} && room.remoteTxs == Members(Small(c)) - {c.cheap}
    ensures room.slots == n - 1 && forall x :: x in room.localTxs || x in room.remoteTxs ==> x.from != c.large.from
  {
    FullPool(c, n);
    assert {} + room.remoteTxs == room.remoteTxs;
    forall x | x in room.remoteTxs ensures x.from != c.large.from {
      SmallPlays(c, x);
    }
  }

  method AddLarge(pool: TxPool, c: Cast, ghost n: nat)
    requires GoodCast(c) && n == |c.others| + 1 && LookAt(pool) == Back(c, n)
    requires pool.Valid() && Suits(c, pool.config, pool.env, pool.gasPrice, pool.priced.baseFee)
    modifies pool`pending, pool`queue, pool`localTxs, pool`remoteTxs, pool`slots, pool`nonces, pool`locals,
             pool.priced`urgent, pool.priced`floating, pool.priced`stales
    ensures pool.Valid() && pool.slots == n + 1
  {
    ghost var s := pool.Now();
    LargeIsLetIn(c, n);
    assert pool.Validate(c.large, pool.env, false, true, 0) == None;
    assert pool.RoomError(c.large, false) == None && pool.Needed(c.large) == 2;
    assert c.large !in pool.localTxs && c.large !in pool.remoteTxs;
    var _, err, room, drop := pool.Add(c.large, false, true, 0);
    assert err == None || err == Some(ReplaceUnderpriced);
    LargeLands(c, n, s, pool.config, pool.env, Stage(room, pool.nonces), drop);
  }

  /** From an empty pool: fill it, raise the floor above the cheapest transaction, lower it, add that transaction
      again, and then a large one.  The pool is above its limit. */
  method OverTheLimit(c: Cast, config: Config, env: Env) returns (pool: TxPool)
    requires GoodCast(c) && Admissible(c, env) && config.accountSlots >= 1
    requires config.globalSlots + config.globalQueue == |c.others| + 1
    ensures fresh(pool) && pool.Valid() && pool.config == config && pool.slots > config.globalSlots + config.globalQueue
  {
    var n := |c.others| + 1;
    pool := new TxPool(config, {}, env, c.floor);
    FillPool(pool, c, n);
    LeaveAndReturn(pool, c, n);
    AddLarge(pool, c, n);
  }

  /** Every account is at nonce zero and has ten coins. */
  function RichEnv(): Env {
    Env((a: Address) => 0, (a: Address) => 10, 1)
  }

  /** A first transaction of an account that offers `price` for one unit of gas. */
  function Offering(a: Address, price: nat, size: nat): Tx {
    Tx(a, 0, price, price, 1, 0, size, 0)
  }

  lemma SuchACast()
    ensures exists c, env :: GoodCast(c) && Admissible(c, env)
  {
    var others := [Offering(1, 2, 1), Offering(2, 2, 1), Offering(3, 2, 1)];
    var c := Cast(Offering(0, 1, 1), others, Offering(4, 3, SLOT_SIZE + 1), 1, 2);
    forall i | 0 <= i < 3 ensures Plays(c, others[i]) {
    }
    assert GoodCast(c);
    assert Admissible(c, RichEnv());
  }

  // ---------- reinjection ----------

  /** A better transaction is let into a pool whose one transaction it does not fit beside. */
  lemma BetterIsLetIn(baseFee: Option<int>, held: Heaps, tx: Tx, n: Tx)
    requires Covers(held.urgent, held.floating, {tx}) && Cmp(baseFee, tx, n) < 0 && Cmp(None, tx, n) < 0
    ensures !NoBetterThanAny(baseFee, held.urgent, held.floating, {tx}, n)
    ensures LiveSlots(held.urgent, held.floating, {tx}) >= NumSlots(tx)
  {
    assert tx in held.urgent || tx in held.floating;
    assert Entries(held.urgent, held.floating, tx) >= 1;
    LiveSlotsTake(held.urgent, held.floating, {tx}, tx);
    Distribute(Entries(held.urgent, held.floating, tx) - 1, 1, NumSlots(tx));
  }

  /** With nothing left of an account whose one pending transaction the chain has moved past. */
  lemma SunkAlone(tx: Tx, p: Pool, nonces: map<Address, nat>, env: Env, config: Config, locals: set<Address>)
    requires Consistent(p) && AllGapFree(p) && AllAnchored(OnePending(tx).pending, p, nonces, env)
    requires tx.nonce < env.nonce(tx.from) && Of(p.pending, tx.from) == map[]
    ensures var a := tx.from;
            && Virtual(nonces, env, a) == tx.nonce
            && !LinedUp(env.nonce(a), DemoteOne(PromoteOne(ViewOf(p, nonces, env, a), env, config, locals, a), env, a))
  {
    var a, v := tx.from, ViewOf(p, nonces, env, tx.from);
    OnePendingIsConsistent(tx);
    assert Anchored(Of(OnePending(tx).pending, a), env.nonce(a), v);
    AnchoredIsRewound(OnePending(tx).pending, p, nonces, env);
    assert Rewound(env.nonce(a), v) && AccountOk(a, v.pend, v.que);
    RestoredIff(v, env, config, locals, a);
  }

  /** A full pool holds one pending transaction that the chain moves past.  A reset that reinjects a better one
      evicts it: the virtual nonce falls below the chain's, and refreshing the account does not line it up. */
  method ReinjectionEvicts(pool: TxPool, tx: Tx, n: Tx, env: Env)
    requires pool.Valid() && pool.Abs() == OnePending(tx) && n.from != tx.from && n.from !in pool.locals
    requires pool.config.globalSlots + pool.config.globalQueue == NumSlots(tx) == NumSlots(n) > 0
    requires tx.nonce < env.nonce(tx.from) && Acceptable(n, env, pool.gasPrice)
    requires Cmp(pool.priced.baseFee, tx, n) < 0 && Cmp(None, tx, n) < 0
    modifies pool`pending, pool`queue, pool`localTxs, pool`remoteTxs, pool`slots, pool`nonces, pool`env,
             pool.priced`urgent, pool.priced`floating, pool.priced`stales
    ensures pool.Valid() && tx !in pool.localTxs + pool.remoteTxs
    ensures Virtual(pool.nonces, env, tx.from) == tx.nonce < env.nonce(tx.from)
    ensures var v := ViewOf(pool.Abs(), pool.nonces, env, tx.from);
            !LinedUp(env.nonce(tx.from), DemoteOne(PromoteOne(v, env, pool.config, pool.locals, tx.from), env, tx.from))
  {
    OnePendingIsConsistent(tx);
    assert AllGapFree(OnePending(tx));
    BetterIsLetIn(pool.priced.baseFee, pool.priced.Held(), tx, n);
    OneSlotSum(tx);
    assert pool.MustEvict(Incoming(n, true, 0), env);
    pool.Reset(Some(env), [Incoming(n, true, 0)]);
    assert Offered([Incoming(n, true, 0)]) == {n};
    GoneAlone(pool.Abs(), tx, n);
    SunkAlone(tx, pool.Abs(), pool.nonces, env, pool.config, pool.locals);
  }

  lemma GoneAlone(p: Pool, tx: Tx, n: Tx)
    requires Consistent(p) && p.localTxs + p.remoteTxs <= {tx, n} && n.from != tx.from
    requires !({tx} <= p.localTxs + p.remoteTxs)
    ensures tx !in p.localTxs + p.remoteTxs && Of(p.pending, tx.from) == map[]
  {
    NothingFrom(p, tx.from);
  }

  lemma OneSlotSum(tx: Tx)
    ensures SlotSum({} + {tx}) == NumSlots(tx)
  {
    SlotSumRemove({tx}, tx);
    assert {} + {tx} == {tx} && {tx} - {tx} == {};
  }
}
