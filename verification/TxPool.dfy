/** The transaction pool: the operations that move transactions between the outside world, the
    queue of future transactions and the pending list of executable ones.

    The pool lock makes each operation atomic.  The chain state (nonces, balances, gas limit) is the
    parameter `env`, which only `Reset` replaces.  Loops over Go maps choose keys in any order.
 */
module TxPoolModel {
  import opened Options
  import opened Transactions
  import opened TxSortedMapModel
  import opened TxListModel
  import opened TxPricedListModel
  import opened PoolState
  import opened PoolSteps
  import opened PoolTruncation

  const TX_MAX_SIZE := 4 * SLOT_SIZE
  const TWO_TO_256 := 0x1_0000_0000_0000_0000_0000_0000_0000_0000_0000_0000_0000_0000_0000_0000_0000_0000

  datatype TxError =
    | OversizedData | NegativeValue | GasLimit | FeeCapVeryHigh | TipVeryHigh | TipAboveFeeCap | InvalidSender
    | TxUnderpriced | NonceTooLow | InsufficientFunds | IntrinsicGas
    | AlreadyKnown | PoolOverflow | ReplaceUnderpriced

  /** A transaction offered to the pool, with the checks made elsewhere. */
  datatype Incoming = Incoming(tx: Tx, sender: bool, intrinsic: nat)

  /** A change of chain state: the new state if it can be loaded, what abandoned blocks leave to reinject,
      the next base fee. */
  datatype ResetRequest = ResetRequest(env: Option<Env>, reinject: seq<Incoming>, baseFee: int)

  /** The state a run works with. */
  function EnvAfter(reset: Option<ResetRequest>, env: Env): Env {
    if reset.Some? && reset.value.env.Some? then reset.value.env.value else env
  }

  /** A reset that gets to another state. */
  predicate Reloads(reset: Option<ResetRequest>) {
    reset.Some? && reset.value.env.Some?
  }

  /** A reset whose state cannot be loaded. */
  predicate Stays(reset: Option<ResetRequest>) {
    reset.Some? && reset.value.env.None?
  }

  /** A reset to another state with nothing to reinject. */
  predicate PlainReset(reset: Option<ResetRequest>) {
    Reloads(reset) && reset.value.reinject == []
  }

  datatype Op =
    | OpAdd(incoming: Incoming, local: bool)
    | OpRemove(tx: Tx, outofbound: bool)
    | OpPromote(accounts: set<Address>)
    | OpDemote
    | OpTruncatePending
    | OpTruncateQueue(beats: Address -> int)
    | OpSetGasPrice(price: nat)
    | OpMaintain(reset: Option<ResetRequest>, dirty: set<Address>, beats: Address -> int)

  /** The slots of transactions to reinject. */
  ghost function IncomingSlots(s: seq<Incoming>): nat {
    if s == [] then 0 else NumSlots(s[0].tx) + IncomingSlots(s[1..])
  }

  ghost function Offered(s: seq<Incoming>): set<Tx> {
    if s == [] then {} else Offered(s[..|s| - 1]) + {s[|s| - 1].tx}
  }

  /** Resets with something to reinject. */
  predicate MayUnline(op: Op) {
    op.OpMaintain? && Reloads(op.reset) && !PlainReset(op.reset)
  }

  /** Demotion under an unchanged chain state: on its own, or in a reset that cannot load the new one. */
  predicate DemotesInPlace(op: Op) {
    op.OpDemote? || (op.OpMaintain? && Stays(op.reset))
  }

  /** When a maintenance run from `s` lines every account up with the chain, as `mid` says before the pool is cut;
      `injected` is what reinjection left.
      - From contiguous lists it does if there is no reset or nothing to reinject, and if the new state cannot be
        loaded exactly if every first pending transaction is affordable, which in a fronted pool it is.
      - A reset that loads a state leaves the virtual nonces at the chain's exactly if no transaction pending
        before was evicted from below them, which it never is if there is room for all; from gap-free lists every
        account is in line exactly if that is so and no gap lies ahead.
      - It leaves a fronted pool; so does any other run of one. */
  ghost predicate LinesUp(reset: Option<ResetRequest>, s: Stage, env: Env, config: Config, injected: Stage, mid: Stage) {
    var e := EnvAfter(reset, env);
    var lined := AllLined(mid.pool, mid.nonces, e);
    && (Contiguous(s.pool, s.nonces, env) ==>
          && (reset.None? || PlainReset(reset) ==> lined)
          && (Stays(reset) ==> (lined <==> FirstsAffordable(s.pool, e)))
          && (Stays(reset) && AllFronted(s.pool, s.nonces, env) ==> lined))
    && (Reloads(reset) ==>
          && (AtChain(injected.nonces, e) <==> StaleStay(s.pool.pending, injected.pool, e))
          && (s.pool.slots + IncomingSlots(reset.value.reinject) <= config.globalSlots + config.globalQueue ==>
                AtChain(injected.nonces, e))
          && (AllGapFree(s.pool) ==> (lined <==> AtChain(injected.nonces, e) && NoGapAhead(injected.pool, e))))
    && (Reloads(reset) || AllFronted(s.pool, s.nonces, env) ==> AllFronted(mid.pool, mid.nonces, e))
  }

  /** Where reinjection starts and what it leaves behind after `i` transactions. */
  ghost predicate Reinjected(s0: Stage, s: Stage, env: Env, config: Config, reinject: seq<Incoming>, i: nat)
    requires i <= |reinject|
  {
    var limit := config.globalSlots + config.globalQueue;
    && KeepsInStep(s0.pool, s0.nonces, s.pool, s.nonces, env) && (i == 0 ==> s == s0)
    && s.pool.localTxs + s.pool.remoteTxs <= s0.pool.localTxs + s0.pool.remoteTxs + Offered(reinject[..i])
    && (s0.pool.slots + IncomingSlots(reinject) <= limit ==>
          s.nonces == s0.nonces && s.pool.slots + IncomingSlots(reinject[i..]) <= limit)
  }

  lemma ReinjectedNone(s: Stage, env: Env, config: Config, reinject: seq<Incoming>)
    ensures Reinjected(s, s, env, config, reinject, 0)
  {
    NoChangeKeepsInStep(s.pool, s.nonces, env);
    assert reinject[0..] == reinject;
  }

  lemma ReinjectedNext(s0: Stage, s: Stage, s': Stage, env: Env, config: Config, reinject: seq<Incoming>, i: nat)
    requires i < |reinject| && Reinjected(s0, s, env, config, reinject, i)
    requires KeepsInStep(s.pool, s.nonces, s'.pool, s'.nonces, env)
    requires s'.pool.localTxs + s'.pool.remoteTxs <= s.pool.localTxs + s.pool.remoteTxs + {reinject[i].tx}
    requires s.pool.slots + NumSlots(reinject[i].tx) <= config.globalSlots + config.globalQueue ==>
               s'.nonces == s.nonces && s'.pool.slots <= s.pool.slots + NumSlots(reinject[i].tx)
    ensures Reinjected(s0, s', env, config, reinject, i + 1)
  {
    assert reinject[i..][1..] == reinject[i + 1..] && reinject[..i + 1][..i] == reinject[..i];
    InStepTwice(s0.pool, s0.nonces, s.pool, s.nonces, s'.pool, s'.nonces, env);
  }

  lemma ReinjectedAll(s0: Stage, s: Stage, env: Env, config: Config, reinject: seq<Incoming>)
    requires s0.nonces == map[] && Reinjected(s0, s, env, config, reinject, |reinject|)
    ensures AllAnchored(s0.pool.pending, s.pool, s.nonces, env) && (AllGapFree(s0.pool) ==> AllGapFree(s.pool))
    ensures s.pool.localTxs + s.pool.remoteTxs <= s0.pool.localTxs + s0.pool.remoteTxs + Offered(reinject)
    ensures s0.pool.slots + IncomingSlots(reinject) <= config.globalSlots + config.globalQueue ==>
            AtChain(s.nonces, env)
  {
    ResetAnchors(s0.pool, env);
    assert reinject[..|reinject|] == reinject;
  }

  /** The local accounts once `a` may have joined them. */
  function Marked(locals: set<Address>, joins: bool, a: Address): set<Address> {
    if joins then locals + {a} else locals
  }

  class TxPool {
    const config: Config
    const priced: TxPricedList
    var pending: Lists
    var queue: Lists
    var localTxs: set<Tx>
    var remoteTxs: set<Tx>
    var slots: int
    var locals: set<Address>
    var nonces: map<Address, nat>
    var env: Env
    var gasPrice: nat

    ghost function Abs(): Pool
      reads this
    {
      Pool(pending, queue, localTxs, remoteTxs, slots)
    }

    ghost function Now(): Stage
      reads this
    {
      Stage(Abs(), nonces)
    }

    ghost predicate LookupOk()
      reads this
    {
      localTxs !! remoteTxs && slots == SlotSum(localTxs + remoteTxs)
    }

    ghost predicate Valid()
      reads this, priced
    {
      Consistent(Abs()) && priced.Valid() && Covers(priced.urgent, priced.floating, remoteTxs)
    }

    constructor (config: Config, locals: set<Address>, env: Env, gasPrice: nat)
      requires config.accountSlots >= 1
      ensures Valid() && Tracked() && Fronted() && Abs() == Pool(map[], map[], {}, {}, 0) && nonces == map[] &&
              fresh(priced)
      ensures this.config == config && this.env == env && this.locals == locals && this.gasPrice == gasPrice
      ensures priced.Held() == Heaps([], [], 0) && priced.baseFee == None
    {
      this.config, this.locals, this.env, this.gasPrice := config, locals, env, gasPrice;
      pending, queue, localTxs, remoteTxs, slots, nonces := map[], map[], {}, {}, 0, map[];
      var list := new TxPricedList();
      priced := list;
    }

    // ---------- the lookup ----------

    method LookupAdd(tx: Tx, local: bool)
      requires LookupOk() && tx !in localTxs && tx !in remoteTxs
      modifies this`localTxs, this`remoteTxs, this`slots
      ensures LookupOk()
      ensures localTxs == old(localTxs) + (if local then {tx} else {})
      ensures remoteTxs == old(remoteTxs) + (if local then {} else {tx})
    {
      SlotSumAdd(localTxs + remoteTxs, tx);
      slots := slots + NumSlots(tx);
      assert (localTxs + {tx}) + remoteTxs == (localTxs + remoteTxs) + {tx} == localTxs + (remoteTxs + {tx});
      if local {
        localTxs := localTxs + {tx};
      } else {
        remoteTxs := remoteTxs + {tx};
      }
    }

    method LookupRemove(tx: Tx)
      requires LookupOk()
      modifies this`localTxs, this`remoteTxs, this`slots
      ensures LookupOk() && localTxs == old(localTxs) - {tx} && remoteTxs == old(remoteTxs) - {tx}
    {
      assert (localTxs - {tx}) + (remoteTxs - {tx}) == (localTxs + remoteTxs) - {tx};
      if tx !in localTxs && tx !in remoteTxs {
        assert localTxs - {tx} == localTxs && remoteTxs - {tx} == remoteTxs;
        return;
      }
      SlotSumRemove(localTxs + remoteTxs, tx);
      slots := slots - NumSlots(tx);
      localTxs, remoteTxs := localTxs - {tx}, remoteTxs - {tx};
    }

    method LookupRemoveAll(gone: set<Tx>)
      requires LookupOk()
      modifies this`localTxs, this`remoteTxs, this`slots
      ensures LookupOk() && localTxs == old(localTxs) - gone && remoteTxs == old(remoteTxs) - gone
    {
      var todo := gone;
      while todo != {}
        invariant todo <= gone && LookupOk()
        invariant localTxs == old(localTxs) - (gone - todo) && remoteTxs == old(remoteTxs) - (gone - todo)
        decreases todo
      {
        var tx :| tx in todo;
        LookupRemove(tx);
        todo := todo - {tx};
      }
    }

    /** Files a transaction in the queue unless a better one sits at its nonce.  Internal moves
        (`addAll` false) leave the lookup alone. */
    method EnqueueTx(tx: Tx, local: bool, addAll: bool) returns (replaced: bool, ok: bool)
      requires LookupOk() && priced.Valid() && (addAll ==> tx !in localTxs && tx !in remoteTxs)
      modifies this`queue, this`localTxs, this`remoteTxs, this`slots, priced`urgent, priced`floating, priced`stales
      ensures LookupOk() && priced.Valid()
      ensures ok == Accepts(Of(old(queue), tx.from), tx, config.priceBump)
      ensures ok ==> queue == SetOf(old(queue), tx.from, Of(old(queue), tx.from)[tx.nonce := tx])
      ensures ok ==> replaced == (tx.nonce in Of(old(queue), tx.from))
      ensures ok ==> var gone := Replaced(Of(old(queue), tx.from), tx);
                localTxs == (old(localTxs) - gone) + (if addAll && local then {tx} else {}) &&
                remoteTxs == (old(remoteTxs) - gone) + (if addAll && !local then {tx} else {})
      ensures !ok ==> queue == old(queue) && localTxs == old(localTxs) && remoteTxs == old(remoteTxs)
      ensures !ok || (!addAll && !replaced) ==>
                && localTxs == old(localTxs) && remoteTxs == old(remoteTxs) && priced.Held() == old(priced.Held())
      ensures ok && addAll && !replaced && !local ==> priced.Held() == AfterPut(old(priced.Held()), priced.baseFee, tx)
      ensures KeepsCover(old(priced.urgent), old(priced.floating), priced.urgent, priced.floating, remoteTxs)
      ensures ok && addAll && !local ==> tx in priced.urgent || tx in priced.floating
    {
      var list := Of(queue, tx.from);
      replaced := false;
      if !Accepts(list, tx, config.priceBump) {
        return false, false;
      }
      ok := true;
      assert tx.nonce in list[tx.nonce := tx];
      queue := queue[tx.from := list[tx.nonce := tx]];
      if tx.nonce in list {
        replaced := true;
        LookupRemove(list[tx.nonce]);
        priced.Removed(1, remoteTxs);
      }
      if addAll {
        LookupAdd(tx, local);
        PutCovers(priced.baseFee, priced.urgent, tx);
        priced.Put(tx, local);
      }
    }

    /** Moves transactions, none of whose nonces is queued yet, into an account's queue one by one. */
    method EnqueueAll(a: Address, back: Txs)
      requires LookupOk() && priced.Valid() && OwnTxs(a, back) && Of(queue, a).Keys !! back.Keys && NoEmpty(queue)
      modifies this`queue, this`localTxs, this`remoteTxs, this`slots, priced`urgent, priced`floating, priced`stales
      ensures LookupOk() && priced.Valid()
      ensures queue == SetOf(old(queue), a, Of(old(queue), a) + back)
      ensures localTxs == old(localTxs) && remoteTxs == old(remoteTxs)
      ensures priced.Held() == old(priced.Held())
    {
      ghost var q0, m := queue, Of(queue, a);
      var done: Txs, left := map[], back;
      MovedNone(q0, a);
      PartsStart(back);
      while left != map[]
        invariant Parts(back, done, left) && LookupOk() && priced.Valid()
        invariant queue == SetOf(q0, a, m + done)
        invariant localTxs == old(localTxs) && remoteTxs == old(remoteTxs)
        invariant priced.Held() == old(priced.Held())
        decreases left.Keys
      {
        var n :| n in left;
        PartsStep(a, back, done, left, n, m);
        MovedOne(q0, a, m, done, left[n]);
        var _, _ := EnqueueTx(left[n], false, false);
        done, left := done[n := left[n]], left - {n};
      }
      PartsEnd(back, done);
    }

    /** The list part of a removal. */
    method TakeOut(tx: Tx)
      requires LookupOk() && priced.Valid() && NoEmpty(pending) && NoEmpty(queue)
      requires AccountOk(tx.from, Of(pending, tx.from), Of(queue, tx.from))
      requires Has(Of(pending, tx.from), tx) || Has(Of(queue, tx.from), tx)
      modifies this`pending, this`queue, this`localTxs, this`remoteTxs, this`slots, this`nonces,
               priced`urgent, priced`floating, priced`stales
      ensures LookupOk() && priced.Valid() && localTxs == old(localTxs) && remoteTxs == old(remoteTxs)
      ensures priced.Held() == old(priced.Held())
      ensures var a, pend, que := tx.from, Of(old(pending), tx.from), Of(old(queue), tx.from);
              && pending == SetOf(old(pending), a, PendingAfter(pend, tx.nonce))
              && queue == SetOf(old(queue), a, QueueAfter(pend, que, tx.nonce))
              && nonces == if tx.nonce in pend then SetIfLower(old(nonces), env, a, tx.nonce) else old(nonces)
    {
      var a, pend := tx.from, Of(pending, tx.from);
      if tx.nonce in pend {
        var back := From(pend, tx.nonce + 1);
        BackOk(a, pend, Of(queue, a), tx.nonce + 1);
        assert QueueAfter(pend, Of(queue, a), tx.nonce) == Of(queue, a) + back;
        pending := SetOf(pending, a, Before(pend, tx.nonce));
        EnqueueAll(a, back);
        nonces := SetIfLower(nonces, env, a, tx.nonce);
      } else {
        SetSame(pending, a);
        var rest: Txs := Of(queue, a) - {tx.nonce};
        assert QueueAfter(pend, Of(queue, a), tx.nonce) == rest;
        queue := SetOf(queue, a, rest);
      }
    }

    /** Removes a transaction from the pool.  If it was pending, its successors go back to the queue and
        the account's virtual nonce falls to it. */
    method RemoveTx(tx: Tx, outofbound: bool)
      requires Consistent(Abs()) && priced.Valid()
      modifies this`pending, this`queue, this`localTxs, this`remoteTxs, this`slots, this`nonces,
               priced`urgent, priced`floating, priced`stales
      ensures Consistent(Abs()) && priced.Valid()
      ensures Abs() == AfterRemove(old(Abs()), tx)
      ensures nonces == NoncesAfterRemove(old(Abs()), old(nonces), env, tx)
      ensures !outofbound ==> priced.Held() == old(priced.Held())
      ensures KeepsCover(old(priced.urgent), old(priced.floating), priced.urgent, priced.floating, remoteTxs)
    {
      RemoveKeepsConsistent(Abs(), tx);
      if tx !in localTxs && tx !in remoteTxs {
        return;
      }
      FiledSomewhere(Abs(), tx);
      LookupRemove(tx);
      if outofbound {
        priced.Removed(1, remoteTxs);
      }
      TakeOut(tx);
      assert Abs() == AfterRemove(old(Abs()), tx);
    }

    // ---------- adding ----------

    ghost predicate Tracked()
      reads this
    {
      Contiguous(Abs(), nonces, env)
    }

    /** Every account is lined up with the chain, its virtual nonce perhaps still to be settled. */
    ghost predicate Lined()
      reads this
    {
      AllLined(Abs(), nonces, env)
    }

    /** What every run keeps, whatever happens: pending lists start at the chain's nonce. */
    ghost predicate Fronted()
      reads this
    {
      AllFronted(Abs(), nonces, env)
    }

    /** The slots `tx` lacks; not positive if there is room. */
    function Needed(tx: Tx): int
      reads this`slots
    {
      slots - (config.globalSlots + config.globalQueue) + NumSlots(tx)
    }

    /** Why no room can be made for `tx`, if so: in a full pool a remote transaction must be better than some
        live entry of the price heaps, and all live entries together must take the slots it lacks. */
    ghost function RoomError(tx: Tx, local: bool): Option<TxError>
      reads this`slots, this`remoteTxs, priced
    {
      if local || Needed(tx) <= 0 then None
      else if NoBetterThanAny(priced.baseFee, priced.urgent, priced.floating, remoteTxs, tx) then Some(TxUnderpriced)
      else if LiveSlots(priced.urgent, priced.floating, remoteTxs) < Needed(tx) then Some(PoolOverflow)
      else None
    }

    /** The consensus and policy checks on an incoming transaction, in order.  `sender` tells whether its
        signature is good, `intrinsic` is the least gas it needs. */
    function Validate(tx: Tx, env: Env, local: bool, sender: bool, intrinsic: nat): (err: Option<TxError>)
      reads this`gasPrice
      ensures err != Some(AlreadyKnown) && err != Some(PoolOverflow) && err != Some(ReplaceUnderpriced)
      ensures err.None? <==>
              && tx.size <= TX_MAX_SIZE && 0 <= tx.value && tx.tipCap <= tx.feeCap < TWO_TO_256 && sender
              && (local || gasPrice <= tx.tipCap) && intrinsic <= tx.gas <= env.maxGas
              && env.nonce(tx.from) <= tx.nonce && Cost(tx) <= env.balance(tx.from)
    {
      if tx.size > TX_MAX_SIZE then Some(OversizedData)
      else if tx.value < 0 then Some(NegativeValue)
      else if env.maxGas < tx.gas then Some(GasLimit)
      else if tx.feeCap >= TWO_TO_256 then Some(FeeCapVeryHigh)
      else if tx.tipCap >= TWO_TO_256 then Some(TipVeryHigh)
      else if tx.feeCap < tx.tipCap then Some(TipAboveFeeCap)
      else if !sender then Some(InvalidSender)
      else if !local && tx.tipCap < gasPrice then Some(TxUnderpriced)
      else if env.nonce(tx.from) > tx.nonce then Some(NonceTooLow)
      else if env.balance(tx.from) < Cost(tx) then Some(InsufficientFunds)
      else if tx.gas < intrinsic then Some(IntrinsicGas)
      else None
    }

    /** A new and valid transaction, let into a full pool that holds remote ones. */
    ghost predicate MustEvict(i: Incoming, env: Env)
      reads this`slots, this`localTxs, this`remoteTxs, this`locals, this`gasPrice, priced
    {
      && i.tx !in localTxs && i.tx !in remoteTxs && Needed(i.tx) > 0 && remoteTxs != {}
      && Validate(i.tx, env, i.tx.from in locals, i.sender, i.intrinsic).None? && RoomError(i.tx, i.tx.from in locals).None?
    }

    /** Swaps one transaction for another in the lookup and the price heaps. */
    method Exchange(gone: Tx, tx: Tx, local: bool)
      requires LookupOk() && priced.Valid() && tx !in localTxs && tx !in remoteTxs
      modifies this`localTxs, this`remoteTxs, this`slots, priced`urgent, priced`floating, priced`stales
      ensures LookupOk() && priced.Valid()
      ensures localTxs == (old(localTxs) - {gone}) + (if local then {tx} else {})
      ensures remoteTxs == (old(remoteTxs) - {gone}) + (if local then {} else {tx})
      ensures old(Covers(priced.urgent, priced.floating, remoteTxs)) ==>
              Covers(priced.urgent, priced.floating, remoteTxs)
    {
      LookupRemove(gone);
      priced.Removed(1, remoteTxs);
      LookupAdd(tx, local);
      PutCovers(priced.baseFee, priced.urgent, tx);
      priced.Put(tx, local);
    }

    /** Replaces the pending transaction at the same nonce if the price rises enough. */
    method ReplacePending(tx: Tx, local: bool) returns (ok: bool)
      requires Valid() && tx !in localTxs && tx !in remoteTxs && tx.nonce in Of(pending, tx.from)
      modifies this`pending, this`localTxs, this`remoteTxs, this`slots, priced`urgent, priced`floating, priced`stales
      ensures Valid() && ok == Accepts(Of(old(pending), tx.from), tx, config.priceBump)
      ensures Abs() == if ok then FiledAsTarget(old(Abs()), tx, local) else old(Abs())
    {
      var list := Of(pending, tx.from);
      ok := Accepts(list, tx, config.priceBump);
      if !ok {
        return;
      }
      assert AccountOk(tx.from, list, Of(queue, tx.from));
      FilingKeepsConsistent(Abs(), tx, local, true);
      pending := SetOf(pending, tx.from, list[tx.nonce := tx]);
      Exchange(list[tx.nonce], tx, local);
      assert Abs() == FiledIn(old(Abs()), tx, local, true);
    }

    /** Removes what the price heaps gave up. */
    method RemoveDrops(drop: seq<Tx>)
      requires Consistent(Abs()) && priced.Valid() && forall x <- drop :: x in remoteTxs
      requires forall x <- remoteTxs :: x in priced.urgent || x in priced.floating || x in drop
      modifies this`pending, this`queue, this`localTxs, this`remoteTxs, this`slots, this`nonces,
               priced`urgent, priced`floating, priced`stales
      ensures Valid() && Now() == RemoveEach(old(Now()), old(env), drop)
      ensures localTxs == old(localTxs) && remoteTxs == old(remoteTxs) - Members(drop)
    {
      ghost var s, e := Now(), env;
      for i := 0 to |drop|
        invariant Consistent(Abs()) && priced.Valid() && Now() == RemoveEach(s, e, drop[..i])
        invariant priced.Held() == old(priced.Held())
      {
        RemoveNth(drop, i, i + 1, s, e);
      }
      assert drop[..|drop|] == drop;
      RemoveEachKeeps(s, e, drop);
    }

    method RemoveNth(drop: seq<Tx>, i: nat, ghost next: nat, ghost s: Stage, ghost e: Env)
      requires Consistent(Abs()) && priced.Valid() && i < |drop| && next == i + 1 && e == env
      requires Now() == RemoveEach(s, e, drop[..i])
      modifies this`pending, this`queue, this`localTxs, this`remoteTxs, this`slots, this`nonces,
               priced`urgent, priced`floating, priced`stales
      ensures Consistent(Abs()) && priced.Valid() && Now() == RemoveEach(s, e, drop[..next])
      ensures priced.Held() == old(priced.Held())
    {
      RemoveNext(s, e, drop, i, next);
      RemoveTx(drop[i], false);
    }

    /** Marks the transactions of local accounts as local. */
    method RemoteToLocals() returns (migrated: nat)
      requires Consistent(Abs())
      modifies this`localTxs, this`remoteTxs
      ensures Consistent(Abs()) && localTxs + remoteTxs == old(localTxs + remoteTxs)
      ensures remoteTxs <= old(remoteTxs) && old(localTxs) <= localTxs
      ensures forall tx <- remoteTxs :: tx.from !in locals
    {
      migrated := 0;
      var todo := remoteTxs;
      ghost var all := localTxs + remoteTxs;
      while todo != {}
        invariant todo <= remoteTxs <= old(remoteTxs) && localTxs !! remoteTxs
        invariant localTxs + remoteTxs == all && old(localTxs) <= localTxs
        invariant forall tx <- remoteTxs :: tx in todo || tx.from !in locals
        decreases todo
      {
        var tx :| tx in todo;
        if tx.from in locals {
          localTxs, remoteTxs := localTxs + {tx}, remoteTxs - {tx};
          migrated := migrated + 1;
        }
        todo := todo - {tx};
      }
      MigrationKeepsConsistent(old(Abs()), localTxs, remoteTxs);
    }

    /** Makes room for a transaction by evicting worse remote ones; fails if that is not possible.  If no
        remote transaction has two entries in the price heaps, a remote newcomer finds its room, and a local
        one does unless there is nothing left to evict. */
    method MakeRoom(tx: Tx, local: bool) returns (err: Option<TxError>, ghost drop: seq<Tx>)
      requires Valid()
      modifies this`pending, this`queue, this`localTxs, this`remoteTxs, this`slots, this`nonces,
               priced`urgent, priced`floating, priced`stales
      ensures Valid() && RoomFor(old(Now()), old(priced.Held()), priced.baseFee, env, config, tx, local, err.Some?,
                      Now(), drop)
      ensures err == old(RoomError(tx, local))
      ensures old(Needed(tx)) <= 0 ==> priced.Held() == old(priced.Held())
    {
      err, drop := None, [];
      if Needed(tx) <= 0 {
        RefusalLeavesAll(Now(), priced.Held(), priced.baseFee, env, config, tx, local);
        return;
      }
      ghost var held := priced.Held();
      SameCounts(held.urgent, held.floating, remoteTxs);
      if !local {
        var worse := priced.Underpriced(tx, remoteTxs);
        ConservedCovers(remoteTxs, held.urgent, held.floating, priced.urgent, priced.floating, []);
        if worse {
          RefusalLeavesAll(Now(), held, priced.baseFee, env, config, tx, local);
          return Some(TxUnderpriced), [];
        }
      }
      err, drop := Evict(tx, local, held);
    }

    /** Evicts what the price heaps give up for `tx`; `held` is what they held before stale entries left them. */
    method Evict(tx: Tx, local: bool, ghost held: Heaps) returns (err: Option<TxError>, ghost gone: seq<Tx>)
      requires Valid() && Needed(tx) > 0 && Covers(held.urgent, held.floating, remoteTxs)
      requires Conserved(remoteTxs, held.urgent, held.floating, priced.urgent, priced.floating, [])
      requires SubHeaps(priced.urgent, priced.floating, held.urgent, held.floating)
      modifies this`pending, this`queue, this`localTxs, this`remoteTxs, this`slots, this`nonces,
               priced`urgent, priced`floating, priced`stales
      ensures Valid() && RoomFor(old(Now()), held, priced.baseFee, env, config, tx, local, err.Some?, Now(), gone)
      ensures err == if !local &&
              LiveSlots(held.urgent, held.floating, old(remoteTxs)) < old(Needed(tx)) then Some(PoolOverflow)
                     else None
    {
      ghost var s, single := Now(), Single(held.urgent, held.floating, remoteTxs);
      var drop;
      err, drop := ChooseDrops(tx, local, held.urgent, held.floating, single);
      gone := drop;
      if err.None? {
        RemoveDrops(drop);
        RemovalMakesRoom(s, held, priced.baseFee, env, config, tx, local, Now(), drop);
      } else {
        RefusalLeavesAll(s, held, priced.baseFee, env, config, tx, local);
      }
    }

    /** Takes from the price heaps what has to go for `tx`. */
    method ChooseDrops(tx: Tx, local: bool, ghost u: seq<Tx>, ghost f: seq<Tx>, ghost single: bool)
      returns (err: Option<TxError>, drop: seq<Tx>)
      requires Valid() && Needed(tx) > 0 && Covers(u, f, remoteTxs) && single == Single(u, f, remoteTxs)
      requires Conserved(remoteTxs, u, f, priced.urgent, priced.floating, [])
      requires SubHeaps(priced.urgent, priced.floating, u, f)
      modifies priced`urgent, priced`floating, priced`stales
      ensures priced.Valid() && forall x <- remoteTxs :: x in priced.urgent || x in priced.floating || x in drop
      ensures err == if !local && LiveSlots(u, f, remoteTxs) < Needed(tx) then Some(PoolOverflow) else None
      ensures if err.Some? then drop == [] else FreesRoom(Abs(), tx, local, single, config, drop)
      ensures Picks(priced.baseFee, u, f, remoteTxs, Needed(tx), drop) &&
              (err.None? && !local ==> Slots(drop) >= Needed(tx))
    {
      ghost var u1, f1 := priced.urgent, priced.floating;
      var success;
      drop, success := priced.Discard(Needed(tx), local, remoteTxs);
      ConservedThen(remoteTxs, u, f, u1, f1, priced.urgent, priced.floating, drop);
      ConservedCovers(remoteTxs, u, f, priced.urgent, priced.floating, drop);
      PicksEarlier(priced.baseFee, u, f, u1, f1, remoteTxs, Needed(tx), drop);
      if !local && !success {
        return Some(PoolOverflow), [];
      }
      DropFreesSlots(localTxs, remoteTxs, u, f, priced.urgent, priced.floating, drop);
      DropsSomething(remoteTxs, priced.urgent, priced.floating, drop, Needed(tx));
      err := None;
    }

    /** Adds a transaction: it replaces a pending one at its nonce or goes to the queue, in which case a local
        one makes its sender a local account.  `room` is the pool after worse transactions had to make room; a
        refused replacement does not bring them back. */
    method Add(tx: Tx, local: bool, sender: bool, intrinsic: nat)
      returns (replaced: bool, err: Option<TxError>, ghost room: Pool, ghost drop: seq<Tx>)
      requires Valid()
      modifies this`pending, this`queue, this`localTxs, this`remoteTxs, this`slots, this`nonces, this`locals,
               priced`urgent, priced`floating, priced`stales
      ensures Valid() && (old(Tracked()) ==> Tracked()) && (old(Fronted()) ==> Fronted())
      ensures err == old(AddError(tx, local || tx.from in locals, sender, intrinsic, room))
      ensures RoomFor(old(Now()), old(priced.Held()), priced.baseFee, env, config, tx, old(local ||
              tx.from in locals), err.Some? && err != Some(ReplaceUnderpriced),
                      Stage(room, nonces), drop)
      ensures err.Some? ==> Abs() == room && !replaced
      ensures err.None? ==>
                FilesInto(room, Abs(), tx, old(local || tx.from in locals)) && replaced == (tx.nonce in Target(room, tx))
      ensures err.None? && !local ==> Abs() == FiledAsTarget(room, tx, old(tx.from in locals))
      ensures locals == Marked(old(locals), err.None? && local && tx.nonce !in Of(room.pending, tx.from), tx.from)
      ensures err.None? && old(Needed(tx)) <= 0 && old(!local && tx.from !in locals) &&
              tx.nonce !in Target(room, tx) ==>
                priced.Held() == AfterPut(old(priced.Held()), priced.baseFee, tx)
    {
      var isLocal := local || tx.from in locals;
      var queued;
      replaced, queued, err, room, drop := Enter(tx, isLocal, sender, intrinsic);
      var joins := err.None? && local && queued;
      MarkSender(tx, joins, isLocal, err.None?, room);
      AdditionKeepsInStep(old(Now()), old(priced.Held()), priced.baseFee, env, config, tx, isLocal,
                          err.Some? && err != Some(ReplaceUnderpriced), Stage(room, nonces), drop, err.None?, Abs());
    }

    /** What an addition comes to, given the pool in which there was room. */
    ghost function AddError(tx: Tx, isLocal: bool, sender: bool, intrinsic: nat, room: Pool): Option<TxError>
      reads this, priced
    {
      if tx in localTxs || tx in remoteTxs then Some(AlreadyKnown)
      else if Validate(tx, env, isLocal, sender, intrinsic).Some? then Validate(tx, env, isLocal, sender, intrinsic)
      else if RoomError(tx, isLocal).Some? then RoomError(tx, isLocal)
      else if !Accepts(Target(room, tx), tx, config.priceBump) then Some(ReplaceUnderpriced)
      else None
    }

    /** An addition up to the point where a sender may become local. */
    method Enter(tx: Tx, isLocal: bool, sender: bool, intrinsic: nat)
      returns (replaced: bool, queued: bool, err: Option<TxError>, ghost room: Pool, ghost drop: seq<Tx>)
      requires Valid()
      modifies this`pending, this`queue, this`localTxs, this`remoteTxs, this`slots, this`nonces,
               priced`urgent, priced`floating, priced`stales
      ensures Valid() && RoomFor(old(Now()), old(priced.Held()), priced.baseFee, env, config, tx, isLocal, err.Some? &&
              err != Some(ReplaceUnderpriced),
                      Stage(room, nonces), drop)
      ensures err == old(AddError(tx, isLocal, sender, intrinsic, room))
      ensures err.Some? ==> Abs() == room && !replaced
      ensures err.None? ==> Abs() == FiledAsTarget(room, tx, isLocal) && replaced == (tx.nonce in Target(room, tx))
      ensures err.None? ==> queued == (tx.nonce !in Of(room.pending, tx.from))
      ensures err.None? && old(Needed(tx)) <= 0 && !isLocal && tx.nonce !in Target(room, tx) ==>
                priced.Held() == AfterPut(old(priced.Held()), priced.baseFee, tx)
      ensures err.None? ==> env.nonce(tx.from) <= tx.nonce && !Exceeds(tx, env.balance(tx.from), env.maxGas)
    {
      replaced, queued, room, drop := false, false, Abs(), [];
      RefusalLeavesAll(Now(), priced.Held(), priced.baseFee, env, config, tx, isLocal);
      if tx in localTxs || tx in remoteTxs {
        return false, false, Some(AlreadyKnown), room, [];
      }
      err := Validate(tx, env, isLocal, sender, intrinsic);
      if err.Some? {
        return;
      }
      replaced, queued, err, room, drop := AddValidated(tx, isLocal, RoomError(tx, isLocal));
    }

    /** A queued local transaction makes its sender a local account. */
    method MarkSender(tx: Tx, mark: bool, ghost isLocal: bool, ghost filed: bool, ghost room: Pool)
      requires Valid() && (mark ==> filed) && (filed ==> Abs() == FiledAsTarget(room, tx, isLocal))
      modifies this`locals, this`localTxs, this`remoteTxs, priced`urgent, priced`floating, priced`stales
      ensures Valid()
      ensures if filed then FilesInto(room, Abs(), tx, isLocal) else Abs() == old(Abs())
      ensures locals == Marked(old(locals), mark, tx.from)
      ensures !mark ==> Abs() == old(Abs()) && priced.Held() == old(priced.Held())
    {
      ghost var p := Abs();
      if mark && tx.from !in locals {
        MarkLocal(tx.from);
      }
      if filed {
        FiledAndMarked(room, p, Abs(), tx, isLocal);
      }
    }

    /** The rest of an addition, once the transaction is known to be new and valid. */
    method AddValidated(tx: Tx, isLocal: bool, ghost refusal: Option<TxError>)
      returns (replaced: bool, queued: bool, err: Option<TxError>, ghost room: Pool, ghost drop: seq<Tx>)
      requires Valid() && tx !in localTxs && tx !in remoteTxs
      requires refusal == RoomError(tx, isLocal) && refusal != Some(ReplaceUnderpriced)
      modifies this`pending, this`queue, this`localTxs, this`remoteTxs, this`slots, this`nonces,
               priced`urgent, priced`floating, priced`stales
      ensures Valid() && RoomFor(old(Now()), old(priced.Held()), priced.baseFee, env, config, tx, isLocal, refusal.Some?,
                      Stage(room, nonces), drop)
      ensures err == if refusal.Some? then refusal
                     else if !Accepts(Target(room, tx), tx, config.priceBump) then Some(ReplaceUnderpriced)
                     else None
      ensures err.Some? ==> Abs() == room && !replaced
      ensures err.None? ==> Abs() == FiledAsTarget(room, tx, isLocal) && replaced == (tx.nonce in Target(room, tx))
      ensures err.None? && old(Needed(tx)) <= 0 && !isLocal && tx.nonce !in Target(room, tx) ==>
                priced.Held() == AfterPut(old(priced.Held()), priced.baseFee, tx)
      ensures err.None? ==> queued == (tx.nonce !in Of(room.pending, tx.from))
    {
      replaced := false;
      err, drop := MakeRoom(tx, isLocal);
      room := Abs();
      queued := tx.nonce !in Of(pending, tx.from);
      if err.Some? {
        return;
      }
      var ok;
      replaced, ok := File(tx, isLocal);
      if !ok {
        replaced, err := false, Some(ReplaceUnderpriced);
      }
    }

    /** Files a validated transaction for which there is room. */
    method File(tx: Tx, isLocal: bool) returns (replaced: bool, ok: bool)
      requires Valid() && tx !in localTxs && tx !in remoteTxs
      modifies this`pending, this`queue, this`localTxs, this`remoteTxs, this`slots,
               priced`urgent, priced`floating, priced`stales
      ensures Valid()
      ensures ok == Accepts(Target(old(Abs()), tx), tx, config.priceBump)
      ensures ok ==> Abs() == FiledAsTarget(old(Abs()), tx, isLocal) && replaced == (tx.nonce in Target(old(Abs()), tx))
      ensures !ok ==> Abs() == old(Abs())
      ensures ok && !isLocal && tx.nonce !in Target(old(Abs()), tx) ==>
                priced.Held() == AfterPut(old(priced.Held()), priced.baseFee, tx)
    {
      if tx.nonce in Of(pending, tx.from) {
        ok := ReplacePending(tx, isLocal);
        return ok, ok;
      }
      replaced, ok := AddToQueue(tx, isLocal);
    }

    method AddToQueue(tx: Tx, local: bool) returns (replaced: bool, ok: bool)
      requires Valid() && tx !in localTxs && tx !in remoteTxs && tx.nonce !in Of(pending, tx.from)
      modifies this`queue, this`localTxs, this`remoteTxs, this`slots, priced`urgent, priced`floating, priced`stales
      ensures Valid() && ok == Accepts(Of(old(queue), tx.from), tx, config.priceBump)
      ensures ok ==> replaced == (tx.nonce in Of(old(queue), tx.from))
      ensures Abs() == if ok then FiledAsTarget(old(Abs()), tx, local) else old(Abs())
      ensures ok && !local && tx.nonce !in Of(old(queue), tx.from) ==>
                priced.Held() == AfterPut(old(priced.Held()), priced.baseFee, tx)
    {
      FilingKeepsConsistent(Abs(), tx, local, false);
      replaced, ok := EnqueueTx(tx, local, true);
      assert Abs() == if ok then FiledIn(old(Abs()), tx, local, false) else old(Abs());
    }

    /** Adds an account to the local ones and migrates its transactions. */
    method MarkLocal(a: Address)
      requires Valid()
      modifies this`locals, this`localTxs, this`remoteTxs, priced`urgent, priced`floating, priced`stales
      ensures Valid()
      ensures Abs() == old(Abs()).(localTxs := localTxs, remoteTxs := remoteTxs)
      ensures localTxs + remoteTxs == old(localTxs + remoteTxs)
      ensures old(localTxs) <= localTxs && locals == old(locals) + {a}
    {
      locals := locals + {a};
      var migrated := RemoteToLocals();
      priced.Removed(migrated, remoteTxs);
    }

    // ---------- promotion ----------

    /** Moves a queued transaction to the pending list and advances the account's virtual nonce. */
    method PromoteTx(a: Address, tx: Tx) returns (ok: bool)
      requires LookupOk() && priced.Valid()
      modifies this`pending, this`nonces, this`localTxs, this`remoteTxs, this`slots, priced`urgent, priced`floating, priced`stales
      ensures LookupOk() && priced.Valid()
      ensures tx.nonce !in Of(old(pending), a) ==>
                && ok && pending == SetOf(old(pending), a, Of(old(pending), a)[tx.nonce := tx])
                && nonces == old(nonces)[a := tx.nonce + 1]
                && localTxs == old(localTxs) && remoteTxs == old(remoteTxs)
                && priced.urgent == old(priced.urgent) && priced.floating == old(priced.floating)
      ensures tx.nonce in Of(old(pending), a) ==>
                && ok == Replaces(tx, Of(old(pending), a)[tx.nonce], config.priceBump)
                && pending == (if ok then SetOf(old(pending), a, Of(old(pending), a)[tx.nonce := tx]) else old(pending))
                && nonces == (if ok then old(nonces)[a := tx.nonce + 1] else old(nonces))
                && var gone := if ok then Of(old(pending), a)[tx.nonce] else tx;
                   localTxs == old(localTxs) - {gone} && remoteTxs == old(remoteTxs) - {gone}
    {
      var list := Of(pending, a);
      if !Accepts(list, tx, config.priceBump) {
        LookupRemove(tx);
        priced.Removed(1, remoteTxs);
        return false;
      }
      assert tx.nonce in list[tx.nonce := tx];
      pending := pending[a := list[tx.nonce := tx]];
      if tx.nonce in list {
        LookupRemove(list[tx.nonce]);
        priced.Removed(1, remoteTxs);
      }
      nonces := nonces[a := tx.nonce + 1];
      ok := true;
    }

    /** Promotes the run of nonces `lo..end` of a queue, none of which is pending. */
    method PromoteRun(a: Address, m: Txs, lo: nat, end: nat)
      requires LookupOk() && priced.Valid() && NoEmpty(pending) && lo <= end && OwnTxs(a, m)
      requires forall n | lo <= n < end :: n in m && n !in Of(pending, a)
      modifies this`pending, this`nonces, this`localTxs, this`remoteTxs, this`slots, priced`urgent, priced`floating, priced`stales
      ensures LookupOk() && priced.Valid()
      ensures pending == SetOf(old(pending), a, Of(old(pending), a) + Range(m, lo, end))
      ensures nonces == if lo < end then old(nonces)[a := end] else old(nonces)
      ensures localTxs == old(localTxs) && remoteTxs == old(remoteTxs)
      ensures priced.urgent == old(priced.urgent) && priced.floating == old(priced.floating)
    {
      ghost var p0, pend := pending, Of(pending, a);
      SetSame(p0, a);
      var n := lo;
      while n < end
        invariant lo <= n <= end && LookupOk() && priced.Valid()
        invariant pending == SetOf(p0, a, AddRun(pend, m, lo, n))
        invariant nonces == if lo < n then old(nonces)[a := n] else old(nonces)
        invariant localTxs == old(localTxs) && remoteTxs == old(remoteTxs)
        invariant priced.urgent == old(priced.urgent) && priced.floating == old(priced.floating)
      {
        var next := n + 1;
        PromoteAt(a, m, n, next, p0, pend, lo);
        n := next;
      }
      AddRunIsSum(pend, m, lo, end);
    }

    method PromoteAt(a: Address, m: Txs, n: nat, next: nat, ghost p0: Lists, ghost pend: Txs, ghost lo: nat)
      requires LookupOk() && priced.Valid() && OwnTxs(a, m) && lo <= n && next == n + 1 && n !in pend
      requires forall k | lo <= k <= n :: k in m
      requires pending == SetOf(p0, a, AddRun(pend, m, lo, n))
      modifies this`pending, this`nonces, this`localTxs, this`remoteTxs, this`slots, priced`urgent, priced`floating, priced`stales
      ensures LookupOk() && priced.Valid()
      ensures pending == SetOf(p0, a, AddRun(pend, m, lo, next)) && nonces == old(nonces)[a := next]
      ensures localTxs == old(localTxs) && remoteTxs == old(remoteTxs)
      ensures priced.urgent == old(priced.urgent) && priced.floating == old(priced.floating)
    {
      AddRunStep(p0, a, pend, m, lo, n, next);
      var _ := PromoteTx(a, m[n]);
    }

    /** Drops three groups of transactions from the lookup. */
    method LookupRemoveParts(a: set<Tx>, b: set<Tx>, c: set<Tx>, ghost gone: set<Tx>)
      requires LookupOk() && gone == a + b + c
      modifies this`localTxs, this`remoteTxs, this`slots
      ensures LookupOk() && localTxs == old(localTxs) - gone && remoteTxs == old(remoteTxs) - gone
    {
      LookupRemoveAll(a);
      LookupRemoveAll(b);
      LookupRemoveAll(c);
    }

    /** Promotes the executable run of a queue and settles the account's virtual nonce. */
    method PromoteReady(a: Address, kept: Txs, start: nat, end: nat, ghost que: Txs)
      requires LookupOk() && priced.Valid() && NoEmpty(pending)
      requires AccountOk(a, Of(pending, a), que) && SubmapOf(kept, que)
      requires start == Virtual(nonces, env, a) && end == ReadyEnd(kept, start)
      modifies this`pending, this`nonces, this`localTxs, this`remoteTxs, this`slots, priced`urgent, priced`floating, priced`stales
      ensures LookupOk() && priced.Valid()
      ensures pending == SetOf(old(pending), a, Of(old(pending), a) + Before(kept, end))
      ensures nonces == old(nonces)[a := NextNonce(kept, start)]
      ensures localTxs == old(localTxs) && remoteTxs == old(remoteTxs)
      ensures priced.urgent == old(priced.urgent) && priced.floating == old(priced.floating)
    {
      nonces := nonces[a := start];
      ReadyIsRange(a, Of(pending, a), que, kept, start);
      if kept != map[] && Lowest(kept) <= start {
        PromoteRun(a, kept, Lowest(kept), end);
      } else {
        MovedNone(pending, a);
      }
    }

    /** Drops from the lookup what a promotion neither makes pending nor keeps queued. */
    method DropUnusable(a: Address, que: Txs, kept: Txs, end: nat, rest: Txs, ghost gone: set<Tx>)
      requires LookupOk() && priced.Valid() && OwnTxs(a, que)
      requires SubmapOf(kept, From(que, env.nonce(a))) && SubmapOf(rest, From(kept, end))
      requires gone == TxsOf(que) - TxsOf(Before(kept, end)) - TxsOf(rest)
      modifies this`localTxs, this`remoteTxs, this`slots, priced`urgent, priced`floating, priced`stales
      ensures LookupOk() && priced.Valid() && localTxs == old(localTxs) - gone && remoteTxs == old(remoteTxs) - gone
      ensures KeepsCover(old(priced.urgent), old(priced.floating), priced.urgent, priced.floating, remoteTxs)
    {
      var n := env.nonce(a);
      GoneInParts(a, que, n, kept, end, rest);
      var forwards, drops, caps := Before(que, n), Except(From(que, n), kept), Except(From(kept, end), rest);
      LookupRemoveParts(TxsOf(forwards), TxsOf(drops), TxsOf(caps), gone);
      priced.Removed(|forwards| + |drops| + |caps|, remoteTxs);
    }

    /** The list and lookup part of promoting one account. */
    method PromoteLists(a: Address, que: Txs, kept: Txs, start: nat, end: nat, rest: Txs, ghost gone: set<Tx>)
      requires LookupOk() && priced.Valid() && NoEmpty(pending) && AccountOk(a, Of(pending, a), que)
      requires SubmapOf(kept, From(que, env.nonce(a))) && SubmapOf(rest, From(kept, end))
      requires start == Virtual(nonces, env, a) && end == ReadyEnd(kept, start)
      requires gone == TxsOf(que) - TxsOf(Before(kept, end)) - TxsOf(rest)
      modifies this`pending, this`queue, this`nonces, this`localTxs, this`remoteTxs, this`slots,
               priced`urgent, priced`floating, priced`stales
      ensures LookupOk() && priced.Valid()
      ensures pending == SetOf(old(pending), a, Of(old(pending), a) + Before(kept, end))
      ensures queue == SetOf(old(queue), a, rest)
      ensures nonces == old(nonces)[a := NextNonce(kept, start)]
      ensures localTxs == old(localTxs) - gone && remoteTxs == old(remoteTxs) - gone
      ensures KeepsCover(old(priced.urgent), old(priced.floating), priced.urgent, priced.floating, remoteTxs)
    {
      PromoteReady(a, kept, start, end, que);
      DropUnusable(a, que, kept, end, rest, gone);
      queue := SetOf(queue, a, rest);
    }

    /** Promotes what has become executable in one account's queue and drops what is old, unaffordable
        or beyond the account's queue limit. */
    method PromoteAccount(a: Address)
      requires Valid()
      modifies this`pending, this`queue, this`nonces, this`localTxs, this`remoteTxs, this`slots,
               priced`urgent, priced`floating, priced`stales
      ensures Valid() && (old(Tracked()) ==> Tracked())
      ensures Abs() == AfterPromote(old(Abs()), old(nonces), env, config, locals, a)
      ensures nonces == NoncesAfterPromote(old(Abs()), old(nonces), env, a)
    {
      if a !in queue {
        return;
      }
      ghost var p := Abs();
      PromoteKeepsConsistent(p, nonces, env, config, locals, a);
      if Tracked() {
        PromoteKeepsContiguous(p, nonces, env, config, locals, a);
      }
      assert AccountOk(a, Of(pending, a), Of(queue, a));
      var que, start := queue[a], Virtual(nonces, env, a);
      var kept := Usable(que, env, a);
      PromoteLists(a, que, kept, start, ReadyEnd(kept, start), RestOf(que, start, env, config, locals, a),
                   GoneOf(que, start, env, config, locals, a));
      assert Abs() == AfterPromote(p, old(nonces), env, config, locals, a);
    }

    /** Promotes every given account; each changes on its own, as `PromoteOne` says. */
    method PromoteExecutables(accounts: set<Address>)
      requires Valid()
      modifies this`pending, this`queue, this`nonces, this`localTxs, this`remoteTxs, this`slots,
               priced`urgent, priced`floating, priced`stales
      ensures Valid() && (old(Tracked()) ==> Tracked())
      ensures Promoted(old(Abs()), old(nonces), Abs(), nonces, old(env), config, old(locals), accounts)
    {
      var todo := accounts;
      ghost var p0, nonces0, e, loc := Abs(), nonces, env, locals;
      ghost var done: set<Address> := {};
      while todo != {}
        invariant accounts == done + todo && done !! todo
        invariant Valid() && (old(Tracked()) ==> Tracked())
        invariant Promoted(p0, nonces0, Abs(), nonces, e, config, loc, done)
        decreases todo
      {
        var a :| a in todo;
        PromoteNext(a, p0, nonces0, e, loc, done);
        todo, done := todo - {a}, done + {a};
      }
      assert done == accounts;
    }

    method PromoteNext(a: Address, ghost p0: Pool, ghost nonces0: map<Address, nat>, ghost e: Env,
                       ghost loc: set<Address>, ghost done: set<Address>)
      requires Valid() && e == env && loc == locals && a !in done
      requires Promoted(p0, nonces0, Abs(), nonces, e, config, loc, done)
      modifies this`pending, this`queue, this`nonces, this`localTxs, this`remoteTxs, this`slots,
               priced`urgent, priced`floating, priced`stales
      ensures Valid() && (old(Tracked()) ==> Tracked())
      ensures Promoted(p0, nonces0, Abs(), nonces, e, config, loc, done + {a})
    {
      PromotedStep(p0, nonces0, Abs(), nonces, e, config, loc, done, a);
      PromoteAccount(a);
    }

    // ---------- demotion ----------

    /** The list and lookup part of demoting one account.  The price heaps are left stale. */
    method DemoteLists(a: Address, pend: Txs, usable: Txs, prefix: Txs, kept: Txs, ghost gone: set<Tx>)
      requires LookupOk() && priced.Valid() && NoEmpty(pending) && NoEmpty(queue)
      requires pend == Of(pending, a) && AccountOk(a, pend, Of(queue, a))
      requires SubmapOf(usable, From(pend, env.nonce(a)))
      requires SubmapOf(prefix, usable) && (kept == prefix || kept == map[])
      requires gone == TxsOf(pend) - TxsOf(kept) - TxsOf(Except(usable, kept))
      modifies this`pending, this`queue, this`localTxs, this`remoteTxs, this`slots, priced`urgent, priced`floating, priced`stales
      ensures LookupOk() && priced.Valid() && localTxs == old(localTxs) - gone && remoteTxs == old(remoteTxs) - gone
      ensures pending == SetOf(old(pending), a, kept)
      ensures queue == SetOf(old(queue), a, Of(old(queue), a) + Except(usable, kept))
      ensures priced.urgent == old(priced.urgent) && priced.floating == old(priced.floating)
    {
      var n := env.nonce(a);
      DropsInParts(a, pend, n, usable, kept);
      LookupRemoveParts(TxsOf(Before(pend, n)), TxsOf(Except(From(pend, n), usable)), {}, gone);
      BackOk(a, pend, Of(queue, a), n);
      DemoteBack(a, usable, prefix, kept);
      pending := SetOf(pending, a, kept);
    }

    /** Re-queues what follows the first unaffordable transaction, and then the rest if there is a gap. */
    method DemoteBack(a: Address, usable: Txs, prefix: Txs, kept: Txs)
      requires LookupOk() && priced.Valid() && NoEmpty(queue) && OwnTxs(a, usable) && usable.Keys !! Of(queue, a).Keys
      requires SubmapOf(prefix, usable) && (kept == prefix || kept == map[])
      modifies this`queue, this`localTxs, this`remoteTxs, this`slots, priced`urgent, priced`floating, priced`stales
      ensures LookupOk() && priced.Valid() && localTxs == old(localTxs) && remoteTxs == old(remoteTxs)
      ensures queue == SetOf(old(queue), a, Of(old(queue), a) + Except(usable, kept))
      ensures priced.urgent == old(priced.urgent) && priced.floating == old(priced.floating)
    {
      BackInTwo(queue, a, usable, prefix);
      EnqueueAll(a, Except(usable, prefix));
      if kept != prefix {
        EnqueueAll(a, prefix);
      }
    }

    method DemoteAccount(a: Address)
      requires Valid()
      modifies this`pending, this`queue, this`localTxs, this`remoteTxs, this`slots, priced`urgent, priced`floating, priced`stales
      ensures Valid() && localTxs <= old(localTxs) && remoteTxs <= old(remoteTxs)
      ensures Abs() == AfterDemote(old(Abs()), env, a)
    {
      ghost var p := Abs();
      DemoteKeepsConsistent(p, env, a);
      var pend := Of(pending, a);
      assert AccountOk(a, pend, Of(queue, a));
      var prefix := AffordablePrefix(From(pend, env.nonce(a)), env.balance(a), env.maxGas);
      DemoteLists(a, pend, Usable(pend, env, a), prefix, KeptOf(pend, env, a), UnpayableOf(pend, env, a));
      assert Abs() == AfterDemote(p, env, a);
    }

    /** Demotes every account with pending transactions; each changes on its own, as `DemoteOne` says. */
    method DemoteUnexecutables()
      requires Valid()
      modifies this`pending, this`queue, this`localTxs, this`remoteTxs, this`slots, priced`urgent, priced`floating, priced`stales
      ensures Valid()
      ensures Demoted(old(Abs()), Abs(), old(nonces), old(env), old(pending).Keys)
    {
      DemoteAll(pending.Keys);
    }

    method DemoteAll(accounts: set<Address>)
      requires Valid()
      modifies this`pending, this`queue, this`localTxs, this`remoteTxs, this`slots, priced`urgent, priced`floating, priced`stales
      ensures Valid()
      ensures Demoted(old(Abs()), Abs(), old(nonces), old(env), accounts)
    {
      var todo := accounts;
      ghost var p0, nonces0, e := Abs(), nonces, env;
      ghost var done: set<Address> := {};
      while todo != {}
        invariant accounts == done + todo && done !! todo
        invariant Valid() && Demoted(p0, Abs(), nonces0, e, done)
        decreases todo
      {
        var a :| a in todo;
        DemoteNext(a, p0, nonces0, e, done);
        todo, done := todo - {a}, done + {a};
      }
      assert done == accounts;
    }

    method DemoteNext(a: Address, ghost p0: Pool, ghost nonces0: map<Address, nat>, ghost e: Env,
                      ghost done: set<Address>)
      requires Valid() && e == env && a !in done && Demoted(p0, Abs(), nonces0, e, done)
      modifies this`pending, this`queue, this`localTxs, this`remoteTxs, this`slots, priced`urgent, priced`floating, priced`stales
      ensures Valid() && Demoted(p0, Abs(), nonces0, e, done + {a})
    {
      DemotedStep(p0, Abs(), nonces0, e, done, a);
      DemoteAccount(a);
    }

    // ---------- truncation ----------

    /** Every account is in step with the chain, in the ways asked for. */
    ghost predicate InStep(mode: Mode)
      reads this
    {
      AllInStep(Abs(), nonces, env, mode)
    }

    /** The ways in which every account is in step. */
    ghost function Holding(): Mode
      reads this
    {
      Mode(Tracked(), Lined(), Fronted())
    }

    static method CountAll(lists: Lists) returns (count: nat)
      ensures count == Total(lists)
    {
      count := 0;
      var todo := lists;
      while todo != map[]
        invariant count + Total(todo) == Total(lists)
        decreases todo.Keys
      {
        var a :| a in todo;
        TotalTake(todo, a);
        count := count + |todo[a]|;
        todo := todo - {a};
      }
    }

    /** The list and lookup part of dropping the pending transaction at nonce `h`. */
    method DropAt(a: Address, list: Txs, h: nat)
      requires LookupOk() && priced.Valid() && h in list
      modifies this`pending, this`nonces, this`localTxs, this`remoteTxs, this`slots, priced`urgent, priced`floating, priced`stales
      ensures LookupOk() && priced.Valid() && localTxs == old(localTxs) - {list[h]}
      ensures remoteTxs == old(remoteTxs) - {list[h]}
      ensures pending == SetOf(old(pending), a, list - {h}) && nonces == SetIfLower(old(nonces), env, a, h)
      ensures KeepsCover(old(priced.urgent), old(priced.floating), priced.urgent, priced.floating, remoteTxs)
    {
      LookupRemove(list[h]);
      nonces := SetIfLower(nonces, env, a, h);
      priced.Removed(1, remoteTxs);
      pending := SetOf(pending, a, list - {h});
    }

    /** Drops an account's highest pending transaction. */
    method DropHighest(a: Address, ghost mode: Mode)
      requires InStep(mode) && Valid() && a in pending && |pending[a]| >= 2 && pending[a] != map[]
      modifies this`pending, this`nonces, this`localTxs, this`remoteTxs, this`slots, priced`urgent, priced`floating, priced`stales
      ensures Valid() && InStep(mode)
      ensures pending == old(pending)[a := old(pending)[a] - {Highest(old(pending)[a])}]
    {
      ghost var p := Abs();
      var list, h := pending[a], Highest(pending[a]);
      DropKeepsConsistent(p, a);
      DropLeavesQueue(p, a);
      DropCounts(pending, a);
      DropKeepsStep(p, nonces, env, a, mode);
      DropAt(a, list, h);
      assert Abs() == AfterDrop(p, a);
    }

    method DropNext(offenders: seq<Address>, i: nat, ghost lists: Lists, ghost loc: set<Address>, ghost e: nat,
                    ghost mode: Mode)
      requires InStep(mode) && Valid() && i < |offenders| && e >= 1 && pending == Between(lists, loc, e, offenders, i)
      requires Offending(lists, loc, offenders, e + 1, e)
      modifies this`pending, this`nonces, this`localTxs, this`remoteTxs, this`slots, priced`urgent, priced`floating, priced`stales
      ensures Valid() && InStep(mode)
      ensures pending == Between(lists, loc, e, offenders, i + 1)
    {
      BetweenStep(lists, loc, e, offenders, i, i + 1);
      DropHighest(offenders[i], mode);
    }

    /** One round: every offender loses its highest transaction. */
    method DropRound(offenders: seq<Address>, ghost lists: Lists, ghost loc: set<Address>, ghost e: nat,
                     ghost mode: Mode)
      requires InStep(mode) && Valid() && e >= 1 && pending == Between(lists, loc, e, offenders, 0)
      requires Offending(lists, loc, offenders, e + 1, e)
      modifies this`pending, this`nonces, this`localTxs, this`remoteTxs, this`slots, priced`urgent, priced`floating, priced`stales
      ensures Valid() && InStep(mode)
      ensures pending == Between(lists, loc, e, offenders, |offenders|)
    {
      for i := 0 to |offenders|
        invariant Valid() && InStep(mode)
        invariant pending == Between(lists, loc, e, offenders, i)
      {
        DropNext(offenders, i, lists, loc, e, mode);
      }
    }

    /** Rounds of drops until the pool fits or the offenders are down to `threshold`. */
    method Equalize(offenders: seq<Address>, count: int, threshold: nat, ghost lists: Lists, ghost loc: set<Address>,
                    ghost e0: nat, ghost mode: Mode)
      returns (left: int, ghost e: nat)
      requires InStep(mode) && Valid() && 1 <= threshold <= e0 && offenders != []
      requires pending == Level(lists, loc, e0) && count == Total(pending)
      requires Offending(lists, loc, offenders, e0, threshold)
      requires Tight(lists, loc, e0, config.globalSlots)
      modifies this`pending, this`nonces, this`localTxs, this`remoteTxs, this`slots, priced`urgent, priced`floating, priced`stales
      ensures Valid() && InStep(mode)
      ensures threshold <= e <= e0 && pending == Level(lists, loc, e) && left == Total(pending)
      ensures left <= config.globalSlots || e == threshold
      ensures Tight(lists, loc, e, config.globalSlots)
    {
      left, e := count, e0;
      var last := offenders[|offenders| - 1];
      LastLength(lists, loc, offenders, e0, threshold, e);
      while left > config.globalSlots && |pending[last]| > threshold
        invariant Valid() && InStep(mode)
        invariant threshold <= e <= e0 && pending == Level(lists, loc, e) && left == Total(pending)
        invariant last in pending && |pending[last]| == e
        invariant Tight(lists, loc, e, config.globalSlots)
        decreases e
      {
        ghost var lower: nat := e - 1;
        RoundFacts(lists, loc, offenders, e0, threshold, e, lower, config.globalSlots);
        DropRound(offenders, lists, loc, lower, mode);
        left, e := left - |offenders|, lower;
      }
    }

    /** The sender of the most pending transactions among the given ones. */
    method Longest(spammers: set<Address>) returns (x: Address)
      requires spammers != {} && forall a <- spammers :: a in pending
      ensures x in spammers && forall b <- spammers :: |pending[b]| <= |pending[x]|
    {
      LongestExists(pending, spammers);
      x :| x in spammers && forall b <- spammers :: |pending[b]| <= |pending[x]|;
    }

    /** Cuts the pending lists of large senders until the pool fits: every non-local list is cut to one
        common level, which is the highest that fits unless it is the guaranteed allowance. */
    method TruncatePending(ghost mode: Mode) returns (ghost level: nat)
      requires InStep(mode) && Valid() && config.accountSlots >= 1
      modifies this`pending, this`nonces, this`localTxs, this`remoteTxs, this`slots, priced`urgent, priced`floating, priced`stales
      ensures Valid() && InStep(mode)
      ensures LevelCut(old(pending), pending, old(locals), config, level)
      ensures old(Total(pending)) <= config.globalSlots ==> pending == old(pending)
    {
      ghost var lists, loc := pending, locals;
      var count := CountAll(pending);
      level := NoLevel(lists, loc, config.accountSlots);
      if count <= config.globalSlots {
        return;
      }
      var spammers := set a | a in pending && a !in locals && |pending[a]| > config.accountSlots;
      var offenders;
      count, offenders, level := CutSpammers(count, spammers, lists, loc, level, mode);
      if count > config.globalSlots {
        if offenders != [] {
          count, level := Equalize(offenders, count, config.accountSlots, lists, loc, level, mode);
        } else {
          level := config.accountSlots;
          LevelAbove(lists, loc, level);
        }
      }
    }

    /** Turns spammers into offenders, longest first, levelling the offenders along the way. */
    method CutSpammers(count: int, spammers: set<Address>, ghost lists: Lists, ghost loc: set<Address>,
                       ghost level0: nat, ghost mode: Mode)
      returns (left: int, offenders: seq<Address>, ghost level: nat)
      requires InStep(mode) && Valid() && config.accountSlots >= 1 && config.accountSlots <= level0 &&
               count == Total(pending)
      requires pending == lists == Level(lists, loc, level0)
      requires Ranked(lists, loc, [], spammers, level0, config.accountSlots, true)
      modifies this`pending, this`nonces, this`localTxs, this`remoteTxs, this`slots, priced`urgent, priced`floating, priced`stales
      ensures Valid() && InStep(mode)
      ensures config.accountSlots <= level && pending == Level(lists, loc, level) && left == Total(pending)
      ensures Tight(lists, loc, level, config.globalSlots)
      ensures left > config.globalSlots ==> Offending(lists, loc, offenders, level, config.accountSlots)
      ensures offenders == [] ==> pending == lists
    {
      left, offenders, level := count, [], level0;
      var rest := spammers;
      while left > config.globalSlots && rest != {}
        invariant Valid() && InStep(mode)
        invariant config.accountSlots <= level && pending == Level(lists, loc, level) && left == Total(pending)
        invariant Tight(lists, loc, level, config.globalSlots)
        invariant Ranked(lists, loc, offenders, rest, level, config.accountSlots, left > config.globalSlots)
        invariant offenders == [] ==> pending == lists
        decreases rest
      {
        SpammersWhole(lists, loc, offenders, rest, level, config.accountSlots);
        var offender := Longest(rest);
        left, level := CutTo(offenders, offender, left, lists, loc, rest, level, mode);
        offenders, rest := offenders + [offender], rest - {offender};
      }
    }

    /** Cuts the earlier offenders down to the length of the next one. */
    method CutTo(offenders: seq<Address>, next: Address, count: int, ghost lists: Lists, ghost loc: set<Address>,
                 ghost spammers: set<Address>, ghost level: nat, ghost mode: Mode) returns (left: int, ghost e: nat)
      requires InStep(mode) && Valid() && config.accountSlots >= 1 && count > config.globalSlots &&
               count == Total(pending)
      requires pending == Level(lists, loc, level) && Tight(lists, loc, level, config.globalSlots)
      requires Ranked(lists, loc, offenders, spammers, level, config.accountSlots, true)
      requires (offenders == [] ==> pending == lists)
      requires next in spammers && next in pending && pending[next] == lists[next]
      requires forall b <- spammers :: |lists[b]| <= |lists[next]|
      modifies this`pending, this`nonces, this`localTxs, this`remoteTxs, this`slots, priced`urgent, priced`floating, priced`stales
      ensures Valid() && InStep(mode)
      ensures config.accountSlots <= e && pending == Level(lists, loc, e) && left == Total(pending)
      ensures Tight(lists, loc, e, config.globalSlots)
      ensures Ranked(lists, loc, offenders + [next], spammers - {next}, e, config.accountSlots,
                     left > config.globalSlots)
    {
      var threshold := |pending[next]|;
      NextOffender(lists, loc, offenders, spammers, level, config.accountSlots, next, threshold);
      if offenders != [] {
        left, e := Equalize(offenders, count, threshold, lists, loc, level, mode);
      } else {
        left, e := count, threshold;
      }
      NowOffender(lists, loc, offenders, spammers, level, config.accountSlots, next, e, left > config.globalSlots);
    }

    /** Removes one transaction of what is left of an account's queue. */
    method RemoveQueued(a: Address, n: nat, left: Txs, ghost lists: Lists, ghost mode: Mode)
      requires InStep(mode) && Valid() && queue == SetOf(lists, a, left) && n in left
      modifies this`pending, this`queue, this`localTxs, this`remoteTxs, this`slots, this`nonces,
               priced`urgent, priced`floating, priced`stales
      ensures Valid() && InStep(mode) && pending == old(pending)
      ensures queue == SetOf(lists, a, left - {n})
    {
      SetTwice(lists, a, left, left - {n});
      RemoveQueuedFacts(Abs(), nonces, env, a, n, mode);
      RemoveTx(left[n], true);
    }

    /** Removes all of an account's queued transactions, lowest nonce first. */
    method RemoveAllQueued(a: Address, ghost mode: Mode)
      requires InStep(mode) && Valid()
      modifies this`pending, this`queue, this`localTxs, this`remoteTxs, this`slots, this`nonces,
               priced`urgent, priced`floating, priced`stales
      ensures Valid() && InStep(mode) && pending == old(pending)
      ensures queue == SetOf(old(queue), a, map[])
    {
      SetSame(queue, a);
      var left := Of(queue, a);
      while left != map[]
        invariant Valid() && InStep(mode) && pending == old(pending)
        invariant queue == SetOf(old(queue), a, left)
        decreases |left|
      {
        var n := Lowest(left);
        MapMinus(left, n);
        RemoveQueued(a, n, left, old(queue), mode);
        left := left - {n};
      }
    }

    /** Cuts an account's queue to its `size` lowest nonces, highest first. */
    method RemoveLastQueued(a: Address, list: Txs, size: nat, ghost mode: Mode)
      requires InStep(mode) && Valid() && list == Of(queue, a) && size <= |list|
      modifies this`pending, this`queue, this`localTxs, this`remoteTxs, this`slots, this`nonces,
               priced`urgent, priced`floating, priced`stales
      ensures Valid() && InStep(mode) && pending == old(pending)
      ensures queue == SetOf(old(queue), a, CapTo(list, size))
    {
      ghost var lists := queue;
      var left := list;
      CutStarts(lists, a);
      while |left| > size
        invariant Valid() && InStep(mode) && pending == old(pending)
        invariant Cut(list, left) && size <= |left| && queue == SetOf(lists, a, left)
      {
        CutStep(list, left);
        var n := Highest(left);
        RemoveQueued(a, n, left, lists, mode);
        left := left - {n};
      }
      assert left == CapTo(list, size);
    }

    /** Drops queued transactions of non-local accounts until the queue fits, latest heartbeat first. */
    method TruncateQueue(beats: Address -> int, ghost mode: Mode)
      requires InStep(mode) && Valid()
      modifies this`pending, this`queue, this`localTxs, this`remoteTxs, this`slots, this`nonces,
               priced`urgent, priced`floating, priced`stales
      ensures Valid() && InStep(mode) && pending == old(pending)
      ensures QueueCut(old(queue), queue, old(locals), config, beats)
      ensures old(Total(queue)) <= config.globalQueue ==> queue == old(queue)
      ensures old(Total(queue)) > config.globalQueue ==> Total(queue) >= config.globalQueue
    {
      var queued := CountAll(queue);
      var rest := set a | a in queue && a !in locals;
      ghost var lists, loc := queue, locals;
      TrimStarts(lists, loc, beats, rest);
      if queued <= config.globalQueue {
        return;
      }
      var drop := queued - config.globalQueue;
      while drop > 0 && rest != {}
        invariant Valid() && InStep(mode) && pending == old(pending)
        invariant drop >= 0 && Total(queue) == config.globalQueue + drop
        invariant Trimming(lists, queue, loc, beats, rest, drop > 0)
        decreases rest
      {
        var a := Latest(rest, beats);
        drop := DropQueued(a, drop, lists, loc, beats, rest, mode);
        rest := rest - {a};
      }
    }

    method Latest(rest: set<Address>, beats: Address -> int) returns (x: Address)
      requires rest != {}
      ensures x in rest && forall b <- rest :: beats(b) <= beats(x)
    {
      LatestExists(rest, beats);
      x :| x in rest && forall b <- rest :: beats(b) <= beats(x);
    }

    /** Drops all of an account's queue if that is not too much, else only its highest nonces. */
    method DropQueued(a: Address, drop: nat, ghost lists: Lists, ghost loc: set<Address>, beats: Address -> int,
                      ghost rest: set<Address>, ghost mode: Mode)
      returns (more: nat)
      requires InStep(mode) && Valid() && drop > 0 && Total(queue) == config.globalQueue + drop && a in rest
      requires Trimming(lists, queue, loc, beats, rest, true) && forall b <- rest :: beats(b) <= beats(a)
      modifies this`pending, this`queue, this`localTxs, this`remoteTxs, this`slots, this`nonces,
               priced`urgent, priced`floating, priced`stales
      ensures Valid() && InStep(mode) && pending == old(pending)
      ensures Total(queue) == config.globalQueue + more
      ensures Trimming(lists, queue, loc, beats, rest - {a}, more > 0)
    {
      var list := queue[a];
      if |list| <= drop {
        more := drop - |list|;
        CapNothing(list);
        TrimFacts(lists, queue, loc, beats, rest, a, 0, map[], more > 0);
        RemoveAllQueued(a, mode);
      } else {
        more := 0;
        var size := |list| - drop;
        TrimFacts(lists, queue, loc, beats, rest, a, size, CapTo(list, size), false);
        RemoveLastQueued(a, list, size, mode);
      }
    }

    // ---------- maintenance ----------

    /** Sets every account with pending transactions past its highest one. */
    method SettleNonces()
      requires NoEmpty(pending)
      modifies this`nonces
      ensures SettledNonces(old(nonces), nonces, old(env), old(pending), old(pending).Keys)
    {
      var todo := pending.Keys;
      ghost var done: set<Address> := {};
      while todo != {}
        invariant done !! todo && done + todo == pending.Keys
        invariant SettledNonces(old(nonces), nonces, old(env), old(pending), done)
        decreases todo
      {
        var a :| a in todo;
        assert pending[a] != map[];
        nonces := nonces[a := Highest(pending[a]) + 1];
        todo, done := todo - {a}, done + {a};
      }
    }

    /** Takes back one transaction of an abandoned block. */
    method Reinject(i: Incoming)
      requires Valid()
      modifies this`pending, this`queue, this`localTxs, this`remoteTxs, this`slots, this`nonces,
               priced`urgent, priced`floating, priced`stales
      ensures Valid() && KeepsInStep(old(Abs()), old(nonces), Abs(), nonces, old(env))
      ensures localTxs + remoteTxs <= old(localTxs + remoteTxs) + {i.tx}
      ensures old(Needed(i.tx)) <= 0 ==> nonces == old(nonces) && slots <= old(slots) + NumSlots(i.tx)
      ensures old(MustEvict(i, env)) ==> !(old(remoteTxs) <= localTxs + remoteTxs)
    {
      ghost var p, loc := Abs(), i.tx.from in locals;
      var _, _, err, room, drop := Enter(i.tx, i.tx.from in locals, i.sender, i.intrinsic);
      AdditionKeepsInStep(old(Now()), old(priced.Held()), priced.baseFee, env, config, i.tx, loc,
                          err.Some? && err != Some(ReplaceUnderpriced), Stage(room, nonces), drop, err.None?, Abs());
      if err.None? {
        FiledAdds(room, Abs(), i.tx, loc);
        if room == p {
          FilingSlots(p, i.tx, loc, i.tx.nonce in Of(p.pending, i.tx.from));
        }
      }
    }

    /** Moves to another chain state and reinjects transactions of abandoned blocks; if the state cannot be
        loaded nothing happens.  The virtual nonces are the chain's afterwards if there is room for everything. */
    method Reset(newEnv: Option<Env>, reinject: seq<Incoming>)
      requires Valid()
      modifies this`pending, this`queue, this`localTxs, this`remoteTxs, this`slots, this`nonces, this`env,
               priced`urgent, priced`floating, priced`stales
      ensures Valid() && env == (if newEnv.Some? then newEnv.value else old(env))
      ensures newEnv.None? ==> Abs() == old(Abs()) && nonces == old(nonces)
      ensures localTxs + remoteTxs <= old(localTxs + remoteTxs) + Offered(reinject)
      ensures newEnv.Some? ==> AllAnchored(old(pending), Abs(), nonces, env)
      ensures old(AllGapFree(Abs())) ==> AllGapFree(Abs())
      ensures newEnv.Some? && reinject == [] ==> Abs() == old(Abs()) && nonces == map[]
      ensures newEnv.Some? && old(slots) + IncomingSlots(reinject) <= config.globalSlots + config.globalQueue ==>
              AtChain(nonces, env)
      ensures newEnv.Some? && |reinject| == 1 && old(MustEvict(reinject[0], newEnv.value)) ==>
                !(old(remoteTxs) <= localTxs + remoteTxs)
    {
      if newEnv.None? {
        return;
      }
      ghost var s, evicts := Stage(Abs(), map[]), |reinject| == 1 && MustEvict(reinject[0], newEnv.value);
      env, nonces := newEnv.value, map[];
      ReinjectAll(reinject, evicts);
      ReinjectedAll(s, Now(), env, config, reinject);
    }

    /** Takes back the transactions of abandoned blocks, one after the other. */
    method ReinjectAll(reinject: seq<Incoming>, ghost evicts: bool)
      requires Valid() && (evicts ==> |reinject| == 1 && MustEvict(reinject[0], env))
      modifies this`pending, this`queue, this`localTxs, this`remoteTxs, this`slots, this`nonces,
               priced`urgent, priced`floating, priced`stales
      ensures Valid() && Reinjected(old(Now()), Now(), env, config, reinject, |reinject|)
      ensures evicts ==> !(old(remoteTxs) <= localTxs + remoteTxs)
    {
      ghost var s0 := Now();
      ReinjectedNone(s0, env, config, reinject);
      for i := 0 to |reinject|
        invariant Valid() && Reinjected(s0, Now(), env, config, reinject, i)
        invariant evicts ==> if i == 0 then MustEvict(reinject[0], env) && remoteTxs == old(remoteTxs)
                             else !(old(remoteTxs) <= localTxs + remoteTxs)
      {
        ghost var s := Now();
        Reinject(reinject[i]);
        ReinjectedNext(s0, s, Now(), env, config, reinject, i);
      }
    }

    /** Promotion and demotion of everything after a change of chain state. */
    method Refresh()
      requires Valid()
      modifies this`pending, this`queue, this`nonces, this`localTxs, this`remoteTxs, this`slots,
               priced`urgent, priced`floating, priced`stales
      ensures Valid()
      ensures Refreshed(old(Abs()), old(nonces), Abs(), nonces, old(env), config, old(locals))
    {
      ghost var p0, nonces0, e, loc := Abs(), nonces, env, locals;
      PromoteExecutables(queue.Keys);
      ghost var p1, nonces1 := Abs(), nonces;
      DemoteUnexecutables();
      RefreshSteps(p0, nonces0, p1, nonces1, Abs(), e, config, loc);
    }

    /** Brings the pool back within its limits and settles the virtual nonces. */
    method Trim(beats: Address -> int, ghost mode: Mode) returns (ghost level: nat)
      requires Valid() && InStep(mode) && config.accountSlots >= 1
      modifies this`pending, this`queue, this`nonces, this`localTxs, this`remoteTxs, this`slots,
               priced`urgent, priced`floating, priced`stales
      ensures Valid() && (mode.lined ==> Tracked()) && (mode.fronted ==> Fronted())
      ensures LevelCut(old(pending), pending, locals, config, level) &&
              QueueCut(old(queue), queue, locals, config, beats)
    {
      level := TruncatePending(mode);
      TruncateQueue(beats, mode);
      Settle(mode);
    }

    method Settle(ghost mode: Mode)
      requires Valid() && InStep(mode)
      modifies this`nonces
      ensures Valid() && (mode.lined ==> Tracked()) && (mode.fronted ==> Fronted())
    {
      ghost var p, nonces0, e := Abs(), nonces, env;
      SettleNonces();
      if mode.lined {
        SettledTracks(p, nonces0, nonces, e);
      }
      if mode.fronted {
        SettledFronts(p, nonces0, nonces, e);
      }
    }

    /** The first half of a maintenance run; `injected` and `start` are the pool and its virtual nonces once
        transactions have been reinjected. */
    method Examine(reset: Option<ResetRequest>, dirty: set<Address>) returns (ghost injected: Stage)
      requires Valid()
      modifies this`pending, this`queue, this`localTxs, this`remoteTxs, this`slots, this`nonces, this`env, priced
      ensures Valid() && env == EnvAfter(reset, old(env)) && Consistent(injected.pool)
      ensures reset.None? ==> (old(Tracked()) ==> Lined()) && Promoted(old(Abs()), old(nonces), Abs(), nonces, env,
                                                                             config, locals, dirty)
      ensures reset.Some? ==> Refreshed(injected.pool, injected.nonces, Abs(), nonces, env, config, locals)
      ensures Stays(reset) ==> injected == old(Now())
      ensures PlainReset(reset) ==> injected == Stage(old(Abs()), map[])
      ensures Reloads(reset) &&
              old(slots) + IncomingSlots(reset.value.reinject) <= config.globalSlots + config.globalQueue ==>
                AtChain(injected.nonces, env)
      ensures Reloads(reset) ==> AllAnchored(old(pending), injected.pool, injected.nonces, env)
      ensures Reloads(reset) && old(AllGapFree(Abs())) ==> AllGapFree(injected.pool)
    {
      if reset.Some? {
        Reset(reset.value.env, reset.value.reinject);
        injected := Now();
        Refresh();
        priced.SetBaseFee(Some(reset.value.baseFee), remoteTxs);
      } else {
        injected := Now();
        PromoteExecutables(dirty);
        if Tracked() {
          TrackedIsLined(Abs(), nonces, env);
        }
      }
    }

    /** The first half of a maintenance run, and when it leaves every account in line with the chain. */
    method LineUp(reset: Option<ResetRequest>, dirty: set<Address>) returns (ghost injected: Stage)
      requires Valid()
      modifies this`pending, this`queue, this`localTxs, this`remoteTxs, this`slots, this`nonces, this`env, priced
      ensures Valid() && env == EnvAfter(reset, old(env))
      ensures reset.None? ==> Promoted(old(Abs()), old(nonces), Abs(), nonces, env, config, locals, dirty)
      ensures reset.Some? ==> Refreshed(injected.pool, injected.nonces, Abs(), nonces, env, config, locals)
      ensures Stays(reset) ==> injected == old(Now())
      ensures PlainReset(reset) ==> injected == Stage(old(Abs()), map[])
      ensures LinesUp(reset, old(Now()), old(env), config, injected, Now())
    {
      ghost var p0, nonces0, stale, e := Abs(), nonces, pending, EnvAfter(reset, env);
      ghost var tracked, fronted := Tracked(), Fronted();
      if tracked {
        TrackedIsReady(p0, nonces0, env, e);
      }
      injected := Examine(reset, dirty);
      if Reloads(reset) {
        LoadedLinesUp(stale, injected.pool, injected.nonces, Abs(), nonces, e, config, locals);
      } else if reset.Some? {
        InPlaceLinesUp(injected.pool, injected.nonces, Abs(), nonces, e, config, locals);
      } else if fronted {
        PromotedFronts(p0, nonces0, Abs(), nonces, e, config, locals, dirty);
      }
    }

    /** One maintenance run: after a change of chain state everything is re-examined, otherwise only the
        accounts that sent something; then the pool is cut to its limits.  `injected` is the pool after
        reinjection, `mid` before the cut. */
    method RunReorg(reset: Option<ResetRequest>, dirty: set<Address>, beats: Address -> int)
      returns (ghost injected: Stage, ghost mid: Stage, ghost level: nat)
      requires Valid() && config.accountSlots >= 1
      modifies this`pending, this`queue, this`localTxs, this`remoteTxs, this`slots, this`nonces, this`env, priced
      ensures Valid() && env == EnvAfter(reset, old(env))
      ensures reset.None? ==> Promoted(old(Abs()), old(nonces), mid.pool, mid.nonces, env, config, locals, dirty)
      ensures reset.Some? ==> Refreshed(injected.pool, injected.nonces, mid.pool, mid.nonces, env, config, locals)
      ensures Stays(reset) ==> injected == old(Now())
      ensures PlainReset(reset) ==> injected == Stage(old(Abs()), map[])
      ensures LinesUp(reset, old(Now()), old(env), config, injected, mid)
      ensures AllLined(mid.pool, mid.nonces, env) ==> Tracked()
      ensures AllFronted(mid.pool, mid.nonces, env) ==> Fronted()
      ensures LevelCut(mid.pool.pending, pending, locals, config, level)
      ensures QueueCut(mid.pool.queue, queue, locals, config, beats)
    {
      injected := LineUp(reset, dirty);
      mid := Now();
      level := Trim(beats, Holding());
    }

    /** Raises or lowers the price floor; raising it drops the remote transactions below it. */
    method SetGasPrice(price: nat)
      requires Valid()
      modifies this`gasPrice, this`pending, this`queue, this`localTxs, this`remoteTxs, this`slots, this`nonces,
               priced`urgent, priced`floating, priced`stales
      ensures Valid() && (old(Tracked()) ==> Tracked()) && (old(Fronted()) ==> Fronted()) && gasPrice == price
      ensures price > old(gasPrice) ==>
                remoteTxs == (set tx | tx in old(remoteTxs) && price <= tx.tipCap) && localTxs == old(localTxs)
      ensures price <= old(gasPrice) ==> Abs() == old(Abs()) && priced.Held() == old(priced.Held())
      ensures var gone, held := |set tx | tx in old(remoteTxs) && tx.tipCap < price|, old(priced.Held());
              price > old(gasPrice) && held.stales + gone <= (|held.urgent| + |held.floating|) / 4 ==>
                priced.Held() == held.(stales := held.stales + gone)
    {
      var raised := price > gasPrice;
      gasPrice := price;
      if raised {
        var drop := set tx | tx in remoteTxs && tx.tipCap < price;
        RemoveAll(drop);
        priced.Removed(|drop|, remoteTxs);
      }
    }

    method RemoveAll(drop: set<Tx>)
      requires Valid()
      modifies this`pending, this`queue, this`localTxs, this`remoteTxs, this`slots, this`nonces,
               priced`urgent, priced`floating, priced`stales
      ensures Valid() && (old(Tracked()) ==> Tracked()) && (old(Fronted()) ==> Fronted())
      ensures remoteTxs == old(remoteTxs) - drop && localTxs == old(localTxs) - drop &&
              priced.Held() == old(priced.Held())
    {
      var todo := drop;
      while todo != {}
        invariant Valid() && (old(Tracked()) ==> Tracked()) && (old(Fronted()) ==> Fronted()) && todo <= drop
        invariant remoteTxs == old(remoteTxs) - (drop - todo) && localTxs == old(localTxs) - (drop - todo)
        invariant priced.Held() == old(priced.Held())
        decreases todo
      {
        var tx :| tx in todo;
        RemoveOne(tx, false);
        todo := todo - {tx};
      }
    }

    method RemoveOne(tx: Tx, outofbound: bool)
      requires Valid()
      modifies this`pending, this`queue, this`localTxs, this`remoteTxs, this`slots, this`nonces,
               priced`urgent, priced`floating, priced`stales
      ensures Valid() && (old(Tracked()) ==> Tracked()) && (old(Fronted()) ==> Fronted())
      ensures remoteTxs == old(remoteTxs) - {tx} && localTxs == old(localTxs) - {tx}
      ensures !outofbound ==> priced.Held() == old(priced.Held())
    {
      RemoveKeepsInStep(Abs(), nonces, env, tx);
      RemoveTx(tx, outofbound);
    }

    // ---------- runs ----------

    method Apply(op: Op)
      requires Valid() && config.accountSlots >= 1
      modifies this, priced
      ensures Valid() && (old(Fronted()) ==> Fronted())
      ensures old(Tracked()) && !MayUnline(op) && (old(Fronted()) || !DemotesInPlace(op)) ==> Tracked()
    {
      match op
      case OpAdd(i, local) =>
        var _, _, _, _ := Add(i.tx, local, i.sender, i.intrinsic);
      case OpRemove(tx, outofbound) =>
        RemoveOne(tx, outofbound);
      case OpPromote(accounts) =>
        Promote(accounts);
      case OpDemote =>
        Demote();
      case OpTruncatePending =>
        ghost var _ := TruncatePending(Holding());
      case OpTruncateQueue(beats) =>
        TruncateQueue(beats, Holding());
      case OpSetGasPrice(price) =>
        SetGasPrice(price);
      case OpMaintain(reset, dirty, beats) =>
        ghost var _, _, _ := RunReorg(reset, dirty, beats);
    }

    method Promote(accounts: set<Address>)
      requires Valid()
      modifies this`pending, this`queue, this`nonces, this`localTxs, this`remoteTxs, this`slots,
               priced`urgent, priced`floating, priced`stales
      ensures Valid() && (old(Tracked()) ==> Tracked()) && (old(Fronted()) ==> Fronted())
    {
      ghost var p, nonces0, fronted := Abs(), nonces, Fronted();
      PromoteExecutables(accounts);
      if fronted {
        PromotedFronts(p, nonces0, Abs(), nonces, env, config, locals, accounts);
      }
    }

    method Demote()
      requires Valid()
      modifies this`pending, this`queue, this`localTxs, this`remoteTxs, this`slots, priced`urgent, priced`floating, priced`stales
      ensures Valid() && (old(Fronted()) ==> Fronted() && (old(Tracked()) ==> Tracked()))
    {
      ghost var p, accounts, fronted := Abs(), pending.Keys, Fronted();
      DemoteUnexecutables();
      if fronted {
        DemotedIdle(p, Abs(), nonces, env, accounts);
      }
    }

    /** Any run of operations keeps all views of the pool in step and every pending list at the chain's nonce,
        affordable throughout.  As long as no reset has something to reinject it also keeps every list
        contiguous from the chain's nonce to the virtual one, however the chain moves. */
    method Operate(ops: seq<Op>)
      requires Valid() && config.accountSlots >= 1
      modifies this, priced
      ensures Valid() && (old(Fronted()) ==> Fronted())
      ensures old(Tracked()) && (forall op <- ops :: !MayUnline(op) && (old(Fronted()) || !DemotesInPlace(op))) ==>
              Tracked()
    {
      for i := 0 to |ops|
        invariant Valid() && (old(Fronted()) ==> Fronted())
        invariant old(Tracked()) && (forall op <- ops[..i] :: !MayUnline(op) && (old(Fronted()) || !DemotesInPlace(op))) ==>
                    Tracked()
      {
        assert ops[..i + 1] == ops[..i] + [ops[i]];
        Apply(ops[i]);
      }
      assert ops[..|ops|] == ops;
    }
  }
}
