/** What the pool's operations do to one account's lists and virtual nonce, on values, and the laws of
    these steps: they keep every view of the pool in step and the pending nonces contiguous.
 */
module PoolSteps {
  import opened Options
  import opened Transactions
  import opened TxSortedMapModel
  import opened TxListModel
  import opened TxPricedListModel
  import opened PoolState

  /** What the pool knows of the chain head. */
  datatype Env = Env(nonce: Address -> nat, balance: Address -> int, maxGas: nat)

  /** The virtual nonce of an account: the pool's own if it has one, else the chain's. */
  function Virtual(nonces: map<Address, nat>, env: Env, a: Address): nat {
    if a in nonces then nonces[a] else env.nonce(a)
  }

  function SetIfLower(nonces: map<Address, nat>, env: Env, a: Address, n: nat): map<Address, nat> {
    if Virtual(nonces, env, a) <= n then nonces[a := Virtual(nonces, env, a)] else nonces[a := n]
  }

  /** Reading never changes a virtual nonce, setting affects one account, and lowering takes the minimum. */
  lemma NoncerLaws(nonces: map<Address, nat>, env: Env, a: Address, n: nat, b: Address)
    ensures Virtual(nonces[a := Virtual(nonces, env, a)], env, b) == Virtual(nonces, env, b)
    ensures Virtual(nonces[a := n], env, b) == if b == a then n else Virtual(nonces, env, b)
    ensures var low := if n < Virtual(nonces, env, a) then n else Virtual(nonces, env, a);
            Virtual(SetIfLower(nonces, env, a, n), env, b) == if b == a then low else Virtual(nonces, env, b)
  {
  }

  /** The limits of the pool, as they are after sanitising: the pending allowance is at least one. */
  datatype Config = Config(priceBump: nat, accountSlots: nat, globalSlots: nat, accountQueue: nat, globalQueue: nat)

  /** The virtual nonce after promoting the executable run. */
  ghost function NextNonce(kept: Txs, start: nat): nat {
    if kept != map[] && Lowest(kept) <= start then ReadyEnd(kept, start) else start
  }

  /** A non-local account's queue is cut to its limit. */
  function Leftover(m: Txs, config: Config, locals: set<Address>, a: Address): (k: Txs)
    ensures SubmapOf(k, m)
  {
    if a in locals then m else CapTo(m, config.accountQueue)
  }

  lemma ReadyIsRange(a: Address, pend: Txs, que: Txs, kept: Txs, start: nat)
    requires AccountOk(a, pend, que) && SubmapOf(kept, que)
    ensures OwnTxs(a, kept)
    ensures var end := ReadyEnd(kept, start);
            if kept != map[] && Lowest(kept) <= start
            then Lowest(kept) <= end && Range(kept, Lowest(kept), end) == Before(kept, end) &&
                 forall n | Lowest(kept) <= n < end :: n in kept && n !in pend
            else Before(kept, end) == map[]
  {
  }

  lemma InTxsOf(a: Address, m: Txs, x: Tx)
    requires OwnTxs(a, m)
    ensures x in TxsOf(m) <==> Has(m, x)
  {
  }

  /** What leaves the pool in a promotion: the old, the unaffordable and the excess transactions. */
  lemma GoneInParts(a: Address, que: Txs, n: nat, kept: Txs, end: nat, rest: Txs)
    requires OwnTxs(a, que) && SubmapOf(kept, From(que, n)) && SubmapOf(rest, From(kept, end))
    ensures TxsOf(que) - TxsOf(Before(kept, end)) - TxsOf(rest)
         == TxsOf(Before(que, n)) + TxsOf(Except(From(que, n), kept)) + TxsOf(Except(From(kept, end), rest))
  {
    var old1, dear, more := Before(que, n), Except(From(que, n), kept), Except(From(kept, end), rest);
    forall x ensures x in TxsOf(que) - TxsOf(Before(kept, end)) - TxsOf(rest) <==> x in TxsOf(old1) + TxsOf(dear) + TxsOf(more) {
      InTxsOf(a, que, x);
      InTxsOf(a, Before(kept, end), x);
      InTxsOf(a, rest, x);
      InTxsOf(a, old1, x);
      InTxsOf(a, dear, x);
      InTxsOf(a, more, x);
    }
  }

  function Except(m: Txs, k: Txs): Txs {
    map n | n in m && n !in k :: m[n]
  }

  function Range(m: Txs, lo: nat, hi: nat): Txs {
    map n | n in m && lo <= n < hi :: m[n]
  }

  /** `pend` with the transactions of `m` at the nonces `lo..n` put in one after the other. */
  ghost function AddRun(pend: Txs, m: Txs, lo: nat, n: nat): Txs
    requires forall k | lo <= k < n :: k in m
  {
    if n <= lo then pend else AddRun(pend, m, lo, n - 1)[n - 1 := m[n - 1]]
  }

  lemma {:induction false} AddRunKeys(pend: Txs, m: Txs, lo: nat, n: nat, k: nat)
    requires forall j | lo <= j < n :: j in m
    ensures k in AddRun(pend, m, lo, n) <==> k in pend || lo <= k < n
    decreases n
  {
    if lo < n {
      AddRunKeys(pend, m, lo, n - 1, k);
    }
  }

  lemma {:induction false} AddRunIsSum(pend: Txs, m: Txs, lo: nat, n: nat)
    requires forall k | lo <= k < n :: k in m
    ensures AddRun(pend, m, lo, n) == pend + Range(m, lo, n)
    decreases n
  {
    if lo < n {
      AddRunIsSum(pend, m, lo, n - 1);
      assert Range(m, lo, n) == Range(m, lo, n - 1)[n - 1 := m[n - 1]];
    }
  }

  lemma AddRunStep(p0: Lists, a: Address, pend: Txs, m: Txs, lo: nat, n: nat, next: nat)
    requires lo <= n && next == n + 1 && (forall k | lo <= k <= n :: k in m) && n !in pend
    ensures var run := AddRun(pend, m, lo, n);
            && n !in run && Of(SetOf(p0, a, run), a) == run
            && SetOf(SetOf(p0, a, run), a, run[n := m[n]]) == SetOf(p0, a, AddRun(pend, m, lo, next))
  {
    var run := AddRun(pend, m, lo, n);
    AddRunKeys(pend, m, lo, n, n);
    SetTwice(p0, a, run, run[n := m[n]]);
  }

  /** `back` in two parts. */
  ghost predicate Parts(back: Txs, done: Txs, left: Txs) {
    done.Keys !! left.Keys && done + left == back
  }

  lemma PartsStart(back: Txs)
    ensures Parts(back, map[], back)
  {
  }

  lemma PartsStep(a: Address, back: Txs, done: Txs, left: Txs, n: nat, m: Txs)
    requires Parts(back, done, left) && n in left && OwnTxs(a, back) && m.Keys !! back.Keys
    ensures Parts(back, done[n := left[n]], left - {n})
    ensures left[n].nonce == n && left[n].from == a && n !in m && n !in done
  {
    assert left[n] == back[n];
    assert done[n := left[n]] + (left - {n}) == back;
  }

  lemma PartsEnd(back: Txs, done: Txs)
    requires Parts(back, done, map[])
    ensures done == back
  {
    assert done + map[] == done;
  }

  lemma SetTwice(lists: Lists, a: Address, x: Txs, y: Txs)
    ensures Of(SetOf(lists, a, x), a) == x && SetOf(SetOf(lists, a, x), a, y) == SetOf(lists, a, y)
  {
  }

  /** What promotion keeps of a queue before executable transactions leave it. */
  function Usable(que: Txs, env: Env, a: Address): Txs {
    Affordable(From(que, env.nonce(a)), env.balance(a), env.maxGas)
  }

  /** What promotion makes pending of a queue. */
  function ReadyOf(que: Txs, start: nat, env: Env, a: Address): Txs {
    var kept := Usable(que, env, a);
    Before(kept, ReadyEnd(kept, start))
  }

  /** What promotion leaves in a queue. */
  function RestOf(que: Txs, start: nat, env: Env, config: Config, locals: set<Address>, a: Address): Txs {
    var kept := Usable(que, env, a);
    Leftover(From(kept, ReadyEnd(kept, start)), config, locals, a)
  }

  ghost function GoneOf(que: Txs, start: nat, env: Env, config: Config, locals: set<Address>, a: Address): set<Tx> {
    TxsOf(que) - TxsOf(ReadyOf(que, start, env, a)) - TxsOf(RestOf(que, start, env, config, locals, a))
  }

  ghost function AfterPromote(p: Pool, nonces: map<Address, nat>, env: Env, config: Config, locals: set<Address>,
                              a: Address): Pool {
    if a !in p.queue then p
    else
      var que, start := p.queue[a], Virtual(nonces, env, a);
      Shrunk(p, a, Of(p.pending, a) + ReadyOf(que, start, env, a), RestOf(que, start, env, config, locals, a),
             GoneOf(que, start, env, config, locals, a))
  }

  ghost function NoncesAfterPromote(p: Pool, nonces: map<Address, nat>, env: Env, a: Address): map<Address, nat> {
    if a !in p.queue then nonces
    else
      nonces[a := NextNonce(Usable(p.queue[a], env, a), Virtual(nonces, env, a))]
  }

  lemma PromoteKeepsConsistent(p: Pool, nonces: map<Address, nat>, env: Env, config: Config, locals: set<Address>,
                               a: Address)
    requires Consistent(p)
    ensures Consistent(AfterPromote(p, nonces, env, config, locals, a))
  {
    if a in p.queue {
      var que, start := p.queue[a], Virtual(nonces, env, a);
      var ready, rest := ReadyOf(que, start, env, a), RestOf(que, start, env, config, locals, a);
      PromoteKeeps(p, a, ready, rest);
      ShrinkingKeepsConsistent(p, a, Of(p.pending, a) + ready, rest, GoneOf(que, start, env, config, locals, a));
    }
  }

  /** Promotion starts exactly at the virtual nonce and leaves no gap. */
  lemma PromoteKeepsContiguous(p: Pool, nonces: map<Address, nat>, env: Env, config: Config, locals: set<Address>,
                               a: Address)
    requires Consistent(p) && Contiguous(p, nonces, env)
    ensures Contiguous(AfterPromote(p, nonces, env, config, locals, a), NoncesAfterPromote(p, nonces, env, a), env)
  {
    if a in p.queue {
      var kept := Usable(p.queue[a], env, a);
      var start := Virtual(nonces, env, a);
      var end := ReadyEnd(kept, start);
      var pend, ready := Of(p.pending, a), ReadyOf(p.queue[a], start, env, a);
      var rest := RestOf(p.queue[a], start, env, config, locals, a);
      assert OnTrack(env.nonce(a), start, pend, Of(p.queue, a));
      QueueIsAhead(p, nonces, env, a);
      var nonces' := NoncesAfterPromote(p, nonces, env, a);
      assert OnTrack(env.nonce(a), nonces'[a], pend + ready, rest);
      SetTrack(p, nonces, env, AfterPromote(p, nonces, env, config, locals, a), nonces', a, pend + ready, rest);
    }
  }

  /** The list in which a new transaction is filed: the pending one if its nonce is pending. */
  ghost function Target(p: Pool, tx: Tx): Txs {
    if tx.nonce in Of(p.pending, tx.from) then Of(p.pending, tx.from) else Of(p.queue, tx.from)
  }

  /** The slots `tx` lacks; not positive if there is room. */
  ghost function Lacking(p: Pool, tx: Tx, config: Config): int {
    p.slots - (config.globalSlots + config.globalQueue) + NumSlots(tx)
  }

  /** What making room for a newcomer does: only remote transactions go, none if the newcomer is refused or
      there is room, some otherwise if there are any.  If no remote transaction had two entries in the price
      heaps, the newcomer fits afterwards, or it is local and no remote transaction is left.  If all remote
      transactions together take fewer slots than are lacking, it does not fit. */
  ghost predicate RoomMade(p: Pool, room: Pool, tx: Tx, local: bool, refused: bool, single: bool, config: Config) {
    var limit := config.globalSlots + config.globalQueue;
    var idle := refused || p.slots + NumSlots(tx) <= limit || p.remoteTxs == {};
    && room.localTxs == p.localTxs && room.remoteTxs <= p.remoteTxs
    && (room == p <==> idle) && (room.remoteTxs == p.remoteTxs <==> idle)
    && (!refused && single ==> room.slots + NumSlots(tx) <= limit || (local && room.remoteTxs == {}))
    && (!refused && p.slots + NumSlots(tx) > limit + SlotSum(p.remoteTxs) ==> room.slots + NumSlots(tx) > limit)
  }

  /** A list of remote transactions whose removal makes room for `tx`, as far as there are any. */
  ghost predicate FreesRoom(p: Pool, tx: Tx, local: bool, single: bool, config: Config, drop: seq<Tx>) {
    && (forall x <- drop :: x in p.remoteTxs) && (drop == [] <==> p.remoteTxs == {})
    && SlotSum(p.localTxs + (p.remoteTxs - Members(drop))) == p.slots - SlotSum(Members(drop))
    && (single ==> SlotSum(Members(drop)) == Slots(drop))
    && (|| Slots(drop) >= p.slots - (config.globalSlots + config.globalQueue) + NumSlots(tx)
        || (local && forall x <- p.remoteTxs :: x in drop))
  }

  lemma DropsMakeRoom(p: Pool, room: Pool, tx: Tx, local: bool, single: bool, config: Config, drop: seq<Tx>)
    requires FreesRoom(p, tx, local, single, config, drop)
    requires p.slots + NumSlots(tx) > config.globalSlots + config.globalQueue
    requires room.localTxs == p.localTxs && room.remoteTxs == p.remoteTxs - Members(drop)
    requires room.slots == SlotSum(room.localTxs + room.remoteTxs) && (drop == [] ==> room == p)
    ensures RoomMade(p, room, tx, local, false, single, config)
  {
    if drop != [] {
      assert drop[0] in Members(drop) && drop[0] !in room.remoteTxs;
    }
    if local && forall x <- p.remoteTxs :: x in drop {
      assert room.remoteTxs == {};
    }
    assert Members(drop) <= p.remoteTxs;
    SlotSumMinus(p.remoteTxs, Members(drop));
  }

  ghost function FiledAsTarget(p: Pool, tx: Tx, local: bool): Pool {
    FiledIn(p, tx, local, tx.nonce in Of(p.pending, tx.from))
  }

  /** `p'` is `p` with `tx` in its list in place of whatever was at its nonce; accounts may have been marked
      local on the way, which moves transactions between the two halves of the lookup. */
  ghost predicate FilesInto(p: Pool, p': Pool, tx: Tx, local: bool) {
    var filed := FiledAsTarget(p, tx, local);
    && p'.pending == filed.pending && p'.queue == filed.queue && p'.slots == filed.slots
    && p'.localTxs + p'.remoteTxs == filed.localTxs + filed.remoteTxs && filed.localTxs <= p'.localTxs
  }

  lemma FiledAndMarked(p: Pool, filed: Pool, p': Pool, tx: Tx, local: bool)
    requires filed == FiledAsTarget(p, tx, local)
    requires p' == filed.(localTxs := p'.localTxs, remoteTxs := p'.remoteTxs)
    requires p'.localTxs + p'.remoteTxs == filed.localTxs + filed.remoteTxs && filed.localTxs <= p'.localTxs
    ensures FilesInto(p, p', tx, local)
  {
  }

  /** Filing adds at most the transaction itself. */
  lemma FiledAdds(p: Pool, p': Pool, tx: Tx, local: bool)
    requires p' == FiledAsTarget(p, tx, local)
    ensures p'.localTxs + p'.remoteTxs <= p.localTxs + p.remoteTxs + {tx}
  {
  }

  lemma MigrationKeepsConsistent(p: Pool, localTxs: set<Tx>, remoteTxs: set<Tx>)
    requires Consistent(p) && localTxs !! remoteTxs && localTxs + remoteTxs == p.localTxs + p.remoteTxs
    ensures Consistent(p.(localTxs := localTxs, remoteTxs := remoteTxs))
  {
    var p' := p.(localTxs := localTxs, remoteTxs := remoteTxs);
    forall tx ensures Filed(p', tx) <==> tx in localTxs || tx in remoteTxs {
      assert Filed(p, tx) <==> tx in p.localTxs + p.remoteTxs;
      assert tx in localTxs + remoteTxs <==> tx in p.localTxs + p.remoteTxs;
    }
    forall a ensures AccountOk(a, Of(p'.pending, a), Of(p'.queue, a)) {
      assert AccountOk(a, Of(p.pending, a), Of(p.queue, a));
    }
  }

  lemma BackOk(a: Address, pend: Txs, que: Txs, n: nat)
    requires AccountOk(a, pend, que)
    ensures OwnTxs(a, From(pend, n)) && que.Keys !! From(pend, n).Keys
  {
  }

  lemma FiledSomewhere(p: Pool, tx: Tx)
    requires Consistent(p) && (tx in p.localTxs || tx in p.remoteTxs)
    ensures AccountOk(tx.from, Of(p.pending, tx.from), Of(p.queue, tx.from)) && Filed(p, tx)
  {
  }

  // ---------- contiguity ----------

  /** The pending nonces are exactly those from the chain's nonce up to the virtual one, and nothing
      older than the chain is queued. */
  ghost predicate OnTrack(state: nat, next: nat, pend: Txs, que: Txs) {
    && state <= next
    && (forall n: nat :: n in pend <==> state <= n < next)
    && (forall n <- que :: state <= n)
  }

  ghost predicate Contiguous(p: Pool, nonces: map<Address, nat>, env: Env) {
    forall a :: OnTrack(env.nonce(a), Virtual(nonces, env, a), Of(p.pending, a), Of(p.queue, a))
  }

  /** With no nonce in both lists, queued nonces lie at or above the virtual nonce. */
  lemma QueueIsAhead(p: Pool, nonces: map<Address, nat>, env: Env, a: Address)
    requires Consistent(p) && Contiguous(p, nonces, env)
    ensures forall n <- Of(p.queue, a) :: Virtual(nonces, env, a) <= n
  {
    assert AccountOk(a, Of(p.pending, a), Of(p.queue, a));
    assert OnTrack(env.nonce(a), Virtual(nonces, env, a), Of(p.pending, a), Of(p.queue, a));
    forall n | n in Of(p.queue, a) ensures Virtual(nonces, env, a) <= n {
      assert n !in Of(p.pending, a);
    }
  }

  /** Contiguity after one account's lists and virtual nonce change. */
  lemma SetTrack(p: Pool, nonces: map<Address, nat>, env: Env, p': Pool, nonces': map<Address, nat>, a: Address,
                 pend: Txs, que: Txs)
    requires Contiguous(p, nonces, env)
    requires p'.pending == SetOf(p.pending, a, pend) && p'.queue == SetOf(p.queue, a, que)
    requires OnTrack(env.nonce(a), Virtual(nonces', env, a), pend, que)
    requires forall b | b != a :: Virtual(nonces', env, b) == Virtual(nonces, env, b)
    ensures Contiguous(p', nonces', env)
  {
    forall b ensures OnTrack(env.nonce(b), Virtual(nonces', env, b), Of(p'.pending, b), Of(p'.queue, b)) {
      OfSet(p.pending, a, pend, b);
      OfSet(p.queue, a, que, b);
      assert OnTrack(env.nonce(b), Virtual(nonces, env, b), Of(p.pending, b), Of(p.queue, b));
    }
  }

  lemma RemoveKeepsContiguous(p: Pool, nonces: map<Address, nat>, env: Env, tx: Tx)
    requires Consistent(p) && Contiguous(p, nonces, env)
    ensures Contiguous(AfterRemove(p, tx), NoncesAfterRemove(p, nonces, env, tx), env)
  {
    if tx in p.localTxs || tx in p.remoteTxs {
      var a := tx.from;
      var pend, que, n := Of(p.pending, a), Of(p.queue, a), tx.nonce;
      assert OnTrack(env.nonce(a), Virtual(nonces, env, a), pend, que);
      var nonces' := NoncesAfterRemove(p, nonces, env, tx);
      SetTrack(p, nonces, env, AfterRemove(p, tx), nonces', a, PendingAfter(pend, n), QueueAfter(pend, que, n));
    }
  }

  /** Filing a transaction that is not older than the chain. */
  lemma FilingKeepsContiguous(p: Pool, nonces: map<Address, nat>, env: Env, tx: Tx, local: bool, inPending: bool)
    requires Consistent(p) && Contiguous(p, nonces, env)
    requires if inPending then tx.nonce in Of(p.pending, tx.from) else env.nonce(tx.from) <= tx.nonce
    ensures Contiguous(FiledIn(p, tx, local, inPending), nonces, env)
  {
    var a := tx.from;
    var pend, que := Of(p.pending, a), Of(p.queue, a);
    assert OnTrack(env.nonce(a), Virtual(nonces, env, a), pend, que);
    SetSame(p.pending, a);
    SetSame(p.queue, a);
    SetTrack(p, nonces, env, FiledIn(p, tx, local, inPending), nonces, a,
             if inPending then pend[tx.nonce := tx] else pend, if inPending then que else que[tx.nonce := tx]);
  }

  lemma MovedNone(q0: Lists, a: Address)
    requires NoEmpty(q0)
    ensures q0 == SetOf(q0, a, Of(q0, a) + map[])
  {
    assert Of(q0, a) + map[] == Of(q0, a);
  }

  lemma MovedOne(q0: Lists, a: Address, m: Txs, done: Txs, tx: Tx)
    requires tx.nonce !in m && tx.nonce !in done && tx.from == a && NoEmpty(q0)
    ensures var q := SetOf(q0, a, m + done);
            && Of(q, a) == m + done && tx.nonce !in m + done
            && SetOf(q, a, (m + done)[tx.nonce := tx]) == SetOf(q0, a, m + done[tx.nonce := tx])
  {
    assert (m + done)[tx.nonce := tx] == m + done[tx.nonce := tx];
    assert tx.nonce in (m + done)[tx.nonce := tx];
  }

  ghost function PendingAfter(pend: Txs, n: nat): Txs {
    if n in pend then Before(pend, n) else pend
  }

  ghost function QueueAfter(pend: Txs, que: Txs, n: nat): Txs {
    if n in pend then que + From(pend, n + 1) else que - {n}
  }

  /** The pool after a removal, on values. */
  ghost function AfterRemove(p: Pool, tx: Tx): Pool {
    if tx !in p.localTxs && tx !in p.remoteTxs then p
    else
      var a, pend, que := tx.from, Of(p.pending, tx.from), Of(p.queue, tx.from);
      Shrunk(p, a, PendingAfter(pend, tx.nonce), QueueAfter(pend, que, tx.nonce), {tx})
  }

  ghost function NoncesAfterRemove(p: Pool, nonces: map<Address, nat>, env: Env, tx: Tx): map<Address, nat> {
    if (tx in p.localTxs || tx in p.remoteTxs) && tx.nonce in Of(p.pending, tx.from)
    then SetIfLower(nonces, env, tx.from, tx.nonce) else nonces
  }

  lemma RemoveKeepsConsistent(p: Pool, tx: Tx)
    requires Consistent(p)
    ensures Consistent(AfterRemove(p, tx))
  {
    var a := tx.from;
    if tx in p.localTxs || tx in p.remoteTxs {
      assert Filed(p, tx);
      assert AccountOk(a, Of(p.pending, a), Of(p.queue, a));
      if tx.nonce in Of(p.pending, a) {
        RemovePendingKeeps(p, tx);
        ShrinkingKeepsConsistent(p, a, Before(Of(p.pending, a), tx.nonce),
                                 Of(p.queue, a) + From(Of(p.pending, a), tx.nonce + 1), {tx});
      } else {
        RemoveQueuedKeeps(p, tx);
        ShrinkingKeepsConsistent(p, a, Of(p.pending, a), Of(p.queue, a) - {tx.nonce}, {tx});
      }
    }
  }

  // ---------- accounts as they look from outside ----------

  /** An account's two lists and its virtual nonce. */
  datatype View = View(pend: Txs, que: Txs, next: nat)

  ghost function ViewOf(p: Pool, nonces: map<Address, nat>, env: Env, a: Address): View {
    View(Of(p.pending, a), Of(p.queue, a), Virtual(nonces, env, a))
  }

  ghost function PromoteOne(v: View, env: Env, config: Config, locals: set<Address>, a: Address): View {
    View(v.pend + ReadyOf(v.que, v.next, env, a), RestOf(v.que, v.next, env, config, locals, a),
         NextNonce(Usable(v.que, env, a), v.next))
  }

  /** What demotion keeps pending: nothing old, nothing from the first unaffordable transaction on, and
      nothing at all if the chain's own nonce is missing. */
  function KeptOf(pend: Txs, env: Env, a: Address): Txs {
    var prefix := AffordablePrefix(From(pend, env.nonce(a)), env.balance(a), env.maxGas);
    if prefix != map[] && env.nonce(a) !in prefix then map[] else prefix
  }

  /** What demotion sends back to the queue. */
  function BackOf(pend: Txs, env: Env, a: Address): Txs {
    Except(Usable(pend, env, a), KeptOf(pend, env, a))
  }

  ghost function DemoteOne(v: View, env: Env, a: Address): View {
    View(KeptOf(v.pend, env, a), v.que + BackOf(v.pend, env, a), v.next)
  }

  /** Promotion changes one account as seen from outside and no other. */
  lemma PromoteView(p: Pool, nonces: map<Address, nat>, env: Env, config: Config, locals: set<Address>, a: Address,
                    b: Address)
    ensures var p', nonces' := AfterPromote(p, nonces, env, config, locals, a), NoncesAfterPromote(p, nonces, env, a);
            ViewOf(p', nonces', env, b) ==
            if b == a then PromoteOne(ViewOf(p, nonces, env, a), env, config, locals, a) else ViewOf(p, nonces, env, b)
  {
    if a !in p.queue {
      NothingQueued(Of(p.pending, a), Virtual(nonces, env, a), env, config, locals, a);
    }
  }

  lemma NothingQueued(pend: Txs, next: nat, env: Env, config: Config, locals: set<Address>, a: Address)
    ensures PromoteOne(View(pend, map[], next), env, config, locals, a) == View(pend, map[], next)
  {
    var kept := Usable(map[], env, a);
    assert kept == map[];
    assert From(kept, ReadyEnd(kept, next)) == map[] && ReadyOf(map[], next, env, a) == map[];
    assert pend + map[] == pend;
  }

  // ---------- contiguity across a reset ----------

  /** Contiguity up to the virtual nonce, which is only settled when a list is empty. */
  ghost predicate LinedUp(state: nat, v: View) {
    && GapFree(v.pend)
    && (forall n <- v.pend :: state <= n)
    && (if v.pend == map[] then v.next == state else state in v.pend)
    && (forall n <- v.que :: state <= n)
  }

  /** A queued run starting at the chain's nonce stops short of the pending list, whose first
      transaction is affordable. */
  ghost predicate GapLeft(v: View, env: Env, a: Address) {
    var ready := ReadyOf(v.que, v.next, env, a);
    && v.pend != map[] && ready != map[] && Highest(ready) + 1 < Lowest(v.pend)
    && !Exceeds(v.pend[Lowest(v.pend)], env.balance(a), env.maxGas)
  }

  /** The run that promotion finds when the virtual nonce is the chain's. */
  lemma RunFromState(que: Txs, env: Env, a: Address) returns (r: nat)
    ensures var s, kept, ready := env.nonce(a), Usable(que, env, a), ReadyOf(que, env.nonce(a), env, a);
            && (s in kept <==> ready != map[]) && NextNonce(kept, s) == r
            && s <= r && r !in kept && IsRun(ready, s, r)
            && (forall n <- ready :: n in que && ready[n] == que[n] && !Exceeds(que[n], env.balance(a), env.maxGas))
  {
    var s, kept, ready := env.nonce(a), Usable(que, env, a), ReadyOf(que, env.nonce(a), env, a);
    r := NextNonce(kept, s);
    if s in kept {
      assert Lowest(kept) == s;
      assert s in ready;
    }
  }

  /** A gap-free list that misses a run lies wholly before or wholly after it. */
  lemma BesideRun(pend: Txs, s: nat, r: nat)
    requires GapFree(pend) && s < r && forall n | s <= n < r :: n !in pend
    ensures (forall n <- pend :: n < s) || (forall n <- pend :: r <= n)
  {
    assert forall j <- pend, k <- pend :: j <= s <= k ==> s in pend;
  }

  ghost predicate IsRun(ready: Txs, s: nat, r: nat) {
    forall n: nat :: n in ready <==> s <= n < r
  }

  /** An affordable run at the front of a list survives demotion. */
  lemma RunSurvives(live: Txs, s: nat, r: nat, bal: int, gas: nat)
    requires forall n <- live :: s <= n
    requires forall n | s <= n < r :: n in live && !Exceeds(live[n], bal, gas)
    ensures forall n | s <= n < r :: n in AffordablePrefix(live, bal, gas)
  {
  }

  /** What follows the run after a gap survives if and only if its first transaction is affordable. */
  lemma GapSurvives(live: Txs, s: nat, r: nat, lo: nat, bal: int, gas: nat)
    requires s < r < lo && lo in live && (forall n <- live :: s <= n < r || lo <= n)
    requires forall n | s <= n < r :: n in live && !Exceeds(live[n], bal, gas)
    ensures GapFree(AffordablePrefix(live, bal, gas)) <==> Exceeds(live[lo], bal, gas)
  {
    var prefix := AffordablePrefix(live, bal, gas);
    RunSurvives(live, s, r, bal, gas);
    if Exceeds(live[lo], bal, gas) {
      assert forall n <- prefix :: n < lo;
    } else {
      assert s in prefix && lo in prefix && r !in prefix && s <= r <= lo;
    }
  }

  /** Demotion of a pending list in front of which a run was put. */
  lemma KeptBehindRun(pend: Txs, live: Txs, s: nat, r: nat, bal: int, gas: nat)
    requires GapFree(pend) && s < r && (forall n | s <= n < r :: n !in pend)
    requires forall n: nat :: n in live <==> s <= n < r || (n in pend && s <= n)
    requires forall n <- pend :: n in live ==> live[n] == pend[n]
    requires forall n | s <= n < r :: !Exceeds(live[n], bal, gas)
    ensures var kept := AffordablePrefix(live, bal, gas);
            && s in kept
            && (GapFree(kept) <==> !(pend != map[] && r < Lowest(pend) && !Exceeds(pend[Lowest(pend)], bal, gas)))
  {
    BesideRun(pend, s, r);
    RunSurvives(live, s, r, bal, gas);
    if pend != map[] && r < Lowest(pend) {
      GapSurvives(live, s, r, Lowest(pend), bal, gas);
    } else {
      Joined(pend, live, s, r);
      StrictKeepsGapFree(live, bal, gas, 0, 0);
    }
  }

  lemma Joined(pend: Txs, live: Txs, s: nat, r: nat)
    requires GapFree(pend) && s < r && (forall n | s <= n < r :: n !in pend)
    requires forall n: nat :: n in live <==> s <= n < r || (n in pend && s <= n)
    requires pend == map[] || Lowest(pend) <= r
    ensures GapFree(live)
  {
    BesideRun(pend, s, r);
    forall a, b, n: nat | a in live && b in live && a <= n <= b ensures n in live {
      if r <= n {
        assert b in pend && Lowest(pend) <= n <= b;
      }
    }
  }

  /** An account between a change of chain state and the next maintenance: its pending list is free of gaps,
      and its virtual nonce is the chain's unless evictions left nothing pending from there on. */
  ghost predicate Rewound(state: nat, v: View) {
    && GapFree(v.pend) && v.next <= state
    && (v.next < state ==> forall n <- v.pend :: n < v.next)
  }

  ghost predicate AllRewound(p: Pool, nonces: map<Address, nat>, env: Env) {
    forall a :: Rewound(env.nonce(a), ViewOf(p, nonces, env, a))
  }

  /** The virtual nonces are the chain's. */
  ghost predicate AtChain(nonces: map<Address, nat>, env: Env) {
    forall a :: Virtual(nonces, env, a) == env.nonce(a)
  }

  /** How an account relates to the pending list `pend0` it had when the chain state changed.  What lies below
      the chain's nonce comes from there, and only evictions take it away; the virtual nonce is the chain's
      until then and falls with them. */
  ghost predicate Anchored(pend0: Txs, state: nat, v: View) {
    && v.next <= state
    && (v.next < state ==> v.next in pend0 && forall n <- v.pend :: n < v.next)
    && (forall n <- pend0 | n < state :: n in v.pend || v.next <= n)
    && (forall n <- v.pend | n < state :: n in pend0)
  }

  ghost predicate AllAnchored(pending: Lists, p: Pool, nonces: map<Address, nat>, env: Env) {
    forall a :: Anchored(Of(pending, a), env.nonce(a), ViewOf(p, nonces, env, a))
  }

  ghost predicate AllGapFree(p: Pool) {
    forall a :: GapFree(Of(p.pending, a))
  }

  /** Every pending transaction that the chain has moved past is still pending. */
  ghost predicate StaleStay(pending: Lists, p: Pool, env: Env) {
    forall a :: StaleStayOf(Of(pending, a), Of(p.pending, a), env.nonce(a))
  }

  ghost predicate StaleStayOf(pend0: Txs, pend: Txs, state: nat) {
    forall n <- pend0 | n < state :: n in pend
  }

  /** The virtual nonces are the chain's exactly if no pending transaction below them was evicted. */
  lemma AtChainIff(pending: Lists, p: Pool, nonces: map<Address, nat>, env: Env)
    requires AllAnchored(pending, p, nonces, env)
    ensures AtChain(nonces, env) <==> StaleStay(pending, p, env)
  {
    forall a ensures Virtual(nonces, env, a) == env.nonce(a) <==> StaleStayOf(Of(pending, a), Of(p.pending, a), env.nonce(a)) {
      assert Anchored(Of(pending, a), env.nonce(a), ViewOf(p, nonces, env, a));
    }
  }

  lemma AnchoredIsRewound(pending: Lists, p: Pool, nonces: map<Address, nat>, env: Env)
    requires AllAnchored(pending, p, nonces, env) && AllGapFree(p)
    ensures AllRewound(p, nonces, env)
  {
    forall a ensures Rewound(env.nonce(a), ViewOf(p, nonces, env, a)) {
      assert Anchored(Of(pending, a), env.nonce(a), ViewOf(p, nonces, env, a));
      assert GapFree(Of(p.pending, a));
    }
  }

  /** An account as every run of the pool leaves it: a non-empty pending list starts at the chain's nonce, an
      empty one has its virtual nonce at or below it, and nothing pending is old or unaffordable. */
  ghost predicate Fronted(v: View, env: Env, a: Address) {
    && (if v.pend == map[] then v.next <= env.nonce(a) else env.nonce(a) in v.pend)
    && (forall n <- v.pend :: env.nonce(a) <= n && !Exceeds(v.pend[n], env.balance(a), env.maxGas))
    && (forall n <- v.que :: env.nonce(a) <= n)
  }

  ghost predicate AllFronted(p: Pool, nonces: map<Address, nat>, env: Env) {
    forall a :: Fronted(ViewOf(p, nonces, env, a), env, a)
  }

  /** A removal changes the lists of one account and at most lowers its virtual nonce. */
  lemma RemoveView(p: Pool, nonces: map<Address, nat>, env: Env, tx: Tx, b: Address)
    ensures ViewOf(AfterRemove(p, tx), NoncesAfterRemove(p, nonces, env, tx), env, b) ==
            var v := ViewOf(p, nonces, env, b);
            if b != tx.from || (tx !in p.localTxs && tx !in p.remoteTxs) then v else RemoveFrom(v, tx.nonce)
  {
    NoncerLaws(nonces, env, tx.from, tx.nonce, b);
  }

  ghost function RemoveFrom(v: View, n: nat): View {
    View(PendingAfter(v.pend, n), QueueAfter(v.pend, v.que, n), if n in v.pend && n < v.next then n else v.next)
  }

  lemma RemoveFromKeeps(v: View, n: nat, env: Env, a: Address, pend0: Txs)
    ensures Fronted(v, env, a) ==> Fronted(RemoveFrom(v, n), env, a)
    ensures GapFree(v.pend) ==> GapFree(RemoveFrom(v, n).pend)
    ensures Anchored(pend0, env.nonce(a), v) ==> Anchored(pend0, env.nonce(a), RemoveFrom(v, n))
  {
    if n in v.pend && Fronted(v, env, a) && n != env.nonce(a) {
      assert env.nonce(a) in Before(v.pend, n);
    }
  }

  /** Filing changes one account's list at one nonce. */
  lemma FileView(p: Pool, nonces: map<Address, nat>, env: Env, tx: Tx, local: bool, b: Address)
    ensures ViewOf(FiledAsTarget(p, tx, local), nonces, env, b) ==
            var v := ViewOf(p, nonces, env, b); if b != tx.from then v else FileInto(v, tx)
  {
  }

  ghost function FileInto(v: View, tx: Tx): View {
    if tx.nonce in v.pend then v.(pend := v.pend[tx.nonce := tx]) else v.(que := v.que[tx.nonce := tx])
  }

  lemma FileIntoKeeps(v: View, tx: Tx, env: Env, a: Address, pend0: Txs)
    ensures Fronted(v, env, a) && env.nonce(a) <= tx.nonce && !Exceeds(tx, env.balance(a), env.maxGas) ==>
              Fronted(FileInto(v, tx), env, a)
    ensures GapFree(v.pend) ==> GapFree(FileInto(v, tx).pend)
    ensures Anchored(pend0, env.nonce(a), v) ==> Anchored(pend0, env.nonce(a), FileInto(v, tx))
  {
    assert tx.nonce in v.pend[tx.nonce := tx];
  }

  /** A change that keeps what accounts have: contiguity, the front, freedom from gaps, and how they relate to
      any earlier pending lists. */
  ghost predicate KeepsInStep(p: Pool, nonces: map<Address, nat>, p': Pool, nonces': map<Address, nat>, env: Env) {
    && (Contiguous(p, nonces, env) ==> Contiguous(p', nonces', env))
    && (AllFronted(p, nonces, env) ==> AllFronted(p', nonces', env))
    && (AllGapFree(p) ==> AllGapFree(p'))
    && (forall lists: Lists :: AllAnchored(lists, p, nonces, env) ==> AllAnchored(lists, p', nonces', env))
  }

  lemma NoChangeKeepsInStep(p: Pool, nonces: map<Address, nat>, env: Env)
    ensures KeepsInStep(p, nonces, p, nonces, env)
  {
  }

  lemma InStepTwice(p: Pool, nonces: map<Address, nat>, p': Pool, nonces': map<Address, nat>, p'': Pool,
                    nonces'': map<Address, nat>, env: Env)
    requires KeepsInStep(p, nonces, p', nonces', env) && KeepsInStep(p', nonces', p'', nonces'', env)
    ensures KeepsInStep(p, nonces, p'', nonces'', env)
  {
  }

  /** The queues and the halves of the lookup do not matter to the order of nonces. */
  lemma SameListsKeepInStep(p: Pool, nonces: map<Address, nat>, p': Pool, env: Env)
    requires p'.pending == p.pending && p'.queue == p.queue
    ensures KeepsInStep(p, nonces, p', nonces, env)
  {
    assert forall a :: ViewOf(p', nonces, env, a) == ViewOf(p, nonces, env, a);
  }

  lemma RemoveKeepsInStep(p: Pool, nonces: map<Address, nat>, env: Env, tx: Tx)
    requires Consistent(p)
    ensures KeepsInStep(p, nonces, AfterRemove(p, tx), NoncesAfterRemove(p, nonces, env, tx), env)
  {
    var p', nonces' := AfterRemove(p, tx), NoncesAfterRemove(p, nonces, env, tx);
    if Contiguous(p, nonces, env) {
      RemoveKeepsContiguous(p, nonces, env, tx);
    }
    forall b, lists: Lists
      ensures Fronted(ViewOf(p, nonces, env, b), env, b) ==> Fronted(ViewOf(p', nonces', env, b), env, b)
      ensures GapFree(Of(p.pending, b)) ==> GapFree(Of(p'.pending, b))
      ensures Anchored(Of(lists, b), env.nonce(b), ViewOf(p, nonces, env, b)) ==>
                Anchored(Of(lists, b), env.nonce(b), ViewOf(p', nonces', env, b))
    {
      RemoveView(p, nonces, env, tx, b);
      RemoveFromKeeps(ViewOf(p, nonces, env, b), tx.nonce, env, b, Of(lists, b));
    }
  }

  /** The pool and its virtual nonces after several removals. */
  datatype Stage = Stage(pool: Pool, nonces: map<Address, nat>)

  ghost function RemoveEach(s: Stage, env: Env, drop: seq<Tx>): Stage {
    if drop == [] then s
    else
      var q, tx := RemoveEach(s, env, drop[..|drop| - 1]), drop[|drop| - 1];
      Stage(AfterRemove(q.pool, tx), NoncesAfterRemove(q.pool, q.nonces, env, tx))
  }

  lemma RemoveNext(s: Stage, env: Env, drop: seq<Tx>, i: nat, next: nat)
    requires i < |drop| && next == i + 1
    ensures var q, tx := RemoveEach(s, env, drop[..i]), drop[i];
            RemoveEach(s, env, drop[..next]) == Stage(AfterRemove(q.pool, tx), NoncesAfterRemove(q.pool, q.nonces, env, tx))
  {
    assert drop[..next][..i] == drop[..i];
  }

  lemma {:induction false} RemoveEachKeeps(s: Stage, env: Env, drop: seq<Tx>)
    requires Consistent(s.pool) && forall x <- drop :: x in s.pool.remoteTxs
    ensures var q := RemoveEach(s, env, drop);
            && Consistent(q.pool) && KeepsInStep(s.pool, s.nonces, q.pool, q.nonces, env)
            && q.pool.localTxs == s.pool.localTxs && q.pool.remoteTxs == s.pool.remoteTxs - Members(drop)
    decreases |drop|
  {
    if drop == [] {
      NoChangeKeepsInStep(s.pool, s.nonces, env);
      assert s.pool.remoteTxs - Members([]) == s.pool.remoteTxs;
    } else {
      var rest, tx := drop[..|drop| - 1], drop[|drop| - 1];
      assert drop == rest + [tx];
      RemoveEachKeeps(s, env, rest);
      RemoveOneMore(s, RemoveEach(s, env, rest), env, rest, tx);
    }
  }

  lemma RemoveOneMore(s: Stage, q: Stage, env: Env, rest: seq<Tx>, tx: Tx)
    requires Consistent(q.pool) && KeepsInStep(s.pool, s.nonces, q.pool, q.nonces, env)
    requires q.pool.localTxs == s.pool.localTxs && q.pool.remoteTxs == s.pool.remoteTxs - Members(rest)
    requires tx in s.pool.remoteTxs && s.pool.localTxs !! s.pool.remoteTxs
    ensures var p', nonces' := AfterRemove(q.pool, tx), NoncesAfterRemove(q.pool, q.nonces, env, tx);
            && Consistent(p') && KeepsInStep(s.pool, s.nonces, p', nonces', env)
            && p'.localTxs == s.pool.localTxs && p'.remoteTxs == s.pool.remoteTxs - Members(rest + [tx])
  {
    var p', nonces' := AfterRemove(q.pool, tx), NoncesAfterRemove(q.pool, q.nonces, env, tx);
    RemoveKeepsConsistent(q.pool, tx);
    RemoveKeepsInStep(q.pool, q.nonces, env, tx);
    InStepTwice(s.pool, s.nonces, q.pool, q.nonces, p', nonces', env);
    assert p'.localTxs == q.pool.localTxs - {tx} == s.pool.localTxs;
    assert Members(rest + [tx]) == Members(rest) + {tx};
  }

  lemma FilingKeepsInStep(p: Pool, nonces: map<Address, nat>, env: Env, tx: Tx, local: bool)
    requires Consistent(p) && env.nonce(tx.from) <= tx.nonce && !Exceeds(tx, env.balance(tx.from), env.maxGas)
    ensures KeepsInStep(p, nonces, FiledAsTarget(p, tx, local), nonces, env)
  {
    var p' := FiledAsTarget(p, tx, local);
    if Contiguous(p, nonces, env) {
      FilingKeepsContiguous(p, nonces, env, tx, local, tx.nonce in Of(p.pending, tx.from));
    }
    forall b, lists: Lists
      ensures Fronted(ViewOf(p, nonces, env, b), env, b) ==> Fronted(ViewOf(p', nonces, env, b), env, b)
      ensures GapFree(Of(p.pending, b)) ==> GapFree(Of(p'.pending, b))
      ensures Anchored(Of(lists, b), env.nonce(b), ViewOf(p, nonces, env, b)) ==>
                Anchored(Of(lists, b), env.nonce(b), ViewOf(p', nonces, env, b))
    {
      FileView(p, nonces, env, tx, local, b);
      FileIntoKeeps(ViewOf(p, nonces, env, b), tx, env, b, Of(lists, b));
    }
  }

  /** How a newcomer finds room: what is picked from the price heaps is removed, one after the other. */
  ghost predicate RoomFor(s: Stage, held: Heaps, baseFee: Option<int>, env: Env, config: Config, tx: Tx, local: bool,
                          refused: bool, room: Stage, drop: seq<Tx>) {
    var needed := Lacking(s.pool, tx, config);
    && room == RemoveEach(s, env, drop) && (needed <= 0 ==> drop == [])
    && EvictedBy(s.pool.remoteTxs, room.pool.remoteTxs, baseFee, held, needed, local, refused, drop)
    && RoomMade(s.pool, room.pool, tx, local, refused, Single(held.urgent, held.floating, s.pool.remoteTxs), config)
  }

  lemma RefusalLeavesAll(s: Stage, held: Heaps, baseFee: Option<int>, env: Env, config: Config, tx: Tx, local: bool)
    ensures RoomFor(s, held, baseFee, env, config, tx, local, true, s, [])
    ensures s.pool.slots + NumSlots(tx) <= config.globalSlots + config.globalQueue ==>
              RoomFor(s, held, baseFee, env, config, tx, local, false, s, [])
  {
    var needed := Lacking(s.pool, tx, config);
    RefusalEvictsNothing(s.pool.remoteTxs, baseFee, held, needed, local);
  }

  lemma RemovalMakesRoom(s: Stage, held: Heaps, baseFee: Option<int>, env: Env, config: Config, tx: Tx, local: bool, room: Stage,
                         drop: seq<Tx>)
    requires Consistent(s.pool) && Lacking(s.pool, tx, config) > 0 && room == RemoveEach(s, env, drop)
    requires FreesRoom(s.pool, tx, local, Single(held.urgent, held.floating, s.pool.remoteTxs), config, drop)
    requires Picks(baseFee, held.urgent, held.floating, s.pool.remoteTxs, Lacking(s.pool, tx, config), drop)
    requires !local ==> Slots(drop) >= Lacking(s.pool, tx, config)
    ensures RoomFor(s, held, baseFee, env, config, tx, local, false, room, drop)
  {
    RemoveEachKeeps(s, env, drop);
    DropsMakeRoom(s.pool, room.pool, tx, local, Single(held.urgent, held.floating, s.pool.remoteTxs), config, drop);
  }

  /** An addition: some transactions are evicted, and the newcomer is filed or not. */
  lemma AdditionKeepsInStep(s: Stage, held: Heaps, baseFee: Option<int>, env: Env, config: Config, tx: Tx, local: bool,
                            refused: bool, room: Stage, drop: seq<Tx>, filed: bool, p: Pool)
    requires Consistent(s.pool) && RoomFor(s, held, baseFee, env, config, tx, local, refused, room, drop)
    requires filed ==> env.nonce(tx.from) <= tx.nonce && !Exceeds(tx, env.balance(tx.from), env.maxGas)
    requires var q := if filed then FiledAsTarget(room.pool, tx, local) else room.pool;
             p.pending == q.pending && p.queue == q.queue
    ensures KeepsInStep(s.pool, s.nonces, p, room.nonces, env)
  {
    RemoveEachKeeps(s, env, drop);
    var q := if filed then FiledAsTarget(room.pool, tx, local) else room.pool;
    if filed {
      FilingKeepsInStep(room.pool, room.nonces, env, tx, local);
      InStepTwice(s.pool, s.nonces, room.pool, room.nonces, q, room.nonces, env);
    }
    SameListsKeepInStep(q, room.nonces, p, env);
    InStepTwice(s.pool, s.nonces, q, room.nonces, p, room.nonces, env);
  }

  /** A removal takes an account's virtual nonce below the chain's exactly if it takes a pending transaction
      from below it. */
  lemma RemoveSinks(p: Pool, nonces: map<Address, nat>, env: Env, tx: Tx, a: Address)
    requires AllRewound(p, nonces, env)
    ensures Virtual(NoncesAfterRemove(p, nonces, env, tx), env, a) < env.nonce(a) <==>
            || Virtual(nonces, env, a) < env.nonce(a)
            || (&& (tx in p.localTxs || tx in p.remoteTxs) && a == tx.from
                && tx.nonce in Of(p.pending, a) && tx.nonce < env.nonce(a))
  {
    assert Rewound(env.nonce(a), ViewOf(p, nonces, env, a));
    NoncerLaws(nonces, env, tx.from, tx.nonce, a);
  }

  /** Once the chain state has changed, promoting and then demoting puts an account back on the chain's nonce
      without gaps exactly if no eviction took its virtual nonce below and no short run was queued in front. */
  lemma RestoredIff(v: View, env: Env, config: Config, locals: set<Address>, a: Address)
    requires AccountOk(a, v.pend, v.que) && Rewound(env.nonce(a), v)
    ensures LinedUp(env.nonce(a), DemoteOne(PromoteOne(v, env, config, locals, a), env, a)) <==>
            v.next == env.nonce(a) && !GapLeft(v, env, a)
  {
    QueueAtOrAbove(v, env, config, locals, a);
    if v.next < env.nonce(a) {
      SunkStays(v, env, config, locals, a);
    } else {
      var r := RunFromState(v.que, env, a);
      var ready := ReadyOf(v.que, v.next, env, a);
      if ready == map[] {
        KeptAlone(v.pend, ready, env, a);
      } else {
        KeptWithRun(v.pend, ready, env, a, r);
      }
    }
  }

  /** Nothing is promoted from below the chain's nonce, and nothing pending below it is kept. */
  lemma SunkStays(v: View, env: Env, config: Config, locals: set<Address>, a: Address)
    requires Rewound(env.nonce(a), v) && v.next < env.nonce(a)
    ensures var v' := DemoteOne(PromoteOne(v, env, config, locals, a), env, a); v'.pend == map[] && v'.next == v.next
  {
    var kept := Usable(v.que, env, a);
    assert forall n <- kept :: v.next < n;
    assert ReadyEnd(kept, v.next) == 0 && ReadyOf(v.que, v.next, env, a) == map[];
    assert v.pend + map[] == v.pend;
    assert From(v.pend, env.nonce(a)) == map[];
  }

  lemma KeptAlone(pend: Txs, ready: Txs, env: Env, a: Address)
    requires GapFree(pend) && ready == map[]
    ensures var kept := KeptOf(pend + ready, env, a);
            GapFree(kept) && (forall n <- kept :: env.nonce(a) <= n) && (kept != map[] ==> env.nonce(a) in kept)
  {
    assert pend + ready == pend;
    StrictKeepsGapFree(pend, 0, 0, 0, env.nonce(a));
    StrictKeepsGapFree(From(pend, env.nonce(a)), env.balance(a), env.maxGas, 0, 0);
  }

  lemma KeptWithRun(pend: Txs, ready: Txs, env: Env, a: Address, r: nat)
    requires GapFree(pend) && env.nonce(a) < r && IsRun(ready, env.nonce(a), r) && pend.Keys !! ready.Keys
    requires forall n <- ready :: !Exceeds(ready[n], env.balance(a), env.maxGas)
    ensures ready != map[] && Highest(ready) == r - 1
    ensures var kept := KeptOf(pend + ready, env, a);
            && env.nonce(a) in kept && (forall n <- kept :: env.nonce(a) <= n)
            && (GapFree(kept) <==> !(pend != map[] && r < Lowest(pend) && !Exceeds(pend[Lowest(pend)], env.balance(a), env.maxGas)))
  {
    assert r - 1 in ready;
    KeptBehindRun(pend, From(pend + ready, env.nonce(a)), env.nonce(a), r, env.balance(a), env.maxGas);
  }

  lemma QueueAtOrAbove(v: View, env: Env, config: Config, locals: set<Address>, a: Address)
    ensures forall n <- DemoteOne(PromoteOne(v, env, config, locals, a), env, a).que :: env.nonce(a) <= n
  {
  }

  /** Whatever the chain does, an account that was in step with it has no short run queued in front: its
      queue lies behind its pending list. */
  lemma TrackLeavesNoGap(state: nat, v: View, env: Env, a: Address)
    requires AccountOk(a, v.pend, v.que) && OnTrack(state, v.next, v.pend, v.que)
    ensures GapFree(v.pend) && !GapLeft(v.(next := env.nonce(a)), env, a)
  {
    var r := RunFromState(v.que, env, a);
    var ready := ReadyOf(v.que, env.nonce(a), env, a);
    if v.pend != map[] && ready != map[] {
      assert Highest(ready) in v.que && Highest(ready) !in v.pend;
      assert v.next <= Highest(ready) && Lowest(v.pend) < v.next;
    }
  }

  /** Promotion keeps an account fronted: an empty pending list is only extended from the chain's nonce. */
  lemma PromoteFronts(v: View, env: Env, config: Config, locals: set<Address>, a: Address)
    requires AccountOk(a, v.pend, v.que) && Fronted(v, env, a)
    ensures Fronted(PromoteOne(v, env, config, locals, a), env, a)
  {
    var kept, ready := Usable(v.que, env, a), ReadyOf(v.que, v.next, env, a);
    var v' := PromoteOne(v, env, config, locals, a);
    if v.pend == map[] {
      assert forall n <- kept :: v.next <= n;
      if ready != map[] {
        assert Lowest(kept) <= v.next;
        assert env.nonce(a) in ready;
      } else if kept != map[] {
        assert Lowest(kept) !in ready;
        assert Lowest(kept) > v.next;
      }
    }
  }

  /** There is nothing to demote on a fronted account. */
  lemma DemoteIdle(v: View, env: Env, a: Address)
    requires Fronted(v, env, a)
    ensures DemoteOne(v, env, a) == v
  {
    assert From(v.pend, env.nonce(a)) == v.pend;
    assert AffordablePrefix(v.pend, env.balance(a), env.maxGas) == v.pend;
    assert KeptOf(v.pend, env, a) == v.pend && BackOf(v.pend, env, a) == map[];
    assert v.que + map[] == v.que;
  }

  /** Whatever was pending, queued, reinjected or evicted, promotion and demotion leave a fronted account. */
  lemma RefreshFronts(v: View, env: Env, config: Config, locals: set<Address>, a: Address)
    requires AccountOk(a, v.pend, v.que) && v.next <= env.nonce(a)
    ensures Fronted(DemoteOne(PromoteOne(v, env, config, locals, a), env, a), env, a)
  {
    var v1 := PromoteOne(v, env, config, locals, a);
    QueueAtOrAbove(v, env, config, locals, a);
    var kept, ready := Usable(v.que, env, a), ReadyOf(v.que, v.next, env, a);
    assert forall n <- kept :: env.nonce(a) <= n;
    if v1.next > env.nonce(a) {
      assert kept != map[] && Lowest(kept) == v.next == env.nonce(a);
      RunKept(v.pend, kept, env, a, v1.next);
    }
  }

  /** An affordable run from the chain's nonce is not demoted. */
  lemma RunKept(pend: Txs, kept: Txs, env: Env, a: Address, end: nat)
    requires env.nonce(a) in kept && env.nonce(a) < end && !Exceeds(kept[env.nonce(a)], env.balance(a), env.maxGas)
    ensures env.nonce(a) in KeptOf(pend + Before(kept, end), env, a)
  {
    var s, all := env.nonce(a), From(pend + Before(kept, end), env.nonce(a));
    assert s in all && all[s] == kept[s];
    assert s in AffordablePrefix(all, env.balance(a), env.maxGas);
  }

  /** A reorganisation from nonce 7 down to nonce 5 that brings back transaction 5 but not 6 leaves
      transaction 7 pending behind a gap. */
  lemma ReorgLeavesGap(config: Config, locals: set<Address>)
    ensures var t5, t7 := Tx(0, 5, 1, 1, 1, 0, 1, 0), Tx(0, 7, 1, 1, 1, 0, 1, 0);
            var env, v := FlatEnv(5, 1), View(map[7 := t7], map[5 := t5], 5);
            && AccountOk(0, v.pend, v.que) && OnTrack(7, 8, v.pend, map[])
            && !LinedUp(5, DemoteOne(PromoteOne(v, env, config, locals, 0), env, 0))
  {
    var t5, t7 := Tx(0, 5, 1, 1, 1, 0, 1, 0), Tx(0, 7, 1, 1, 1, 0, 1, 0);
    var env, v := FlatEnv(5, 1), View(map[7 := t7], map[5 := t5], 5);
    var r := RunFromState(v.que, env, 0);
    assert Cost(t5) == 1 && Cost(t7) == 1;
    assert 5 in Usable(v.que, env, 0);
    var ready := ReadyOf(v.que, 5, env, 0);
    assert 7 in v.pend && Lowest(v.pend) == 7;
    assert 5 in ready && Highest(ready) == 5;
    assert GapLeft(v, env, 0);
    RestoredIff(v, env, config, locals, 0);
  }

  /** Promotion extends a pending list that is in step with the chain. */
  lemma PromoteOnTrack(state: nat, v: View, env: Env, config: Config, locals: set<Address>, a: Address)
    requires AccountOk(a, v.pend, v.que) && OnTrack(state, v.next, v.pend, v.que)
    ensures var v' := PromoteOne(v, env, config, locals, a);
            && OnTrack(state, v'.next, v'.pend, v'.que) && (forall n <- v.pend :: n in v'.pend && v'.pend[n] == v.pend[n])
            && forall n <- v'.pend :: n in v.pend || !Exceeds(v'.pend[n], env.balance(a), env.maxGas)
  {
    var kept, ready := Usable(v.que, env, a), ReadyOf(v.que, v.next, env, a);
    forall n | n in v.que ensures v.next <= n {
      assert n !in v.pend;
    }
    assert forall n <- ready :: n in v.que && !Exceeds(ready[n], env.balance(a), env.maxGas);
  }

  /** The first pending transaction of an account, if any, is affordable. */
  ghost predicate FirstAffordable(v: View, env: Env, a: Address) {
    env.nonce(a) in v.pend ==> !Exceeds(v.pend[env.nonce(a)], env.balance(a), env.maxGas)
  }

  lemma KeptOnTrack(pend: Txs, next: nat, env: Env, a: Address)
    requires env.nonce(a) <= next && forall n: nat :: n in pend <==> env.nonce(a) <= n < next
    ensures var kept := KeptOf(pend, env, a);
            && GapFree(kept) && (forall n <- kept :: env.nonce(a) <= n)
            && (kept != map[] ==> env.nonce(a) in kept)
            && (kept != map[] <==> env.nonce(a) < next && !Exceeds(pend[env.nonce(a)], env.balance(a), env.maxGas))
  {
    var s := env.nonce(a);
    assert pend == From(pend, s);
    var prefix := AffordablePrefix(pend, env.balance(a), env.maxGas);
    StrictKeepsGapFree(pend, env.balance(a), env.maxGas, 0, 0);
    assert s in pend && !Exceeds(pend[s], env.balance(a), env.maxGas) ==> s in prefix;
    assert forall n <- prefix :: s in prefix;
  }

  /** If the chain state stays as it is, an account in step with it is in line afterwards exactly if its first
      pending transaction is still affordable: otherwise its list is emptied and its virtual nonce stays. */
  lemma RefreshedIff(v: View, env: Env, config: Config, locals: set<Address>, a: Address)
    requires AccountOk(a, v.pend, v.que) && OnTrack(env.nonce(a), v.next, v.pend, v.que)
    ensures LinedUp(env.nonce(a), DemoteOne(PromoteOne(v, env, config, locals, a), env, a)) <==> FirstAffordable(v, env, a)
  {
    var v' := PromoteOne(v, env, config, locals, a);
    PromoteOnTrack(env.nonce(a), v, env, config, locals, a);
    QueueAtOrAbove(v, env, config, locals, a);
    KeptOnTrack(v'.pend, v'.next, env, a);
  }

  /** Evicting a pending transaction that the chain has moved past leaves its account out of line. */
  lemma EvictionUnlines(p: Pool, env: Env, config: Config, locals: set<Address>, tx: Tx)
    requires Consistent(p) && AllRewound(p, map[], env) && (tx in p.localTxs || tx in p.remoteTxs)
    requires tx.nonce in Of(p.pending, tx.from) && tx.nonce < env.nonce(tx.from)
    ensures var a, v := tx.from, ViewOf(AfterRemove(p, tx), NoncesAfterRemove(p, map[], env, tx), env, tx.from);
            v.next == tx.nonce && !LinedUp(env.nonce(a), DemoteOne(PromoteOne(v, env, config, locals, a), env, a))
  {
    var a, v := tx.from, ViewOf(AfterRemove(p, tx), NoncesAfterRemove(p, map[], env, tx), env, tx.from);
    RemoveKeepsConsistent(p, tx);
    assert AccountOk(a, v.pend, v.que);
    assert Rewound(env.nonce(a), ViewOf(p, map[], env, a));
    RemoveView(p, map[], env, tx, a);
    RemoveFromKeeps(ViewOf(p, map[], env, a), tx.nonce, env, a, map[]);
    RestoredIff(v, env, config, locals, a);
  }

  /** A pool with one transaction, which is pending. */
  ghost function OnePending(tx: Tx): Pool {
    Pool(map[tx.from := map[tx.nonce := tx]], map[], {}, {tx}, SlotSum({} + {tx}))
  }

  lemma OnePendingIsConsistent(tx: Tx)
    ensures Consistent(OnePending(tx)) && Of(OnePending(tx).pending, tx.from) == map[tx.nonce := tx]
    ensures forall a | a != tx.from :: Of(OnePending(tx).pending, a) == map[]
  {
    var p := OnePending(tx);
    forall x ensures Filed(p, x) <==> x in p.localTxs || x in p.remoteTxs {
      assert Has(map[tx.nonce := tx], x) <==> x == tx;
    }
  }

  /** One pending transaction, in step with the chain; the chain moves past it before maintenance drops it.  If
      reinjection evicts it first, its account ends up out of line. */
  lemma EvictionLeavesStaleNonce(tx: Tx, env: Env, env': Env, config: Config, locals: set<Address>)
    requires env.nonce(tx.from) == tx.nonce < env'.nonce(tx.from)
    ensures var p := OnePending(tx);
            var p', nonces', a := AfterRemove(p, tx), NoncesAfterRemove(p, map[], env', tx), tx.from;
            && Consistent(p) && Contiguous(p, map[tx.from := tx.nonce + 1], env)
            && !LinedUp(env'.nonce(a),
                        DemoteOne(PromoteOne(ViewOf(p', nonces', env', a), env', config, locals, a), env', a))
  {
    var p := OnePending(tx);
    OnePendingIsConsistent(tx);
    forall a ensures OnTrack(env.nonce(a), Virtual(map[tx.from := tx.nonce + 1], env, a), Of(p.pending, a),
                             Of(p.queue, a))
             ensures Rewound(env'.nonce(a), ViewOf(p, map[], env', a))
    {
    }
    EvictionUnlines(p, env', config, locals, tx);
  }

  /** Every account has the same nonce and one coin. */
  function FlatEnv(nonce: nat, maxGas: nat): Env {
    Env((x: Address) => nonce, (x: Address) => 1, maxGas)
  }

  /** The pool after demoting one account. */
  ghost function AfterDemote(p: Pool, env: Env, a: Address): Pool {
    var pend := Of(p.pending, a);
    Shrunk(p, a, KeptOf(pend, env, a), Of(p.queue, a) + BackOf(pend, env, a), UnpayableOf(pend, env, a))
  }

  /** What demotion drops: old and unaffordable transactions. */
  ghost function UnpayableOf(pend: Txs, env: Env, a: Address): set<Tx> {
    TxsOf(pend) - TxsOf(KeptOf(pend, env, a)) - TxsOf(BackOf(pend, env, a))
  }

  lemma DemoteKeepsConsistent(p: Pool, env: Env, a: Address)
    requires Consistent(p)
    ensures Consistent(AfterDemote(p, env, a))
  {
    var pend := Of(p.pending, a);
    var kept, back := KeptOf(pend, env, a), BackOf(pend, env, a);
    DemoteKeeps(p, a, kept, back);
    ShrinkingKeepsConsistent(p, a, kept, Of(p.queue, a) + back, UnpayableOf(pend, env, a));
  }

  lemma DemoteView(p: Pool, nonces: map<Address, nat>, env: Env, a: Address, b: Address)
    ensures ViewOf(AfterDemote(p, env, a), nonces, env, b) ==
            if b == a then DemoteOne(ViewOf(p, nonces, env, a), env, a) else ViewOf(p, nonces, env, b)
  {
  }

  lemma DropsInParts(a: Address, pend: Txs, n: nat, usable: Txs, kept: Txs)
    requires OwnTxs(a, pend) && SubmapOf(usable, From(pend, n)) && SubmapOf(kept, usable)
    ensures TxsOf(pend) - TxsOf(kept) - TxsOf(Except(usable, kept)) == TxsOf(Before(pend, n)) + TxsOf(Except(From(pend, n), usable))
  {
    var back, olds, drops := Except(usable, kept), Before(pend, n), Except(From(pend, n), usable);
    forall x ensures x in TxsOf(pend) - TxsOf(kept) - TxsOf(back) <==> x in TxsOf(olds) + TxsOf(drops) {
      InTxsOf(a, pend, x);
      InTxsOf(a, kept, x);
      InTxsOf(a, back, x);
      InTxsOf(a, olds, x);
      InTxsOf(a, drops, x);
    }
  }

  lemma NothingPending(v: View, env: Env, a: Address)
    requires v.pend == map[]
    ensures DemoteOne(v, env, a) == v
  {
    assert KeptOf(v.pend, env, a) == map[] && BackOf(v.pend, env, a) == map[];
    assert v.que + map[] == v.que;
  }

  lemma MergeBack(base: Txs, usable: Txs, prefix: Txs)
    requires usable.Keys !! base.Keys && SubmapOf(prefix, usable)
    ensures base + Except(usable, prefix) + prefix == base + Except(usable, map[])
    ensures (base + Except(usable, prefix)).Keys !! prefix.Keys
  {
  }

  /** Re-queueing in two steps or in one. */
  lemma BackInTwo(queue: Lists, a: Address, usable: Txs, prefix: Txs)
    requires NoEmpty(queue) && usable.Keys !! Of(queue, a).Keys && SubmapOf(prefix, usable)
    ensures var q := SetOf(queue, a, Of(queue, a) + Except(usable, prefix));
            && NoEmpty(q) && Of(q, a).Keys !! prefix.Keys
            && SetOf(q, a, Of(q, a) + prefix) == SetOf(queue, a, Of(queue, a) + Except(usable, map[]))
  {
    var first := Of(queue, a) + Except(usable, prefix);
    MergeBack(Of(queue, a), usable, prefix);
    SetNoEmpty(queue, a, first);
    SetTwice(queue, a, first, first + prefix);
  }

  /** The accounts in `done` have been promoted, the others are as before. */
  ghost predicate Promoted(p0: Pool, nonces0: map<Address, nat>, p: Pool, nonces: map<Address, nat>,
                           env: Env, config: Config, locals: set<Address>, done: set<Address>)
  {
    forall a :: ViewOf(p, nonces, env, a) ==
                var v := ViewOf(p0, nonces0, env, a); if a in done then PromoteOne(v, env, config, locals, a) else v
  }

  lemma PromotedStep(p0: Pool, nonces0: map<Address, nat>, p: Pool, nonces: map<Address, nat>,
                     env: Env, config: Config, locals: set<Address>, done: set<Address>, a: Address)
    requires Promoted(p0, nonces0, p, nonces, env, config, locals, done) && a !in done
    ensures Promoted(p0, nonces0, AfterPromote(p, nonces, env, config, locals, a),
                     NoncesAfterPromote(p, nonces, env, a),
                     env, config, locals, done + {a})
  {
    var p', nonces' := AfterPromote(p, nonces, env, config, locals, a), NoncesAfterPromote(p, nonces, env, a);
    forall b ensures ViewOf(p', nonces', env, b) ==
                     var v := ViewOf(p0, nonces0, env, b); if b in done + {a} then PromoteOne(v, env, config, locals, b) else v
    {
      PromoteView(p, nonces, env, config, locals, a, b);
    }
  }

  /** The accounts in `done` have been demoted, the others are as before. */
  ghost predicate Demoted(p0: Pool, p: Pool, nonces: map<Address, nat>, env: Env, done: set<Address>) {
    forall a :: ViewOf(p, nonces, env, a) == var v := ViewOf(p0, nonces, env, a); if a in done then DemoteOne(v, env, a) else v
  }

  lemma DemotedStep(p0: Pool, p: Pool, nonces: map<Address, nat>, env: Env, done: set<Address>, a: Address)
    requires Demoted(p0, p, nonces, env, done) && a !in done
    ensures Demoted(p0, AfterDemote(p, env, a), nonces, env, done + {a})
  {
    var p' := AfterDemote(p, env, a);
    forall b ensures ViewOf(p', nonces, env, b) == var v := ViewOf(p0, nonces, env, b); if b in done + {a} then DemoteOne(v, env, b) else v {
      DemoteView(p, nonces, env, a, b);
    }
  }
}
